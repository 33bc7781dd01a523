/** The watchlist table of app.js: the JSON file `data/watchlist.json` as a
    document holding a sequence of records, and the POST, PUT and DELETE
    handlers of `/api/watchlist` as operations that read it, decide a reply and
    possibly write a new sequence back. The clock's ISO string `stamp` and the
    route parameter already converted by `Number(...)` are inputs. */
module Watchlist {
  import opened Wrappers
  import opened JsStrings
  import opened JsNumbers
  import opened Resolver

  /** One watchlist record. */
  datatype Item = Item(id: int, symbol: string, name: string, notes: string, lastPrice: real, updatedAt: string)

  /** What `JSON.parse` makes of the file: nothing (missing or malformed), an
      array of records, or some other JSON value. */
  datatype Document = Unreadable | JsonArray(items: seq<Item>) | JsonOther

  /** `readWatchlist()`: the parsed array, and `[]` whenever the file is
      missing, malformed or holds something other than an array. */
  function ReadWatchlist(doc: Document): (list: seq<Item>)
    ensures doc.JsonArray? ==> list == doc.items
    ensures !doc.JsonArray? ==> list == []
  {
    if doc.JsonArray? then doc.items else []
  }

  /** A field of the request body: undefined, a string, or any other JSON value. */
  datatype Field = Absent | Str(value: string) | NonString

  /** A response body: `{ error }`, a record, `{ message }`, or Express's error
      page after the handler threw. */
  datatype Body = ErrorJson(error: string) | ItemJson(item: Item) | MessageJson(message: string) | ErrorPage

  datatype Reply = Reply(status: int, body: Body)

  /** The reply of a handler and the sequence it saves, if it saves one. */
  datatype Outcome = Outcome(reply: Reply, saved: Option<seq<Item>>)

  /** The file after a handler: the saved sequence, or the file as it was. */
  function AfterSave(doc: Document, saved: Option<seq<Item>>): (d: Document)
    ensures saved.Some? ==> d == JsonArray(saved.value)
    ensures saved.None? ==> d == doc
  {
    if saved.Some? then JsonArray(saved.value) else doc
  }

  /** Saving then reading is the identity: `readWatchlist()` after
      `saveWatchlist(list)` gives `list` back, and a handler that saves nothing
      leaves the file, and so the next read, as it was. */
  lemma SaveThenRead(doc: Document, saved: Option<seq<Item>>)
    ensures saved.Some? ==> ReadWatchlist(AfterSave(doc, saved)) == saved.value
    ensures saved.None? ==> AfterSave(doc, saved) == doc && ReadWatchlist(AfterSave(doc, saved)) == ReadWatchlist(doc)
  {
  }

  /** Symbols in the table are pairwise different. */
  predicate SymbolsUnique(list: seq<Item>) {
    forall i, j :: 0 <= i < j < |list| ==> list[i].symbol != list[j].symbol
  }

  /** Ids in the table are pairwise different. */
  predicate IdsDistinct(list: seq<Item>) {
    forall i, j :: 0 <= i < j < |list| ==> list[i].id != list[j].id
  }

  /** `list.some((x) => x.symbol === s)`. */
  predicate HasSymbol(list: seq<Item>, s: string) {
    exists k :: 0 <= k < |list| && list[k].symbol == s
  }

  /** `list.some((x) => x.id === v)`. */
  predicate HasId(list: seq<Item>, v: real) {
    exists k :: 0 <= k < |list| && list[k].id as real == v
  }

  // ---------------------------------------------------------------- POST

  /** The guard of POST: `symbol` is a string that is not blank after trimming. */
  predicate ValidSymbol(symbol: Field) {
    symbol.Str? && Trim(symbol.value) != ""
  }

  /** `Math.max(...list.map((x) => x.id))`. */
  function MaxId(list: seq<Item>): (m: int)
    requires |list| > 0
    ensures forall k :: 0 <= k < |list| ==> list[k].id <= m
    ensures exists k :: 0 <= k < |list| && list[k].id == m
    decreases |list|
  {
    var last := list[|list| - 1].id;
    if |list| == 1 then last
    else
      var m := MaxId(list[..|list| - 1]);
      assert forall k :: 0 <= k < |list| - 1 ==> list[..|list| - 1][k] == list[k];
      if m < last then last else m
  }

  /** `nextId`: one more than the largest id, or 1 for an empty table. */
  function NextId(list: seq<Item>): (n: int)
    ensures forall k :: 0 <= k < |list| ==> list[k].id < n
    ensures list == [] ==> n == 1
    ensures list != [] ==> exists k :: 0 <= k < |list| && list[k].id == n - 1
  {
    if |list| > 0 then MaxId(list) + 1 else 1
  }

  /** A body string field with the destructuring default `""`. */
  function OrEmpty(f: Field): string
    requires !f.NonString?
  {
    if f.Str? then f.value else ""
  }

  /** The POST handler on the table read from the file. A non-string `name` or
      `notes` makes `.trim()` throw, which Express answers with status 500. */
  function PostOutcome(list: seq<Item>, symbol: Field, name: Field, notes: Field, stamp: string): (r: Outcome)
    ensures !ValidSymbol(symbol) ==> r.reply == Reply(400, ErrorJson("symbol is required")) && r.saved.None?
    ensures ValidSymbol(symbol) && HasSymbol(list, Canonical(symbol.value)) ==>
              r.reply == Reply(409, ErrorJson("symbol already exists in watchlist")) && r.saved.None?
    ensures ValidSymbol(symbol) && !HasSymbol(list, Canonical(symbol.value)) && (name.NonString? || notes.NonString?) ==>
              r.reply.status == 500 && r.saved.None?
    ensures ValidSymbol(symbol) && !HasSymbol(list, Canonical(symbol.value)) && !name.NonString? && !notes.NonString? ==>
              r.reply.status == 201 && r.saved.Some?
    ensures r.saved.Some? ==>
              && r.reply.body.ItemJson?
              && r.saved.value == list + [r.reply.body.item]
              && r.reply.body.item.symbol == Canonical(symbol.value)
              && r.reply.body.item.name == Trim(OrEmpty(name))
              && r.reply.body.item.notes == Trim(OrEmpty(notes))
              && r.reply.body.item.lastPrice == 100.0
              && r.reply.body.item.updatedAt == stamp
              && r.reply.body.item.id == NextId(list)
              && (forall k :: 0 <= k < |list| ==> list[k].id < r.reply.body.item.id)
              && (forall k :: 0 <= k < |list| ==> list[k].symbol != r.reply.body.item.symbol)
  {
    if !ValidSymbol(symbol) then Outcome(Reply(400, ErrorJson("symbol is required")), None)
    else
      var s := Canonical(symbol.value);
      if HasSymbol(list, s) then Outcome(Reply(409, ErrorJson("symbol already exists in watchlist")), None)
      else if name.NonString? || notes.NonString? then Outcome(Reply(500, ErrorPage), None)
      else
        var item := Item(NextId(list), s, Trim(OrEmpty(name)), Trim(OrEmpty(notes)), 100.0, stamp);
        Outcome(Reply(201, ItemJson(item)), Some(list + [item]))
  }

  /** Appending a record whose symbol and id no record has keeps symbols unique
      and ids distinct. */
  lemma AppendKeepsTable(list: seq<Item>, item: Item)
    requires SymbolsUnique(list) && IdsDistinct(list)
    requires forall k :: 0 <= k < |list| ==> list[k].symbol != item.symbol && list[k].id != item.id
    ensures SymbolsUnique(list + [item]) && IdsDistinct(list + [item])
  {
    var l' := list + [item];
    forall i, j | 0 <= i < j < |l'| ensures l'[i].symbol != l'[j].symbol && l'[i].id != l'[j].id {
      if j < |list| {
        assert l'[i] == list[i] && l'[j] == list[j];
      } else {
        assert l'[i] == list[i] && l'[j] == item;
      }
    }
  }

  /** A successful POST keeps symbols unique and ids distinct. */
  lemma PostKeepsTable(list: seq<Item>, symbol: Field, name: Field, notes: Field, stamp: string)
    requires SymbolsUnique(list) && IdsDistinct(list)
    ensures var r := PostOutcome(list, symbol, name, notes, stamp);
            r.saved.Some? ==> SymbolsUnique(r.saved.value) && IdsDistinct(r.saved.value)
  {
    if ValidSymbol(symbol) && !HasSymbol(list, Canonical(symbol.value)) && !name.NonString? && !notes.NonString? {
      var item := Item(NextId(list), Canonical(symbol.value), Trim(OrEmpty(name)), Trim(OrEmpty(notes)), 100.0, stamp);
      forall k | 0 <= k < |list| ensures list[k].symbol != item.symbol && list[k].id != item.id {
        assert !(list[k].symbol == Canonical(symbol.value));
      }
      AppendKeepsTable(list, item);
    }
  }

  /** A symbol that resolves to a blank or duplicate one never changes the
      table, whatever the other fields are. */
  lemma PostRejectsDuplicate(list: seq<Item>, symbol: Field, name: Field, notes: Field, stamp: string, k: nat)
    requires symbol.Str? && k < |list| && list[k].symbol == Canonical(symbol.value)
    ensures PostOutcome(list, symbol, name, notes, stamp).saved.None?
    ensures Trim(symbol.value) != "" ==> PostOutcome(list, symbol, name, notes, stamp).reply.status == 409
  {
    assert HasSymbol(list, Canonical(symbol.value));
  }

  // ---------------------------------------------------------------- PUT

  /** `list.findIndex((x) => x.id === v)`. */
  function FindIndex(list: seq<Item>, v: real): (k: int)
    ensures -1 <= k < |list|
    ensures k >= 0 ==> list[k].id as real == v && forall j :: 0 <= j < k ==> list[j].id as real != v
    ensures k == -1 <==> !HasId(list, v)
    decreases |list|
  {
    if |list| == 0 then -1
    else if list[0].id as real == v then 0
    else
      var rest := FindIndex(list[1..], v);
      assert forall j :: 1 <= j < |list| ==> list[j] == list[1..][j - 1];
      if rest == -1 then -1 else rest + 1
  }

  /** The record after PUT: string fields replace `name`/`notes` (trimmed),
      other values are ignored, and `updatedAt` is always refreshed. */
  function Amend(item: Item, name: Field, notes: Field, stamp: string): (r: Item)
    ensures r.id == item.id && r.symbol == item.symbol && r.lastPrice == item.lastPrice
    ensures r.name == (if name.Str? then Trim(name.value) else item.name)
    ensures r.notes == (if notes.Str? then Trim(notes.value) else item.notes)
    ensures r.updatedAt == stamp
  {
    item.(name := if name.Str? then Trim(name.value) else item.name,
          notes := if notes.Str? then Trim(notes.value) else item.notes,
          updatedAt := stamp)
  }

  /** The PUT handler for `Number(req.params.id) == id`. */
  function PutOutcome(list: seq<Item>, id: Num, name: Field, notes: Field, stamp: string): (r: Outcome)
    ensures r.reply.status == 400 <==> !id.Finite?
    ensures r.reply.status == 404 <==> id.Finite? && !HasId(list, id.value)
    ensures r.saved.Some? <==> r.reply.status == 200
    ensures r.reply.status in {200, 400, 404}
  {
    if !id.Finite? then Outcome(Reply(400, ErrorJson("Invalid id")), None)
    else
      var k := FindIndex(list, id.value);
      if k == -1 then Outcome(Reply(404, ErrorJson("Item not found")), None)
      else
        var item := Amend(list[k], name, notes, stamp);
        Outcome(Reply(200, ItemJson(item)), Some(list[k := item]))
  }

  /** A successful PUT changes only the first record with that id, returns it,
      and leaves every other record and the order as they were. */
  lemma PutChangesOnlyTarget(list: seq<Item>, id: Num, name: Field, notes: Field, stamp: string)
    requires PutOutcome(list, id, name, notes, stamp).saved.Some?
    ensures var r := PutOutcome(list, id, name, notes, stamp);
            var k := FindIndex(list, id.value);
            && 0 <= k < |list|
            && |r.saved.value| == |list|
            && r.saved.value[k] == Amend(list[k], name, notes, stamp)
            && r.reply.body == ItemJson(r.saved.value[k])
            && (forall j :: 0 <= j < |list| && j != k ==> r.saved.value[j] == list[j])
  {
  }

  /** Replacing a record by one with the same symbol and id keeps symbols
      unique and ids distinct. */
  lemma ReplaceKeepsTable(list: seq<Item>, k: nat, item: Item)
    requires SymbolsUnique(list) && IdsDistinct(list)
    requires k < |list| && item.symbol == list[k].symbol && item.id == list[k].id
    ensures SymbolsUnique(list[k := item]) && IdsDistinct(list[k := item])
  {
    var l' := list[k := item];
    assert forall j :: 0 <= j < |l'| ==> l'[j].symbol == list[j].symbol && l'[j].id == list[j].id;
  }

  /** PUT keeps symbols unique and ids distinct: it changes neither. */
  lemma PutKeepsTable(list: seq<Item>, id: Num, name: Field, notes: Field, stamp: string)
    requires SymbolsUnique(list) && IdsDistinct(list)
    ensures var r := PutOutcome(list, id, name, notes, stamp);
            r.saved.Some? ==> SymbolsUnique(r.saved.value) && IdsDistinct(r.saved.value)
  {
    if id.Finite? {
      var k := FindIndex(list, id.value);
      if k != -1 {
        ReplaceKeepsTable(list, k, Amend(list[k], name, notes, stamp));
      }
    }
  }

  // ---------------------------------------------------------------- DELETE

  /** `list.filter((x) => x.id !== v)`. */
  function RemoveId(list: seq<Item>, v: real): (r: seq<Item>)
    ensures |r| <= |list|
    ensures forall k :: 0 <= k < |r| ==> r[k] in list && r[k].id as real != v
    ensures forall k :: 0 <= k < |list| && list[k].id as real != v ==> list[k] in r
    decreases |list|
  {
    if |list| == 0 then []
    else
      var p := list[..|list| - 1];
      var x := list[|list| - 1];
      assert forall k :: 0 <= k < |p| ==> p[k] == list[k];
      RemoveId(p, v) + (if x.id as real == v then [] else [x])
  }

  /** Filtering keeps relative order: it distributes over concatenation. */
  lemma {:induction false} RemoveIdConcat(a: seq<Item>, b: seq<Item>, v: real)
    ensures RemoveId(a + b, v) == RemoveId(a, v) + RemoveId(b, v)
    decreases |b|
  {
    if |b| == 0 {
      assert a + b == a;
    } else {
      var b' := b[..|b| - 1];
      assert (a + b)[..|a + b| - 1] == a + b';
      RemoveIdConcat(a, b', v);
    }
  }

  /** With no record of that id, filtering changes nothing. */
  lemma {:induction false} RemoveIdAbsent(list: seq<Item>, v: real)
    requires !HasId(list, v)
    ensures RemoveId(list, v) == list
    decreases |list|
  {
    if |list| > 0 {
      var p := list[..|list| - 1];
      assert !HasId(p, v) by {
        assert forall k :: 0 <= k < |p| ==> p[k] == list[k];
      }
      RemoveIdAbsent(p, v);
    }
  }

  /** With a record of that id, filtering removes at least one record. */
  lemma {:induction false} RemoveIdShrinks(list: seq<Item>, v: real)
    requires HasId(list, v)
    ensures |RemoveId(list, v)| < |list|
    decreases |list|
  {
    var p := list[..|list| - 1];
    if list[|list| - 1].id as real != v {
      assert HasId(p, v) by {
        var k :| 0 <= k < |list| && list[k].id as real == v;
        assert k < |p| && p[k] == list[k];
      }
      RemoveIdShrinks(p, v);
    }
  }

  /** Filtering keeps symbols unique and ids distinct. */
  lemma {:induction false} RemoveIdKeepsTable(list: seq<Item>, v: real)
    requires SymbolsUnique(list) && IdsDistinct(list)
    ensures SymbolsUnique(RemoveId(list, v)) && IdsDistinct(RemoveId(list, v))
    decreases |list|
  {
    if |list| > 0 {
      var n := |list| - 1;
      var p := list[..n];
      var x := list[n];
      assert SymbolsUnique(p) && IdsDistinct(p) by {
        assert forall k :: 0 <= k < |p| ==> p[k] == list[k];
      }
      RemoveIdKeepsTable(p, v);
      if x.id as real != v {
        assert RemoveId(list, v) == RemoveId(p, v) + [x];
        RemoveIdFromPrefix(list, v);
        AppendKeepsTable(RemoveId(p, v), x);
      } else {
        assert RemoveId(list, v) == RemoveId(p, v) + [];
        assert RemoveId(p, v) + [] == RemoveId(p, v);
      }
    }
  }

  /** The records kept from all but the last record share neither symbol nor id
      with the last one. */
  lemma RemoveIdFromPrefix(list: seq<Item>, v: real)
    requires SymbolsUnique(list) && IdsDistinct(list) && |list| > 0
    ensures var rp := RemoveId(list[..|list| - 1], v);
            forall k :: 0 <= k < |rp| ==> rp[k].symbol != list[|list| - 1].symbol && rp[k].id != list[|list| - 1].id
  {
    var n := |list| - 1;
    var p := list[..n];
    var rp := RemoveId(p, v);
    forall k | 0 <= k < |rp| ensures rp[k].symbol != list[n].symbol && rp[k].id != list[n].id {
      var j :| 0 <= j < |p| && p[j] == rp[k];
      assert list[j] == rp[k];
    }
  }

  /** The DELETE handler for `Number(req.params.id) == id`. */
  function DeleteOutcome(list: seq<Item>, id: Num): (r: Outcome)
    ensures r.reply.status == 400 <==> !id.Finite?
    ensures r.reply.status == 404 <==> id.Finite? && !HasId(list, id.value)
    ensures r.saved.Some? <==> r.reply.status == 200
    ensures r.reply.status in {200, 400, 404}
    ensures r.saved.Some? ==>
              && r.saved.value == RemoveId(list, id.value)
              && r.reply.body == MessageJson("Deleted successfully")
  {
    if !id.Finite? then Outcome(Reply(400, ErrorJson("Invalid id")), None)
    else if !HasId(list, id.value) then Outcome(Reply(404, ErrorJson("Item not found")), None)
    else Outcome(Reply(200, MessageJson("Deleted successfully")), Some(RemoveId(list, id.value)))
  }

  /** A successful DELETE removes every record with that id, at least one, and
      keeps the others with their order, symbols and ids. */
  lemma DeleteRemovesAll(list: seq<Item>, id: Num)
    requires SymbolsUnique(list) && IdsDistinct(list)
    requires DeleteOutcome(list, id).saved.Some?
    ensures var l' := DeleteOutcome(list, id).saved.value;
            && |l'| < |list|
            && (forall k :: 0 <= k < |l'| ==> l'[k].id as real != id.value)
            && SymbolsUnique(l') && IdsDistinct(l')
  {
    RemoveIdShrinks(list, id.value);
    RemoveIdKeepsTable(list, id.value);
  }

  // ---------------------------------------------------------------- the file

  /** `data/watchlist.json`, read and rewritten by the handlers. */
  class WatchlistFile {
    var doc: Document

    constructor (contents: Document)
      ensures doc == contents
    {
      doc := contents;
    }

    /** POST /api/watchlist. */
    method Post(symbol: Field, name: Field, notes: Field, stamp: string) returns (reply: Reply)
      modifies this
      ensures reply == PostOutcome(ReadWatchlist(old(doc)), symbol, name, notes, stamp).reply
      ensures doc == AfterSave(old(doc), PostOutcome(ReadWatchlist(old(doc)), symbol, name, notes, stamp).saved)
    {
      if !(symbol.Str? && Trim(symbol.value) != "") {
        return Reply(400, ErrorJson("symbol is required"));
      }
      var list := ReadWatchlist(doc);
      var normalizedSymbol := Canonical(symbol.value);
      if HasSymbol(list, normalizedSymbol) {
        assert PostOutcome(list, symbol, name, notes, stamp).saved.None?;
        return Reply(409, ErrorJson("symbol already exists in watchlist"));
      }
      var nextId := if |list| > 0 then MaxId(list) + 1 else 1;
      assert nextId == NextId(list);
      if name.NonString? || notes.NonString? {
        assert PostOutcome(list, symbol, name, notes, stamp) == Outcome(Reply(500, ErrorPage), None);
        return Reply(500, ErrorPage);
      }
      var newItem := Item(nextId, normalizedSymbol, Trim(OrEmpty(name)), Trim(OrEmpty(notes)), 100.0, stamp);
      assert PostOutcome(list, symbol, name, notes, stamp) == Outcome(Reply(201, ItemJson(newItem)), Some(list + [newItem]));
      list := list + [newItem];
      doc := JsonArray(list);
      reply := Reply(201, ItemJson(newItem));
    }

    /** PUT /api/watchlist/:id. */
    method Put(id: Num, name: Field, notes: Field, stamp: string) returns (reply: Reply)
      modifies this
      ensures reply == PutOutcome(ReadWatchlist(old(doc)), id, name, notes, stamp).reply
      ensures doc == AfterSave(old(doc), PutOutcome(ReadWatchlist(old(doc)), id, name, notes, stamp).saved)
    {
      if !id.Finite? {
        return Reply(400, ErrorJson("Invalid id"));
      }
      var list := ReadWatchlist(doc);
      var idx := FindIndex(list, id.value);
      if idx == -1 {
        return Reply(404, ErrorJson("Item not found"));
      }
      var item := list[idx];
      if name.Str? {
        item := item.(name := Trim(name.value));
      }
      if notes.Str? {
        item := item.(notes := Trim(notes.value));
      }
      item := item.(updatedAt := stamp);
      assert item == Amend(list[idx], name, notes, stamp);
      list := list[idx := item];
      doc := JsonArray(list);
      reply := Reply(200, ItemJson(item));
    }

    /** DELETE /api/watchlist/:id. */
    method Delete(id: Num) returns (reply: Reply)
      modifies this
      ensures reply == DeleteOutcome(ReadWatchlist(old(doc)), id).reply
      ensures doc == AfterSave(old(doc), DeleteOutcome(ReadWatchlist(old(doc)), id).saved)
    {
      if !id.Finite? {
        return Reply(400, ErrorJson("Invalid id"));
      }
      var list := ReadWatchlist(doc);
      if !HasId(list, id.value) {
        return Reply(404, ErrorJson("Item not found"));
      }
      var updated := RemoveId(list, id.value);
      doc := JsonArray(updated);
      reply := Reply(200, MessageJson("Deleted successfully"));
    }
  }
}
