/** The JavaScript string operations the core relies on: `trim`, `toUpperCase`,
    `toLowerCase`, `split` on one separator character, and the recurring
    `split(",").map(s => s.trim()).filter(Boolean)` chain. */
module JsStrings {

  /** The WhiteSpace and LineTerminator code points that `String.prototype.trim`
      removes (ECMAScript 2024, sections 12.2 and 12.3). */
  predicate IsTrimmable(c: char) {
    || c == '\t' || c == '\n' || c == '\U{B}' || c == '\U{C}' || c == '\r'
    || c == ' ' || c == '\U{A0}' || c == '\U{1680}'
    || ('\U{2000}' <= c <= '\U{200A}')
    || c == '\U{2028}' || c == '\U{2029}' || c == '\U{202F}' || c == '\U{205F}'
    || c == '\U{3000}' || c == '\U{FEFF}'
  }

  /** Leading trimmable characters removed: the result is a suffix of `s`. */
  function TrimStart(s: string): (r: string)
    ensures |r| <= |s| && r == s[|s| - |r|..]
    ensures forall k :: 0 <= k < |s| - |r| ==> IsTrimmable(s[k])
    ensures r != [] ==> !IsTrimmable(r[0])
    decreases |s|
  {
    if |s| > 0 && IsTrimmable(s[0]) then TrimStart(s[1..]) else s
  }

  /** Trailing trimmable characters removed: the result is a prefix of `s`. */
  function TrimEnd(s: string): (r: string)
    ensures |r| <= |s| && r == s[..|r|]
    ensures forall k :: |r| <= k < |s| ==> IsTrimmable(s[k])
    ensures r != [] ==> !IsTrimmable(r[|r| - 1])
    decreases |s|
  {
    if |s| > 0 && IsTrimmable(s[|s| - 1]) then TrimEnd(s[..|s| - 1]) else s
  }

  /** `s.trim()`: the slice of `s` left once the trimmable characters at both
      ends are cut off (`TrimIsSlice`). */
  function Trim(s: string): (r: string)
    ensures |r| <= |s|
    ensures r == [] <==> forall k :: 0 <= k < |s| ==> IsTrimmable(s[k])
    ensures r != [] ==> !IsTrimmable(r[0]) && !IsTrimmable(r[|r| - 1])
  {
    var t := TrimStart(s);
    var r := TrimEnd(t);
    assert r != [] ==> r[0] == t[0];
    r
  }

  /** `s.trim()` is the slice `s[i..j]` of `s`, with only trimmable characters
      before `i` and from `j` on. */
  lemma TrimIsSlice(s: string) returns (i: nat, j: nat)
    ensures i <= j <= |s| && Trim(s) == s[i..j]
    ensures forall k :: 0 <= k < i ==> IsTrimmable(s[k])
    ensures forall k :: j <= k < |s| ==> IsTrimmable(s[k])
  {
    var t := TrimStart(s);
    var r := TrimEnd(t);
    i := |s| - |t|;
    j := i + |r|;
    assert r == s[i..j];
    forall k | j <= k < |s| ensures IsTrimmable(s[k]) {
      assert s[k] == t[k - i];
    }
  }

  /** A string that is already trimmed is left alone by `trim`. */
  lemma TrimOfTrimmed(s: string)
    requires s == [] || (!IsTrimmable(s[0]) && !IsTrimmable(s[|s| - 1]))
    ensures Trim(s) == s
  {
    assert TrimStart(s) == s;
    assert TrimEnd(s) == s;
  }

  /** Trimming twice is trimming once. */
  lemma TrimIdempotent(s: string)
    ensures Trim(Trim(s)) == Trim(s)
  {
    TrimOfTrimmed(Trim(s));
  }

  /** ASCII case mapping; see README for what is left out. */
  function UpperChar(c: char): char {
    if 'a' <= c <= 'z' then (c as int - 'a' as int + 'A' as int) as char else c
  }

  function LowerChar(c: char): char {
    if 'A' <= c <= 'Z' then (c as int - 'A' as int + 'a' as int) as char else c
  }

  /** `s.toUpperCase()`: each ASCII lower-case letter becomes its upper-case
      partner, every other character is kept. */
  function ToUpper(s: string): (r: string)
    ensures |r| == |s|
    ensures forall k :: 0 <= k < |s| && 'a' <= s[k] <= 'z' ==> r[k] as int == s[k] as int - 32
    ensures forall k :: 0 <= k < |s| && !('a' <= s[k] <= 'z') ==> r[k] == s[k]
    ensures forall k :: 0 <= k < |r| ==> !('a' <= r[k] <= 'z')
  {
    seq(|s|, k requires 0 <= k < |s| => UpperChar(s[k]))
  }

  /** `s.toLowerCase()`: each ASCII upper-case letter becomes its lower-case
      partner, every other character is kept. */
  function ToLower(s: string): (r: string)
    ensures |r| == |s|
    ensures forall k :: 0 <= k < |s| && 'A' <= s[k] <= 'Z' ==> r[k] as int == s[k] as int + 32
    ensures forall k :: 0 <= k < |s| && !('A' <= s[k] <= 'Z') ==> r[k] == s[k]
    ensures forall k :: 0 <= k < |r| ==> !('A' <= r[k] <= 'Z')
  {
    seq(|s|, k requires 0 <= k < |s| => LowerChar(s[k]))
  }

  /** Upper-casing changes only letters, so it keeps a trimmed string trimmed. */
  lemma ToUpperKeepsTrimmed(s: string)
    requires Trim(s) == s
    ensures Trim(ToUpper(s)) == ToUpper(s)
  {
    var u := ToUpper(s);
    if s != [] {
      assert u[0] == UpperChar(s[0]) && u[|u| - 1] == UpperChar(s[|s| - 1]);
    }
    TrimOfTrimmed(u);
  }

  /** Upper-casing twice is upper-casing once. */
  lemma ToUpperIdempotent(s: string)
    ensures ToUpper(ToUpper(s)) == ToUpper(s)
  {
  }

  /** Position of the first `c` in `s`. */
  function IndexOf(s: string, c: char): (k: nat)
    requires c in s
    ensures k < |s| && s[k] == c && c !in s[..k]
  {
    if s[0] == c then 0 else 1 + IndexOf(s[1..], c)
  }

  /** The pieces rejoined with the separator between them. */
  function Join(parts: seq<string>, sep: char): string
    decreases |parts|
  {
    if |parts| == 0 then ""
    else if |parts| == 1 then parts[0]
    else parts[0] + [sep] + Join(parts[1..], sep)
  }

  /** `s.split(sep)` for a one-character separator: always at least one piece,
      no piece holds the separator, and joining the pieces gives `s` back. */
  function Split(s: string, sep: char): (parts: seq<string>)
    ensures |parts| >= 1
    ensures forall k :: 0 <= k < |parts| ==> sep !in parts[k]
    ensures Join(parts, sep) == s
    decreases |s|
  {
    if sep !in s then [s]
    else
      var i := IndexOf(s, sep);
      var rest := Split(s[i + 1..], sep);
      assert s == s[..i] + [sep] + s[i + 1..];
      [s[..i]] + rest
  }

  /** The other half of the round trip: splitting a join of separator-free
      pieces gives the pieces back. */
  lemma {:induction false} SplitJoin(parts: seq<string>, sep: char)
    requires |parts| >= 1
    requires forall k :: 0 <= k < |parts| ==> sep !in parts[k]
    ensures Split(Join(parts, sep), sep) == parts
    decreases |parts|
  {
    if |parts| > 1 {
      var s := Join(parts, sep);
      var tail := Join(parts[1..], sep);
      assert s == parts[0] + [sep] + tail;
      assert sep in s by { assert s[|parts[0]|] == sep; }
      var i := IndexOf(s, sep);
      assert s[..i] == parts[0];
      assert s[i + 1..] == tail;
      SplitJoin(parts[1..], sep);
    }
  }

  /** `xs.map(f).filter(Boolean)` on strings: the non-empty images, in order. */
  function MapNonEmpty(xs: seq<string>, f: string -> string): (r: seq<string>)
    ensures |r| <= |xs|
    ensures forall k :: 0 <= k < |r| ==> r[k] != ""
    decreases |xs|
  {
    if |xs| == 0 then []
    else
      var y := f(xs[|xs| - 1]);
      MapNonEmpty(xs[..|xs| - 1], f) + (if y == "" then [] else [y])
  }

  /** Every entry kept is the image of some element. */
  lemma {:induction false} MapNonEmptyOrigin(xs: seq<string>, f: string -> string, k: nat)
    requires k < |MapNonEmpty(xs, f)|
    ensures exists j :: 0 <= j < |xs| && MapNonEmpty(xs, f)[k] == f(xs[j])
    decreases |xs|
  {
    var p := xs[..|xs| - 1];
    var rest := MapNonEmpty(p, f);
    if k < |rest| {
      MapNonEmptyOrigin(p, f, k);
      var j :| 0 <= j < |p| && rest[k] == f(p[j]);
      assert p[j] == xs[j];
    } else {
      assert MapNonEmpty(xs, f)[k] == f(xs[|xs| - 1]);
    }
  }

  /** No non-empty image is lost. */
  lemma {:induction false} MapNonEmptyCover(xs: seq<string>, f: string -> string, j: nat)
    requires j < |xs| && f(xs[j]) != ""
    ensures f(xs[j]) in MapNonEmpty(xs, f)
    decreases |xs|
  {
    var p := xs[..|xs| - 1];
    if j < |p| {
      assert p[j] == xs[j];
      MapNonEmptyCover(p, f, j);
    }
  }

  /** Mapping then filtering commutes with concatenation. */
  lemma {:induction false} MapNonEmptyConcat(a: seq<string>, b: seq<string>, f: string -> string)
    ensures MapNonEmpty(a + b, f) == MapNonEmpty(a, f) + MapNonEmpty(b, f)
    decreases |b|
  {
    if |b| == 0 {
      assert a + b == a;
    } else {
      var b' := b[..|b| - 1];
      assert (a + b)[..|a + b| - 1] == a + b';
      MapNonEmptyConcat(a, b', f);
    }
  }

  /** With every image blank, nothing is kept. */
  lemma {:induction false} MapNonEmptyBlank(xs: seq<string>, f: string -> string)
    requires forall j :: 0 <= j < |xs| ==> f(xs[j]) == ""
    ensures MapNonEmpty(xs, f) == []
    decreases |xs|
  {
    if |xs| > 0 {
      var p := xs[..|xs| - 1];
      assert forall j :: 0 <= j < |p| ==> p[j] == xs[j];
      MapNonEmptyBlank(p, f);
    }
  }

  /** `parts.map(s => s.trim()).filter(Boolean)`: the non-blank parts, trimmed,
      order kept. */
  function TrimmedNonEmpty(parts: seq<string>): seq<string> {
    MapNonEmpty(parts, Trim)
  }

  /** Every entry of `TrimmedNonEmpty(parts)` is non-empty and already trimmed. */
  lemma TrimmedNonEmptyTrimmed(parts: seq<string>, k: nat)
    requires k < |TrimmedNonEmpty(parts)|
    ensures TrimmedNonEmpty(parts)[k] != "" && Trim(TrimmedNonEmpty(parts)[k]) == TrimmedNonEmpty(parts)[k]
  {
    MapNonEmptyOrigin(parts, Trim, k);
    var j :| 0 <= j < |parts| && TrimmedNonEmpty(parts)[k] == Trim(parts[j]);
    TrimIdempotent(parts[j]);
  }

  /** `s.split(",").map(s => s.trim()).filter(Boolean)`: the comma-separated
      entries of `s`, trimmed, blank ones dropped. */
  function CommaList(s: string): (r: seq<string>)
    ensures forall k :: 0 <= k < |r| ==> r[k] != "" && Trim(r[k]) == r[k]
    ensures forall k :: 0 <= k < |r| ==> ',' !in r[k]
  {
    var parts := Split(s, ',');
    var r := TrimmedNonEmpty(parts);
    assert forall k :: 0 <= k < |r| ==> r[k] != "" && Trim(r[k]) == r[k] && ',' !in r[k] by {
      forall k | 0 <= k < |r|
        ensures r[k] != "" && Trim(r[k]) == r[k] && ',' !in r[k]
      {
        TrimmedNonEmptyTrimmed(parts, k);
        MapNonEmptyOrigin(parts, Trim, k);
        var j :| 0 <= j < |parts| && r[k] == Trim(parts[j]);
        TrimSlice(parts[j]);
      }
    }
    r
  }

  /** A character absent from `s` is absent from `s.trim()`. */
  lemma TrimSlice(s: string)
    ensures forall c :: c in Trim(s) ==> c in s
  {
    var r := Trim(s);
    var i, j := TrimIsSlice(s);
    assert forall k :: 0 <= k < |r| ==> r[k] == s[i + k];
  }
}
