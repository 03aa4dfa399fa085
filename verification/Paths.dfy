/** Slash-separated relative names, ASCII case folding and byte-wise string order. */
module Paths {
  import opened Bytes

  const SLASH: byte := 47
  const DOT: byte := 46

  function Ascii(s: string): (r: bytes)
    ensures |r| == |s|
  {
    seq(|s|, i requires 0 <= i < |s| => s[i] as int % 256)
  }

  lemma AsciiConcat(s: string, t: string)
    ensures Ascii(s + t) == Ascii(s) + Ascii(t)
  {
  }

  function IndexOf(s: bytes, sep: byte): (i: nat)
    requires sep in s
    ensures i < |s| && s[i] == sep && sep !in s[..i]
  {
    if s[0] == sep then 0 else 1 + IndexOf(s[1..], sep)
  }

  function Split(s: bytes, sep: byte): (parts: seq<bytes>)
    ensures |parts| >= 1
    ensures forall i :: 0 <= i < |parts| ==> sep !in parts[i]
    decreases |s|
  {
    if sep in s then
      var i := IndexOf(s, sep);
      [s[..i]] + Split(s[i + 1..], sep)
    else
      [s]
  }

  function Join(parts: seq<bytes>, sep: byte): bytes
    requires |parts| >= 1
  {
    if |parts| == 1 then parts[0] else parts[0] + [sep] + Join(parts[1..], sep)
  }

  lemma {:induction false} JoinSplit(s: bytes, sep: byte)
    ensures Join(Split(s, sep), sep) == s
    decreases |s|
  {
    if sep in s {
      var i := IndexOf(s, sep);
      JoinSplit(s[i + 1..], sep);
      var parts := Split(s, sep);
      assert parts[1..] == Split(s[i + 1..], sep);
      assert s == s[..i] + [sep] + s[i + 1..];
    }
  }

  lemma {:induction false} SplitJoin(parts: seq<bytes>, sep: byte)
    requires |parts| >= 1 && forall i :: 0 <= i < |parts| ==> sep !in parts[i]
    ensures Split(Join(parts, sep), sep) == parts
  {
    if |parts| == 1 {
      SplitWhole(parts[0], sep);
    } else {
      assert Join(parts, sep) == parts[0] + [sep] + Join(parts[1..], sep);
      hide Split, Join;
      SplitJoin(parts[1..], sep);
      SplitHead(parts[0], Join(parts[1..], sep), sep);
      assert parts == [parts[0]] + parts[1..];
    }
  }

  /** A text whose parts are not empty neither starts nor ends with the separator. */
  lemma {:induction false} EdgesOfParts(s: bytes, sep: byte)
    requires forall i :: 0 <= i < |Split(s, sep)| ==> Split(s, sep)[i] != []
    ensures s != [] && s[0] != sep && s[|s| - 1] != sep
    decreases |s|
  {
    var parts := Split(s, sep);
    if sep in s {
      var i := IndexOf(s, sep);
      var rest := Split(s[i + 1..], sep);
      assert parts[0] == s[..i];
      forall k | 0 <= k < |rest| ensures rest[k] != [] { assert parts[k + 1] == rest[k]; }
      EdgesOfParts(s[i + 1..], sep);
    } else {
      assert parts[0] == s;
    }
  }

  lemma SplitWhole(s: bytes, sep: byte)
    requires sep !in s
    ensures Split(s, sep) == [s]
  {
  }

  function SumLengths(parts: seq<bytes>): nat {
    if parts == [] then 0 else |parts[0]| + SumLengths(parts[1..])
  }

  lemma {:induction false} JoinLength(parts: seq<bytes>, sep: byte)
    requires |parts| >= 1
    ensures |Join(parts, sep)| == SumLengths(parts) + |parts| - 1
  {
    if |parts| > 1 { JoinLength(parts[1..], sep); }
  }

  lemma {:induction false} SumLengthsConcat(a: seq<bytes>, b: seq<bytes>)
    ensures SumLengths(a + b) == SumLengths(a) + SumLengths(b)
  {
    if a == [] {
      assert a + b == b;
    } else {
      SumLengthsConcat(a[1..], b);
      assert (a + b)[1..] == a[1..] + b;
    }
  }

  lemma SplitHead(a: bytes, b: bytes, sep: byte)
    requires sep !in a
    ensures Split(a + [sep] + b, sep) == [a] + Split(b, sep)
  {
    var s := a + [sep] + b;
    assert s[|a|] == sep;
    var i := IndexOf(s, sep);
    assert forall j | 0 <= j < |a| :: s[j] == a[j];
    assert forall j | 0 <= j < i :: s[j] == s[..i][j];
    assert i == |a|;
    assert s[..i] == a && s[i + 1..] == b;
  }

  lemma {:induction false} SplitConcat(a: bytes, b: bytes, sep: byte)
    ensures Split(a + [sep] + b, sep) == Split(a, sep) + Split(b, sep)
    decreases |a|
  {
    if sep in a {
      var i := IndexOf(a, sep);
      var rest := a[i + 1..];
      calc {
        Split(a + [sep] + b, sep);
        { assert a + [sep] + b == a[..i] + [sep] + (rest + [sep] + b); }
        Split(a[..i] + [sep] + (rest + [sep] + b), sep);
        { SplitHead(a[..i], rest + [sep] + b, sep); }
        [a[..i]] + Split(rest + [sep] + b, sep);
        { SplitConcat(rest, b, sep); }
        [a[..i]] + (Split(rest, sep) + Split(b, sep));
        Split(a, sep) + Split(b, sep);
      }
    } else {
      SplitHead(a, b, sep);
    }
  }

  /** The directory part of a clean relative name: None stands for ".". */
  function Parent(name: bytes): (r: Option<bytes>)
    ensures r.None? <==> SLASH !in name
    ensures r.Some? ==> |r.value| < |name| && name[|r.value|] == SLASH && r.value == name[..|r.value|]
    ensures r.Some? ==> SLASH !in name[|r.value| + 1..]
  {
    if name == [] then None
    else if name[|name| - 1] == SLASH then
      assert name[|name| - 1..] == [SLASH];
      Some(name[..|name| - 1])
    else
      var r := Parent(name[..|name| - 1]);
      assert name == name[..|name| - 1] + [name[|name| - 1]];
      assert r.Some? ==> name[|r.value| + 1..] == name[..|name| - 1][|r.value| + 1..] + [name[|name| - 1]];
      r
  }

  lemma LastSlashUnique(name: bytes, i: nat, j: nat)
    requires i < |name| && name[i] == SLASH && SLASH !in name[i + 1..]
    requires j < |name| && name[j] == SLASH && SLASH !in name[j + 1..]
    ensures i == j
  {
  }

  lemma ParentOfChild(dir: bytes, component: bytes)
    requires SLASH !in component
    ensures Parent(dir + [SLASH] + component) == Some(dir)
  {
    var name := dir + [SLASH] + component;
    assert name[|dir|] == SLASH && name[|dir| + 1..] == component && name[..|dir|] == dir;
    LastSlashUnique(name, |dir|, |Parent(name).value|);
  }

  function LowerByte(c: byte): byte {
    if 65 <= c <= 90 then c + 32 else c
  }

  function Lower(s: bytes): (r: bytes)
    ensures |r| == |s|
  {
    seq(|s|, i requires 0 <= i < |s| => LowerByte(s[i]))
  }

  /** The same ASCII letter in either case, or the same byte. */
  predicate SameLetter(x: byte, y: byte) {
    x == y || (65 <= x <= 90 && y == x + 32) || (65 <= y <= 90 && x == y + 32)
  }

  /** Two names that differ at most in the case of ASCII letters. */
  predicate SameButCase(a: bytes, b: bytes) {
    |a| == |b| && forall i :: 0 <= i < |a| ==> SameLetter(a[i], b[i])
  }

  lemma SameButCaseSymmetric(a: bytes, b: bytes)
    requires SameButCase(a, b)
    ensures SameButCase(b, a)
  {
  }

  /** Folding identifies exactly the names that differ in letter case. */
  lemma LowerExactly(a: bytes, b: bytes)
    ensures Lower(a) == Lower(b) <==> SameButCase(a, b)
  {
    if Lower(a) == Lower(b) {
      forall i | 0 <= i < |a| ensures SameLetter(a[i], b[i]) { assert Lower(a)[i] == Lower(b)[i]; }
    }
  }

  predicate Alphanumeric(c: byte) {
    97 <= c <= 122 || 65 <= c <= 90 || 48 <= c <= 57
  }

  /** Letters, digits, dot, underscore and hyphen. */
  predicate SafeByte(c: byte) {
    Alphanumeric(c) || c == DOT || c == 95 || c == 45
  }

  /** The order Go uses for strings: byte-wise, a proper prefix first. */
  predicate Less(a: bytes, b: bytes) {
    b != [] && (a == [] || a[0] < b[0] || (a[0] == b[0] && Less(a[1..], b[1..])))
  }

  /** At the first difference the smaller byte comes first, and the end of a name before any byte. */
  lemma {:induction false} LessExactly(a: bytes, b: bytes)
    ensures Less(a, b) <==> exists k :: DiffersAt(a, b, k)
    decreases |a|
  {
    if a == [] {
      assert b != [] ==> DiffersAt(a, b, 0);
    } else if b != [] && a[0] == b[0] {
      LessExactly(a[1..], b[1..]);
      if k :| DiffersAt(a[1..], b[1..], k) { assert DiffersAt(a, b, k + 1); }
      if k :| DiffersAt(a, b, k) { assert DiffersAt(a[1..], b[1..], k - 1); }
    } else if b != [] {
      assert a[0] < b[0] ==> DiffersAt(a, b, 0);
      if k :| DiffersAt(a, b, k) { assert k == 0; }
    }
  }

  /** The names agree before position k, where a ends or has the smaller byte. */
  predicate DiffersAt(a: bytes, b: bytes, k: int) {
    && 0 <= k <= |a| && k < |b|
    && (forall i :: 0 <= i < k ==> a[i] == b[i])
    && (k == |a| || a[k] < b[k])
  }

  lemma {:induction false} LessTotal(a: bytes, b: bytes)
    ensures Less(a, b) || a == b || Less(b, a)
    decreases |a|
  {
    if a != [] && b != [] && a[0] == b[0] {
      LessTotal(a[1..], b[1..]);
      assert a == [a[0]] + a[1..] && b == [b[0]] + b[1..];
    }
  }

  lemma {:induction false} LessTransitive(a: bytes, b: bytes, c: bytes)
    requires Less(a, b) && Less(b, c)
    ensures Less(a, c)
    decreases |a|
  {
    if a != [] && a[0] == b[0] && b[0] == c[0] {
      LessTransitive(a[1..], b[1..], c[1..]);
    }
  }

  lemma {:induction false} LessIrreflexive(a: bytes)
    ensures !Less(a, a)
  {
    if a != [] { LessIrreflexive(a[1..]); }
  }

  lemma {:induction false} PrefixLess(a: bytes, b: bytes)
    requires HasPrefix(b, a) && |a| < |b|
    ensures Less(a, b)
    decreases |a|
  {
    if a != [] {
      assert b[0] == b[..|a|][0];
      assert b[1..][..|a[1..]|] == b[..|a|][1..];
      PrefixLess(a[1..], b[1..]);
    }
  }
}
