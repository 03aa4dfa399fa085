/** Sorting byte strings the way Go's sort package orders them. */
module Sorting {
  import opened Bytes
  import opened Paths

  predicate LessEq(a: bytes, b: bytes) {
    a == b || Less(a, b)
  }

  lemma LessEqTransitive(a: bytes, b: bytes, c: bytes)
    requires LessEq(a, b) && LessEq(b, c)
    ensures LessEq(a, c)
  {
    if a != b && b != c { LessTransitive(a, b, c); }
  }

  lemma LessEqAntisymmetric(a: bytes, b: bytes)
    requires LessEq(a, b) && LessEq(b, a)
    ensures a == b
  {
    if a != b {
      LessTransitive(a, b, a);
      LessIrreflexive(a);
    }
  }

  predicate IsSorted(s: seq<bytes>) {
    forall i, j :: 0 <= i < j < |s| ==> LessEq(s[i], s[j])
  }

  function Insert(x: bytes, s: seq<bytes>): seq<bytes> {
    if s == [] || LessEq(x, s[0]) then [x] + s else [s[0]] + Insert(x, s[1..])
  }

  function Sort(s: seq<bytes>): seq<bytes> {
    if s == [] then [] else Insert(s[0], Sort(s[1..]))
  }

  lemma SortedCons(x: bytes, r: seq<bytes>)
    requires IsSorted(r) && forall j :: 0 <= j < |r| ==> LessEq(x, r[j])
    ensures IsSorted([x] + r)
  {
    hide LessEq;
  }

  lemma {:induction false} InsertCorrect(x: bytes, s: seq<bytes>)
    requires IsSorted(s)
    ensures IsSorted(Insert(x, s)) && multiset(Insert(x, s)) == multiset(s) + multiset{x}
  {
    if s == [] || LessEq(x, s[0]) {
      forall j | 0 <= j < |s| ensures LessEq(x, s[j]) {
        if j > 0 { LessEqTransitive(x, s[0], s[j]); }
      }
    } else {
      LessTotal(x, s[0]);
      InsertCorrect(x, s[1..]);
      var r := Insert(x, s[1..]);
      hide LessEq, Insert;
      assert s == [s[0]] + s[1..];
      forall j | 0 <= j < |r| ensures LessEq(s[0], r[j]) {
        assert r[j] in multiset(r);
        if r[j] != x {
          assert r[j] in s[1..];
        }
      }
      SortedCons(s[0], r);
    }
  }

  lemma {:induction false} SortCorrect(s: seq<bytes>)
    ensures IsSorted(Sort(s)) && multiset(Sort(s)) == multiset(s)
  {
    if s != [] {
      SortCorrect(s[1..]);
      InsertCorrect(s[0], Sort(s[1..]));
      assert s == [s[0]] + s[1..];
    }
  }

  lemma SortedHead(a: seq<bytes>, b: seq<bytes>)
    requires a != [] && b != [] && IsSorted(a) && multiset(a) == multiset(b)
    ensures LessEq(a[0], b[0])
  {
    hide Less;
    assert b[0] in multiset(a);
    var j :| 0 <= j < |a| && a[j] == b[0];
  }

  /** A sorted sequence is determined by its elements. */
  lemma {:induction false} SortedUnique(a: seq<bytes>, b: seq<bytes>)
    requires IsSorted(a) && IsSorted(b) && multiset(a) == multiset(b)
    ensures a == b
  {
    assert |a| == |multiset(a)| == |b|;
    if a != [] {
      hide LessEq;
      SortedHead(a, b);
      SortedHead(b, a);
      LessEqAntisymmetric(a[0], b[0]);
      assert a == [a[0]] + a[1..] && b == [b[0]] + b[1..];
      assert multiset(a[1..]) == multiset(a) - multiset{a[0]};
      assert multiset(b[1..]) == multiset(b) - multiset{b[0]};
      SortedUnique(a[1..], b[1..]);
    }
  }

  lemma SortInvariant(a: seq<bytes>, b: seq<bytes>)
    requires multiset(a) == multiset(b)
    ensures Sort(a) == Sort(b)
  {
    SortCorrect(a);
    SortCorrect(b);
    SortedUnique(Sort(a), Sort(b));
  }

  /**
   The names of a directory in listing order do not matter once sorted: this is the sorted sequence of a finite set.
   */
  ghost function Sorted(names: set<bytes>): (s: seq<bytes>)
    ensures IsSorted(s) && multiset(s) == multiset(names)
  {
    if names == {} then []
    else
      var x :| x in names;
      var rest := Sorted(names - {x});
      InsertCorrect(x, rest);
      assert multiset(names) == multiset(names - {x}) + multiset{x};
      Insert(x, rest)
  }

  lemma DistinctMembers(s: seq<bytes>, names: set<bytes>, i: nat, j: nat)
    requires multiset(s) == multiset(names) && i < j < |s|
    ensures s[i] != s[j]
  {
    var tail := s[i + 1..];
    assert s == s[..i] + ([s[i]] + tail);
    assert multiset(s) == multiset(s[..i]) + (multiset{s[i]} + multiset(tail));
    assert s[j] == tail[j - i - 1] && tail[j - i - 1] in multiset(tail);
    assert multiset(names)[s[i]] <= 1;
  }

  lemma SortedMembers(names: set<bytes>)
    ensures forall i :: 0 <= i < |Sorted(names)| ==> Sorted(names)[i] in names
    ensures forall n :: n in names ==> n in Sorted(names)
    ensures forall i, j :: 0 <= i < j < |Sorted(names)| ==> Sorted(names)[i] != Sorted(names)[j]
    ensures |Sorted(names)| == |names|
  {
    hide Sorted;
    var s := Sorted(names);
    assert |s| == |multiset(s)| == |multiset(names)|;
    forall i | 0 <= i < |s| ensures s[i] in names {
      assert s[i] in multiset(s);
    }
    forall n | n in names ensures n in s {
      assert n in multiset(names);
    }
    forall i, j | 0 <= i < j < |s| ensures s[i] != s[j] {
      DistinctMembers(s, names, i, j);
    }
  }
}
