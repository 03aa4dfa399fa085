/** Import selections: literal exclusions in canonical form. */
module ImportSelection {
  import opened Bytes
  import opened Paths
  import opened Sorting

  const MAX_EXCLUSIONS: nat := 32
  const MAX_SELECTION_BYTES: nat := 16384
  const MAX_DEPTH: nat := 8
  const MAX_PATH_BYTES: nat := 255
  const MAX_COMPONENT: nat := 63
  const QUOTE: byte := 34

  datatype Selection = Selection(excludes: seq<bytes>, digest: bytes)

  predicate ValidExclusionComponent(c: bytes) {
    && c != [] && c != [DOT] && c != [DOT, DOT] && |c| <= MAX_COMPONENT
    && forall i :: 0 <= i < |c| ==> SafeByte(c[i])
  }

  /** A clean relative name of at most nine safe components. */
  predicate ValidExclusion(name: bytes) {
    && 0 < |name| <= MAX_PATH_BYTES
    && |Split(name, SLASH)| <= MAX_DEPTH + 1
    && forall i :: 0 <= i < |Split(name, SLASH)| ==> ValidExclusionComponent(Split(name, SLASH)[i])
  }

  predicate Overlaps(name: bytes, prior: bytes) {
    name == prior || HasPrefix(name, prior + [SLASH])
  }

  /** The check the code makes: each name against its sorted predecessors only. */
  predicate ClearOfPredecessors(s: seq<bytes>) {
    forall i, j :: 0 <= j < i < |s| ==> !Overlaps(s[i], s[j])
  }

  /** No two exclusions are equal and none lies below another. */
  predicate Antichain(s: seq<bytes>) {
    forall i, j :: 0 <= i < |s| && 0 <= j < |s| && i != j ==> s[i] != s[j] && !HasPrefix(s[i], s[j] + [47])
  }

  function Normalize(input: Selection): Option<Selection> {
    var s := Sort(input.excludes);
    if |input.excludes| > MAX_EXCLUSIONS || (input.digest != [] && !HexDigest(input.digest)) then None
    else if (exists i :: 0 <= i < |s| && !ValidExclusion(s[i])) || !ClearOfPredecessors(s) then None
    else Some(Selection(s, input.digest))
  }

  /** One to 63 letters, digits, dots, underscores and hyphens, but not one dot or two. */
  predicate LiteralPart(c: bytes) {
    && 1 <= |c| <= 63 && c != [46] && c != [46, 46]
    && forall i :: 0 <= i < |c| ==>
         48 <= c[i] <= 57 || 65 <= c[i] <= 90 || 97 <= c[i] <= 122 || c[i] == 45 || c[i] == 46 || c[i] == 95
  }

  /** At most 255 bytes and nine literal parts. */
  predicate LiteralPath(name: bytes) {
    && 1 <= |name| <= 255 && |Split(name, 47)| <= 9
    && forall i :: 0 <= i < |Split(name, 47)| ==> LiteralPart(Split(name, 47)[i])
  }

  lemma ValidExclusionExactly(name: bytes)
    ensures ValidExclusion(name) <==> LiteralPath(name)
  {
    forall c ensures ValidExclusionComponent(c) <==> LiteralPart(c) { }
  }

  /** A selection the code is meant to accept: at most 32 literal paths, none at or below another, and no digest or 64 digits. */
  predicate Acceptable(input: Selection) {
    && |input.excludes| <= 32
    && (input.digest == [] ||
        (|input.digest| == 64 && forall i :: 0 <= i < 64 ==> 48 <= input.digest[i] <= 57 || 97 <= input.digest[i] <= 102))
    && (forall i :: 0 <= i < |input.excludes| ==> LiteralPath(input.excludes[i]))
    && Antichain(input.excludes)
  }

  lemma OverlapOrder(a: bytes, b: bytes)
    requires Overlaps(a, b)
    ensures LessEq(b, a)
  {
    if a != b {
      assert HasPrefix(a, b) by {
        assert a[..|b| + 1] == b + [SLASH];
        assert a[..|b|] == a[..|b| + 1][..|b|];
      }
      PrefixLess(b, a);
    }
  }

  /** Checking sorted predecessors is enough, because a name sorts before everything below it. */
  lemma PredecessorsSuffice(s: seq<bytes>)
    requires IsSorted(s)
    ensures ClearOfPredecessors(s) <==> Antichain(s)
  {
    if ClearOfPredecessors(s) {
      forall i, j | 0 <= i < j < |s| ensures !Overlaps(s[i], s[j]) {
        if Overlaps(s[i], s[j]) {
          OverlapOrder(s[i], s[j]);
          LessEqAntisymmetric(s[i], s[j]);
        }
      }
    }
  }

  /** Being an antichain depends only on the elements. */
  lemma {:induction false} AntichainPermutation(a: seq<bytes>, b: seq<bytes>)
    requires multiset(a) == multiset(b) && Antichain(a)
    ensures Antichain(b)
  {
    forall i, j | 0 <= i < |b| && 0 <= j < |b| && i != j ensures !Overlaps(b[i], b[j]) {
      PairIn(a, b, i, j);
    }
  }

  function Without(s: seq<bytes>, k: nat): seq<bytes>
    requires k < |s|
  {
    s[..k] + s[k + 1..]
  }

  lemma WithoutMembers(s: seq<bytes>, k: nat)
    requires k < |s|
    ensures multiset(Without(s, k)) == multiset(s) - multiset{s[k]}
    ensures forall i :: 0 <= i < |Without(s, k)| ==> Without(s, k)[i] == s[if i < k then i else i + 1]
    ensures forall i :: 0 <= i < |s| && i != k ==> s[i] in Without(s, k)
  {
    assert s == s[..k] + [s[k]] + s[k + 1..];
    forall i | 0 <= i < |s| && i != k ensures s[i] in Without(s, k) {
      assert s[i] == Without(s, k)[if i < k then i else i - 1];
    }
  }

  /** Two positions of b carry values found at two different positions of a. */
  lemma PairIn(a: seq<bytes>, b: seq<bytes>, i: nat, j: nat)
    requires multiset(a) == multiset(b) && i < |b| && j < |b| && i != j
    ensures exists p, q :: 0 <= p < |a| && 0 <= q < |a| && p != q && a[p] == b[i] && a[q] == b[j]
  {
    hide Without;
    assert b[i] in multiset(a);
    var p :| 0 <= p < |a| && a[p] == b[i];
    WithoutMembers(a, p);
    WithoutMembers(b, i);
    var ra := Without(a, p);
    assert multiset(ra) == multiset(Without(b, i));
    assert b[j] in multiset(Without(b, i));
    var q :| 0 <= q < |ra| && ra[q] == b[j];
    var q' := if q < p then q else q + 1;
    assert a[q'] == b[j] && p != q';
  }

  lemma ValidPermutation(a: seq<bytes>, b: seq<bytes>)
    requires multiset(a) == multiset(b)
    requires forall i :: 0 <= i < |a| ==> ValidExclusion(a[i])
    ensures forall i :: 0 <= i < |b| ==> ValidExclusion(b[i])
  {
    forall i | 0 <= i < |b| ensures ValidExclusion(b[i]) {
      assert b[i] in multiset(a);
    }
  }

  /** The code accepts exactly the acceptable selections, and its result is the sorted one. */
  lemma NormalizeExactly(input: Selection)
    ensures Normalize(input).Some? <==> Acceptable(input)
    ensures Normalize(input).Some? ==>
              var n := Normalize(input).value;
              n.digest == input.digest && IsSorted(n.excludes) && multiset(n.excludes) == multiset(input.excludes)
  {
    hide ValidExclusion, LiteralPath;
    var s := Sort(input.excludes);
    SortCorrect(input.excludes);
    PredecessorsSuffice(s);
    forall i | 0 <= i < |input.excludes| ensures ValidExclusion(input.excludes[i]) <==> LiteralPath(input.excludes[i]) {
      ValidExclusionExactly(input.excludes[i]);
    }
    if Normalize(input).Some? {
      ValidPermutation(s, input.excludes);
      AntichainPermutation(s, input.excludes);
    }
    if Acceptable(input) {
      ValidPermutation(input.excludes, s);
      AntichainPermutation(input.excludes, s);
    }
  }

  /** The canonical form does not depend on the order in which exclusions were given. */
  lemma NormalizeInvariant(a: Selection, b: Selection)
    requires a.digest == b.digest && multiset(a.excludes) == multiset(b.excludes)
    ensures Normalize(a) == Normalize(b)
  {
    SortInvariant(a.excludes, b.excludes);
    assert |a.excludes| == |multiset(a.excludes)| == |b.excludes|;
  }

  // ---- the canonical encoding ----

  lemma JoinCons(a: bytes, rest: seq<bytes>)
    requires rest != []
    ensures Join([a] + rest, QUOTE) == a + ([QUOTE] + Join(rest, QUOTE))
  {
    assert ([a] + rest)[1..] == rest;
  }

  /** The end of the text: the expected digest between its quotes (byte 34). */
  function TailText(digest: bytes): bytes {
    Ascii("expected_digest") + ([34] + (Ascii(":") + ([34] + (digest + ([34] + Ascii("}"))))))
  }

  function TailParts(digest: bytes): seq<bytes> {
    [Ascii("expected_digest"), Ascii(":"), digest, Ascii("}")]
  }

  lemma TailIsText(digest: bytes)
    ensures Join(TailParts(digest), QUOTE) == TailText(digest)
  {
    hide Ascii;
    var last: seq<bytes> := [Ascii("}")];
    JoinCons(digest, last);
    JoinCons(Ascii(":"), [digest] + last);
    JoinCons(Ascii("expected_digest"), [Ascii(":")] + ([digest] + last));
    assert TailParts(digest) == [Ascii("expected_digest")] + ([Ascii(":")] + ([digest] + last));
  }

  /** The text without exclusions: {"excludes":[],"expected_digest":"..."}. */
  lemma EmptyText(digest: bytes)
    ensures Encode(Selection([], digest)) ==
            Ascii("{") + ([34] + (Ascii("excludes") + ([34] + (Ascii(":[],") + ([34] + TailText(digest))))))
  {
    hide Ascii, TailText;
    TailIsText(digest);
    var tail := TailParts(digest);
    var c := [Ascii(":[],")] + tail;
    var b := [Ascii("excludes")] + c;
    assert Parts(Selection([], digest)) == [Ascii("{")] + b;
    JoinCons(Ascii(":[],"), tail);
    JoinCons(Ascii("excludes"), c);
    JoinCons(Ascii("{"), b);
  }

  /** The text with one exclusion: {"excludes":["name"],"expected_digest":"..."}. */
  lemma OneText(name: bytes, digest: bytes)
    ensures Encode(Selection([name], digest)) ==
            Ascii("{") + ([34] + (Ascii("excludes") + ([34] + (Ascii(":[") + ([34] +
            (name + ([34] + (Ascii("],") + ([34] + TailText(digest))))))))))
  {
    hide Ascii, TailText;
    TailIsText(digest);
    var tail := TailParts(digest);
    var e := [Ascii("],")] + tail;
    var d := [name] + e;
    var c := [Ascii(":[")] + d;
    var b := [Ascii("excludes")] + c;
    assert Parts(Selection([name], digest)) == [Ascii("{")] + b;
    hide Join;
    JoinCons(Ascii("],"), tail);
    JoinCons(name, e);
    JoinCons(Ascii(":["), d);
    JoinCons(Ascii("excludes"), c);
    JoinCons(Ascii("{"), b);
  }

  /** The exclusion array between its quotes: names with commas between them. */
  function Body(excludes: seq<bytes>): (r: seq<bytes>)
    requires excludes != []
    ensures |r| == 2 * |excludes| - 1
    ensures forall i :: 0 <= i < |excludes| ==> r[2 * i] == excludes[i]
  {
    if |excludes| == 1 then excludes else [excludes[0], Ascii(",")] + Body(excludes[1..])
  }

  function ListParts(excludes: seq<bytes>): seq<bytes> {
    if excludes == [] then [Ascii(":[],")] else [Ascii(":[")] + Body(excludes) + [Ascii("],")]
  }

  /** The JSON text of a selection, cut at its double quotes. */
  function Parts(s: Selection): seq<bytes> {
    [Ascii("{"), Ascii("excludes")] + ListParts(s.excludes) + [Ascii("expected_digest"), Ascii(":"), s.digest, Ascii("}")]
  }

  function Encode(s: Selection): bytes {
    Join(Parts(s), QUOTE)
  }

  /** What json.Unmarshal reads back from such a text. */
  function Unmarshal(raw: bytes): Option<Selection> {
    var parts := Split(raw, QUOTE);
    if |parts| < 7 || |parts| % 2 == 0 then None
    else Some(Selection(seq((|parts| - 7) / 2, i requires 0 <= i < (|parts| - 7) / 2 => parts[3 + 2 * i]), parts[|parts| - 2]))
  }

  function Canonical(input: Selection): Option<bytes> {
    var n := Normalize(input);
    if n.None? || |Encode(n.value)| > MAX_SELECTION_BYTES then None else Some(Encode(n.value))
  }

  function Parse(encoded: bytes): Option<Selection> {
    if encoded == [] then Some(Selection([], []))
    else if |encoded| > MAX_SELECTION_BYTES then None
    else
      var s := Unmarshal(encoded);
      if s.None? || Canonical(s.value) != Some(encoded) then None else Normalize(s.value)
  }

  lemma PartsShape(s: Selection)
    ensures |Parts(s)| == 2 * |s.excludes| + 7
    ensures forall i :: 0 <= i < |s.excludes| ==> Parts(s)[3 + 2 * i] == s.excludes[i]
    ensures Parts(s)[|Parts(s)| - 2] == s.digest
  {
    var list := ListParts(s.excludes);
    if s.excludes != [] {
      var body := Body(s.excludes);
      forall i | 0 <= i < |s.excludes| ensures Parts(s)[3 + 2 * i] == s.excludes[i] {
        assert list[1 + 2 * i] == body[2 * i];
        assert Parts(s)[2 + (1 + 2 * i)] == list[1 + 2 * i];
      }
    }
  }

  lemma QuoteFree(c: bytes)
    requires forall i :: 0 <= i < |c| ==> SafeByte(c[i]) || c[i] == SLASH
    ensures QUOTE !in c
  {
  }

  lemma {:induction false} JoinSafe(parts: seq<bytes>)
    requires |parts| >= 1 && forall i :: 0 <= i < |parts| ==> ValidExclusionComponent(parts[i])
    ensures forall k :: 0 <= k < |Join(parts, SLASH)| ==>
        SafeByte(Join(parts, SLASH)[k]) || Join(parts, SLASH)[k] == SLASH
  {
    if |parts| > 1 {
      JoinSafe(parts[1..]);
      assert ValidExclusionComponent(parts[0]);
    } else {
      assert ValidExclusionComponent(parts[0]);
    }
  }

  lemma ExclusionQuoteFree(name: bytes)
    requires ValidExclusion(name)
    ensures QUOTE !in name
  {
    JoinSplit(name, SLASH);
    JoinSafe(Split(name, SLASH));
    QuoteFree(name);
  }

  predicate QuoteFreeAll(parts: seq<bytes>) {
    forall i :: 0 <= i < |parts| ==> QUOTE !in parts[i]
  }

  lemma {:induction false} BodyQuoteFree(excludes: seq<bytes>)
    requires excludes != [] && QuoteFreeAll(excludes)
    ensures QuoteFreeAll(Body(excludes))
  {
    if |excludes| > 1 {
      BodyQuoteFree(excludes[1..]);
      assert QUOTE !in excludes[0];
    }
  }

  lemma PartsQuoteFree(s: Selection)
    requires QuoteFreeAll(s.excludes) && QUOTE !in s.digest
    ensures QuoteFreeAll(Parts(s))
  {
    assert QuoteFreeAll(ListParts(s.excludes)) by {
      if s.excludes != [] { BodyQuoteFree(s.excludes); }
    }
  }

  lemma UnmarshalEncode(s: Selection)
    requires QuoteFreeAll(s.excludes) && QUOTE !in s.digest
    ensures Unmarshal(Encode(s)) == Some(s)
  {
    hide Parts, Split, Join;
    PartsQuoteFree(s);
    PartsShape(s);
    SplitJoin(Parts(s), QUOTE);
    assert Unmarshal(Encode(s)).value.excludes == s.excludes;
  }

  lemma {:induction false} BodyLength(excludes: seq<bytes>)
    requires excludes != [] && forall i :: 0 <= i < |excludes| ==> |excludes[i]| <= MAX_PATH_BYTES
    ensures SumLengths(Body(excludes)) <= (MAX_PATH_BYTES + 1) * |excludes|
  {
    if |excludes| == 1 {
      assert SumLengths(excludes) == |excludes[0]|;
    } else {
      BodyLength(excludes[1..]);
      SumLengthsConcat([excludes[0], Ascii(",")], Body(excludes[1..]));
      assert SumLengths([excludes[0], Ascii(",")]) == |excludes[0]| + 1;
    }
  }

  /** The 16 KiB bound on the encoding is never what refuses a selection. */
  lemma EncodingFits(s: Selection)
    requires |s.excludes| <= MAX_EXCLUSIONS && |s.digest| <= 64
    requires forall i :: 0 <= i < |s.excludes| ==> |s.excludes[i]| <= MAX_PATH_BYTES
    ensures |Encode(s)| <= MAX_SELECTION_BYTES
  {
    var list := ListParts(s.excludes);
    var head, tail := [Ascii("{"), Ascii("excludes")], [Ascii("expected_digest"), Ascii(":"), s.digest, Ascii("}")];
    JoinLength(Parts(s), QUOTE);
    PartsShape(s);
    SumLengthsConcat(head + list, tail);
    SumLengthsConcat(head, list);
    assert SumLengths(head) == 9;
    assert tail[3..] == [Ascii("}")] && SumLengths(tail[3..]) == 1;
    assert tail[2..][1..] == tail[3..] && SumLengths(tail[2..]) == |s.digest| + 1;
    assert tail[1..][1..] == tail[2..] && SumLengths(tail[1..]) == |s.digest| + 2;
    if s.excludes != [] {
      BodyLength(s.excludes);
      SumLengthsConcat([Ascii(":[")] + Body(s.excludes), [Ascii("],")]);
      SumLengthsConcat([Ascii(":[")], Body(s.excludes));
      assert SumLengths([Ascii(":[")]) == 2 && SumLengths([Ascii("],")]) == 2;
    } else {
      assert SumLengths([Ascii(":[],")]) == 4;
    }
  }

  lemma DigestQuoteFree(d: bytes)
    requires d == [] || HexDigest(d)
    ensures QUOTE !in d
  {
  }

  lemma NormalizedFacts(input: Selection)
    requires Normalize(input).Some?
    ensures var n := Normalize(input).value;
            && QuoteFreeAll(n.excludes) && QUOTE !in n.digest && |Encode(n)| <= MAX_SELECTION_BYTES
            && Normalize(n) == Some(n)
  {
    var n := Normalize(input).value;
    NormalizeExactly(input);
    DigestQuoteFree(n.digest);
    forall i | 0 <= i < |input.excludes| ensures ValidExclusion(input.excludes[i]) {
      ValidExclusionExactly(input.excludes[i]);
    }
    ValidPermutation(input.excludes, n.excludes);
    assert |n.excludes| == |multiset(n.excludes)| == |input.excludes|;
    forall i | 0 <= i < |n.excludes| ensures QUOTE !in n.excludes[i] && |n.excludes[i]| <= MAX_PATH_BYTES {
      ExclusionQuoteFree(n.excludes[i]);
    }
    EncodingFits(n);
    NormalizeInvariant(n, input);
  }

  /** Every acceptable selection has a canonical text, and parsing that text gives back its normal form. */
  lemma ParseInvertsCanonical(input: Selection)
    requires Acceptable(input)
    ensures Canonical(input).Some? && Parse(Canonical(input).value) == Normalize(input)
  {
    hide Parts, Split, Join, ListParts, Acceptable, ValidExclusion, Antichain;
    NormalizeExactly(input);
    NormalizedFacts(input);
    var n := Normalize(input).value;
    UnmarshalEncode(n);
    PartsShape(n);
    JoinLength(Parts(n), QUOTE);
  }

  /** Two accepted texts that parse alike are the same text. */
  lemma CanonicalTextUnique(a: bytes, b: bytes)
    requires a != [] && b != [] && Parse(a).Some? && Parse(a) == Parse(b)
    ensures a == b
  {
  }
}
