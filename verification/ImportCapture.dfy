/**
 The bounded walk that freezes a source directory, the selection that prunes
 it and the manifest that names its bytes.
 */
module ImportCapture {
  import opened Bytes
  import opened Paths
  import opened Sorting
  import opened ImportSelection

  const MAX_FILES: nat := 4096
  const MAX_DIRECTORIES: nat := 2048
  const MAX_FILE_BYTES: nat := 0x400_0000
  const MAX_TOTAL_BYTES: nat := 0x1000_0000
  const MAX_MANIFEST_BYTES: nat := 0x40_0000
  const MANIFEST_NAME: bytes := Ascii(".boxwarden-import-manifest.json")

  /** A source object; admitted stands for the ownership, link and mode checks. Special covers links and devices. */
  datatype Node = File(data: bytes, admitted: bool) | Dir(children: map<bytes, Node>, admitted: bool) | Special

  datatype Object = DirObject(name: bytes) | FileObject(name: bytes, data: bytes)

  datatype Snap = Snap(objects: seq<Object>, files: nat, dirs: nat, total: nat, matched: set<bytes>)

  const EMPTY: Snap := Snap([], 0, 0, 0, {})

  predicate ValidComponent(c: bytes) {
    && 0 < |c| <= MAX_COMPONENT && c != [DOT] && c != [DOT, DOT] && c != Ascii(".git")
    && Alphanumeric(c[0])
    && forall i :: 0 <= i < |c| ==> SafeByte(c[i])
  }

  /** The relative name of an entry; None is the root. */
  function Child(rel: Option<bytes>, component: bytes): bytes {
    if rel.None? then component else rel.value + [SLASH] + component
  }

  predicate Admitted(node: Node) {
    !node.Special? && node.admitted
  }

  // ---- the walk ----

  ghost function CaptureDirectory(ex: set<bytes>, rel: Option<bytes>, node: Node, depth: nat, st: Snap): Option<Snap>
    requires node.Dir?
    decreases node, 1, 0
  {
    if depth > MAX_DEPTH || |node.children| > MAX_FILES + MAX_DIRECTORIES + |ex| then None
    else
      SortedMembers(node.children.Keys);
      CaptureList(ex, rel, node, Sorted(node.children.Keys), depth, st)
  }

  ghost function CaptureList(ex: set<bytes>, rel: Option<bytes>, node: Node, names: seq<bytes>, depth: nat,
        st: Snap): Option<Snap>
    requires node.Dir? && forall i :: 0 <= i < |names| ==> names[i] in node.children
    decreases node, 0, |names|
  {
    if names == [] then Some(st)
    else
      var next := CaptureEntry(ex, rel, names[0], node.children[names[0]], depth, st);
      if next.None? then None else CaptureList(ex, rel, node, names[1..], depth, next.value)
  }

  ghost function CaptureEntry(ex: set<bytes>, rel: Option<bytes>, component: bytes, node: Node, depth: nat,
        st: Snap): Option<Snap>
    decreases node, 2, 0
  {
    var child := Child(rel, component);
    if child in ex then Some(st.(matched := st.matched + {child}))
    else if !ValidComponent(component) || component == MANIFEST_NAME || |child| > MAX_PATH_BYTES || !Admitted(node) then None
    else if node.Dir? then
      if depth == MAX_DEPTH || st.dirs >= MAX_DIRECTORIES then None
      else CaptureDirectory(ex, Some(child), node, depth + 1, AddDir(st, child))
    else if st.files >= MAX_FILES || |node.data| > MAX_FILE_BYTES || st.total > MAX_TOTAL_BYTES - |node.data| then None
    else Some(AddFile(st, child, node.data))
  }

  function AddDir(st: Snap, name: bytes): Snap {
    st.(objects := st.objects + [DirObject(name)], dirs := st.dirs + 1)
  }

  function AddFile(st: Snap, name: bytes, data: bytes): Snap {
    st.(objects := st.objects + [FileObject(name, data)], files := st.files + 1, total := st.total + |data|)
  }

  ghost function Capture(ex: set<bytes>, root: Node): Option<Snap>
    requires root.Dir?
  {
    CaptureDirectory(ex, None, root, 0, EMPTY)
  }

  // ---- the declarative reading: the unbounded sorted listing and the rules it must meet ----

  /** An entry met on the walk, without its children; depth is that of the directory holding it. */
  datatype Found = Found(component: bytes, name: bytes, depth: nat, node: Node)

  function Bare(node: Node): Node {
    if node.Dir? then Dir(map[], node.admitted) else node
  }

  ghost function Listing(ex: set<bytes>, rel: Option<bytes>, node: Node, depth: nat): seq<Found>
    decreases node, 1, 0
  {
    if node.Dir? then
      SortedMembers(node.children.Keys);
      ListingOf(ex, rel, node, Sorted(node.children.Keys), depth)
    else []
  }

  ghost function ListingOf(ex: set<bytes>, rel: Option<bytes>, node: Node, names: seq<bytes>, depth: nat): seq<Found>
    requires node.Dir? && forall i :: 0 <= i < |names| ==> names[i] in node.children
    decreases node, 0, |names|
  {
    if names == [] then []
    else EntryListing(ex, rel, names[0], node.children[names[0]], depth) + ListingOf(ex, rel, node, names[1..], depth)
  }

  ghost function EntryListing(ex: set<bytes>, rel: Option<bytes>, component: bytes, node: Node, depth: nat): seq<Found>
    decreases node, 2, 0
  {
    var child := Child(rel, component);
    if child in ex then [] else [Found(component, child, depth, Bare(node))] + Listing(ex, Some(child), node, depth + 1)
  }

  predicate FoundOk(f: Found) {
    && ValidComponent(f.component) && f.component != MANIFEST_NAME && |f.name| <= MAX_PATH_BYTES && Admitted(f.node)
    && (f.node.Dir? ==> f.depth < MAX_DEPTH)
    && (f.node.File? ==> |f.node.data| <= MAX_FILE_BYTES)
  }

  predicate AllOk(found: seq<Found>) {
    forall i :: 0 <= i < |found| ==> FoundOk(found[i])
  }

  function Files(found: seq<Found>): nat {
    if found == [] then 0 else (if found[0].node.File? then 1 else 0) + Files(found[1..])
  }

  function Dirs(found: seq<Found>): nat {
    if found == [] then 0 else (if found[0].node.Dir? then 1 else 0) + Dirs(found[1..])
  }

  function Total(found: seq<Found>): nat {
    if found == [] then 0 else (if found[0].node.File? then |found[0].node.data| else 0) + Total(found[1..])
  }

  function ObjectOf(f: Found): Object {
    if f.node.File? then FileObject(f.name, f.node.data) else DirObject(f.name)
  }

  function Objects(found: seq<Found>): seq<Object> {
    seq(|found|, i requires 0 <= i < |found| => ObjectOf(found[i]))
  }

  predicate Within(st: Snap) {
    st.files <= MAX_FILES && st.dirs <= MAX_DIRECTORIES && st.total <= MAX_TOTAL_BYTES
  }

  /** Every entry is acceptable and the counters stay within their limits. */
  predicate Fits(st: Snap, found: seq<Found>) {
    && AllOk(found)
    && st.files + Files(found) <= MAX_FILES
    && st.dirs + Dirs(found) <= MAX_DIRECTORIES
    && st.total + Total(found) <= MAX_TOTAL_BYTES
  }

  function Extend(st: Snap, found: seq<Found>, hits: set<bytes>): Snap {
    Snap(st.objects + Objects(found), st.files + Files(found), st.dirs + Dirs(found), st.total + Total(found), st.matched + hits)
  }

  /** The exclusions met on the walk. */
  ghost function Hits(ex: set<bytes>, rel: Option<bytes>, node: Node): set<bytes>
    decreases node, 1, 0
  {
    if node.Dir? then
      SortedMembers(node.children.Keys);
      HitsOf(ex, rel, node, Sorted(node.children.Keys))
    else {}
  }

  ghost function HitsOf(ex: set<bytes>, rel: Option<bytes>, node: Node, names: seq<bytes>): set<bytes>
    requires node.Dir? && forall i :: 0 <= i < |names| ==> names[i] in node.children
    decreases node, 0, |names|
  {
    if names == [] then {}
    else EntryHits(ex, rel, names[0], node.children[names[0]]) + HitsOf(ex, rel, node, names[1..])
  }

  ghost function EntryHits(ex: set<bytes>, rel: Option<bytes>, component: bytes, node: Node): set<bytes>
    decreases node, 2, 0
  {
    var child := Child(rel, component);
    if child in ex then {child} else Hits(ex, Some(child), node)
  }

  // ---- the walk computes the listing ----

  lemma {:induction false} CountsConcat(a: seq<Found>, b: seq<Found>)
    ensures Files(a + b) == Files(a) + Files(b)
    ensures Dirs(a + b) == Dirs(a) + Dirs(b)
    ensures Total(a + b) == Total(a) + Total(b)
  {
    if a == [] {
      assert a + b == b;
    } else {
      CountsConcat(a[1..], b);
      assert (a + b)[1..] == a[1..] + b;
    }
  }

  lemma AllOkConcat(a: seq<Found>, b: seq<Found>)
    ensures AllOk(a + b) <==> AllOk(a) && AllOk(b)
  {
    if AllOk(a + b) {
      forall i | 0 <= i < |a| ensures FoundOk(a[i]) { assert (a + b)[i] == a[i]; }
      forall i | 0 <= i < |b| ensures FoundOk(b[i]) { assert (a + b)[|a| + i] == b[i]; }
    }
  }

  lemma ExtendConcat(st: Snap, a: seq<Found>, b: seq<Found>, h: set<bytes>, k: set<bytes>)
    ensures Extend(Extend(st, a, h), b, k) == Extend(st, a + b, h + k)
    ensures Fits(st, a + b) <==> Fits(st, a) && Fits(Extend(st, a, h), b)
  {
    CountsConcat(a, b);
    AllOkConcat(a, b);
    assert st.objects + Objects(a) + Objects(b) == st.objects + Objects(a + b);
    assert st.matched + h + k == st.matched + (h + k);
  }

  function Outcome(st: Snap, found: seq<Found>, hits: set<bytes>): Option<Snap> {
    if Fits(st, found) then Some(Extend(st, found, hits)) else None
  }

  lemma {:induction false} CountedOrSpecial(found: seq<Found>)
    requires AllOk(found)
    ensures |found| == Files(found) + Dirs(found)
  {
    if found != [] {
      assert FoundOk(found[0]);
      forall i | 0 <= i < |found[1..]| ensures FoundOk(found[1..][i]) { assert found[1..][i] == found[i + 1]; }
      CountedOrSpecial(found[1..]);
    }
  }

  lemma ChildInjective(rel: Option<bytes>, a: bytes, b: bytes)
    requires Child(rel, a) == Child(rel, b)
    ensures a == b
  {
    if rel.Some? {
      assert Child(rel, a)[|rel.value| + 1..] == a;
      assert Child(rel, b)[|rel.value| + 1..] == b;
    }
  }

  predicate Distinct(names: seq<bytes>) {
    forall i, j :: 0 <= i < j < |names| ==> names[i] != names[j]
  }

  ghost function Excluded(ex: set<bytes>, rel: Option<bytes>, names: seq<bytes>): set<bytes> {
    set i | 0 <= i < |names| && Child(rel, names[i]) in ex :: Child(rel, names[i])
  }

  /** A directory holds at most one entry per listed object and one per exclusion. */
  lemma {:induction false} ListingCoversNames(ex: set<bytes>, rel: Option<bytes>, node: Node, names: seq<bytes>,
        depth: nat)
    requires node.Dir? && forall i :: 0 <= i < |names| ==> names[i] in node.children
    requires Distinct(names)
    ensures |names| <= |ListingOf(ex, rel, node, names, depth)| + |Excluded(ex, rel, names)|
  {
    hide Excluded, Child, Listing;
    if names != [] {
      var child, rest := Child(rel, names[0]), names[1..];
      ListingCoversNames(ex, rel, node, rest, depth);
      var before, after := Excluded(ex, rel, rest), Excluded(ex, rel, names);
      ExcludedGrows(ex, rel, names);
      if child in ex {
        SubsetSize(before + {child}, after);
      } else {
        SubsetSize(before, after);
      }
    }
  }

  lemma ExcludedGrows(ex: set<bytes>, rel: Option<bytes>, names: seq<bytes>)
    requires names != [] && Distinct(names)
    ensures Excluded(ex, rel, names[1..]) <= Excluded(ex, rel, names)
    ensures Child(rel, names[0]) !in Excluded(ex, rel, names[1..])
    ensures Child(rel, names[0]) in ex ==> Child(rel, names[0]) in Excluded(ex, rel, names)
    ensures Distinct(names[1..])
  {
    hide Child;
    var rest := names[1..];
    forall p | p in Excluded(ex, rel, rest) ensures p in Excluded(ex, rel, names) && p != Child(rel, names[0]) {
      var i :| 0 <= i < |rest| && Child(rel, rest[i]) in ex && Child(rel, rest[i]) == p;
      assert names[i + 1] == rest[i];
      if p == Child(rel, names[0]) { ChildInjective(rel, rest[i], names[0]); }
    }
  }

  lemma SubsetSize(a: set<bytes>, b: set<bytes>)
    requires a <= b
    ensures |a| <= |b|
  {
    assert b == a + (b - a);
  }

  /** The entry bound, which grows with the exclusions, never refuses what the counters admit. */
  lemma EntryBoundImplied(ex: set<bytes>, rel: Option<bytes>, node: Node, depth: nat, st: Snap)
    requires node.Dir? && Fits(st, Listing(ex, rel, node, depth))
    ensures |node.children| <= MAX_FILES + MAX_DIRECTORIES + |ex|
  {
    var names := Sorted(node.children.Keys);
    SortedMembers(node.children.Keys);
    ListingCoversNames(ex, rel, node, names, depth);
    CountedOrSpecial(Listing(ex, rel, node, depth));
    SubsetSize(Excluded(ex, rel, names), ex);
  }

  lemma {:induction false} DirectoryExact(ex: set<bytes>, rel: Option<bytes>, node: Node, depth: nat, st: Snap)
    requires node.Dir? && Within(st) && depth <= MAX_DEPTH
    ensures CaptureDirectory(ex, rel, node, depth, st) == Outcome(st, Listing(ex, rel, node, depth), Hits(ex, rel, node))
    decreases node, 1, 0
  {
    SortedMembers(node.children.Keys);
    var names := Sorted(node.children.Keys);
    if |node.children| > MAX_FILES + MAX_DIRECTORIES + |ex| {
      if Fits(st, Listing(ex, rel, node, depth)) { EntryBoundImplied(ex, rel, node, depth, st); }
    } else {
      ListExact(ex, rel, node, names, depth, st);
    }
  }

  lemma {:induction false} ListExact(ex: set<bytes>, rel: Option<bytes>, node: Node, names: seq<bytes>, depth: nat,
        st: Snap)
    requires node.Dir? && forall i :: 0 <= i < |names| ==> names[i] in node.children
    requires Within(st) && depth <= MAX_DEPTH
    ensures CaptureList(ex, rel, node, names, depth, st) ==
            Outcome(st, ListingOf(ex, rel, node, names, depth), HitsOf(ex, rel, node, names))
    decreases node, 0, |names|
  {
    if names == [] {
      ExtendNothing(st, {});
      assert st.matched + {} == st.matched;
    } else {
      var entry := node.children[names[0]];
      EntryExact(ex, rel, names[0], entry, depth, st);
      var a, h := EntryListing(ex, rel, names[0], entry, depth), EntryHits(ex, rel, names[0], entry);
      var b, k := ListingOf(ex, rel, node, names[1..], depth), HitsOf(ex, rel, node, names[1..]);
      ExtendConcat(st, a, b, h, k);
      if Fits(st, a) {
        ListExact(ex, rel, node, names[1..], depth, Extend(st, a, h));
      }
    }
  }

  lemma {:induction false} EntryExact(ex: set<bytes>, rel: Option<bytes>, component: bytes, node: Node, depth: nat,
        st: Snap)
    requires Within(st) && depth <= MAX_DEPTH
    ensures CaptureEntry(ex, rel, component, node, depth, st) ==
            Outcome(st, EntryListing(ex, rel, component, node, depth), EntryHits(ex, rel, component, node))
    decreases node, 2, 0
  {
    hide Fits, Extend, Listing, CaptureDirectory, Hits;
    var child := Child(rel, component);
    var head := [Found(component, child, depth, Bare(node))];
    if child in ex {
      ExtendNothing(st, {child});
    } else {
      var rest, hits := Listing(ex, Some(child), node, depth + 1), Hits(ex, Some(child), node);
      ExtendConcat(st, head, rest, {}, hits);
      HeadExact(head[0], st);
      assert {} + hits == hits;
      if Fits(st, head) && node.Dir? {
        DirectoryExact(ex, Some(child), node, depth + 1, Extend(st, head, {}));
      } else if Fits(st, head) {
        NothingBelow(ex, Some(child), node, depth + 1);
        assert head + rest == head;
      }
    }
  }

  lemma NothingBelow(ex: set<bytes>, rel: Option<bytes>, node: Node, depth: nat)
    requires !node.Dir?
    ensures Listing(ex, rel, node, depth) == [] && Hits(ex, rel, node) == {}
  {
  }

  lemma ExtendNothing(st: Snap, hits: set<bytes>)
    requires Within(st)
    ensures Fits(st, []) && Extend(st, [], hits) == st.(matched := st.matched + hits)
  {
    assert Objects([]) == [] && st.objects + [] == st.objects;
  }

  lemma HeadExact(f: Found, st: Snap)
    requires Within(st)
    ensures Fits(st, [f]) <==>
            FoundOk(f) && if f.node.Dir? then st.dirs < MAX_DIRECTORIES
                          else st.files < MAX_FILES && st.total <= MAX_TOTAL_BYTES - |f.node.data|
    ensures FoundOk(f) ==>
        Extend(st, [f], {}) == if f.node.Dir? then AddDir(st, f.name) else AddFile(st, f.name, f.node.data)
  {
    assert AllOk([f]) <==> FoundOk(f) by { assert [f][0] == f; }
    assert [f][1..] == [];
    assert Files([f]) == if f.node.File? then 1 else 0;
    assert Dirs([f]) == if f.node.Dir? then 1 else 0;
    assert Total([f]) == if f.node.File? then |f.node.data| else 0;
    assert Objects([f]) == [ObjectOf(f)];
    assert st.matched + {} == st.matched;
  }

  /** The walk succeeds exactly when its pruned listing meets the rules, and then returns that listing. */
  lemma CaptureExactly(ex: set<bytes>, root: Node)
    requires root.Dir?
    ensures Capture(ex, root) == Outcome(EMPTY, Listing(ex, None, root, 0), Hits(ex, None, root))
  {
    DirectoryExact(ex, None, root, 0, EMPTY);
  }
}
