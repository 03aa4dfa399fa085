/**
 The capture walk as it runs: directories are read in whatever order the file
 system returns, counters and the staging tree change entry by entry, and the
 finished snapshot is published under its transaction name or not at all.
 */
module ImportWalker {
  import opened Bytes
  import opened Paths
  import opened Sorting
  import opened ImportSelection
  import opened ImportCapture
  import opened ImportManifest

  /** An object on disk; isPrivate stands for the ownership, link and exact mode checks. */
  datatype Stored = StoredDir(isPrivate: bool) | StoredFile(data: bytes, isPrivate: bool) | StoredOther

  /** The objects below one directory, by relative name. */
  type Disk = map<bytes, Stored>

  function StoredOf(x: Object): Stored {
    match x
    case DirObject(_) => StoredDir(true)
    case FileObject(_, data) => StoredFile(data, true)
  }

  function StageOf(objects: seq<Object>): Disk {
    if objects == [] then map[]
    else
      var last := objects[|objects| - 1];
      StageOf(objects[..|objects| - 1])[last.name := StoredOf(last)]
  }

  lemma {:induction false} StageKeys(objects: seq<Object>, name: bytes)
    ensures name in StageOf(objects) <==> exists i :: 0 <= i < |objects| && objects[i].name == name
  {
    if objects != [] {
      var init := objects[..|objects| - 1];
      StageKeys(init, name);
      if i :| 0 <= i < |objects| && objects[i].name == name && name != objects[|objects| - 1].name {
        assert init[i] == objects[i];
      }
    }
  }

  predicate Under(name: bytes, rel: Option<bytes>) {
    rel.None? || HasPrefix(name, rel.value + [SLASH])
  }

  predicate AtOrBelow(name: bytes, top: bytes) {
    name == top || HasPrefix(name, top + [SLASH])
  }

  /** Distinct siblings have disjoint subtrees. */
  lemma SiblingsApart(rel: Option<bytes>, a: bytes, b: bytes, name: bytes)
    requires SLASH !in a && SLASH !in b && a != b && AtOrBelow(name, Child(rel, a))
    ensures !AtOrBelow(name, Child(rel, b))
  {
    var skip := if rel.None? then 0 else |rel.value| + 1;
    if AtOrBelow(name, Child(rel, b)) {
      SuffixAt(rel, a, name, skip);
      SuffixAt(rel, b, name, skip);
    }
  }

  lemma SuffixAt(rel: Option<bytes>, a: bytes, name: bytes, skip: nat)
    requires skip == (if rel.None? then 0 else |rel.value| + 1) && AtOrBelow(name, Child(rel, a))
    ensures |name| >= skip + |a| && name[skip..][..|a|] == a
    ensures |name| > skip + |a| ==> name[skip..][|a|] == SLASH
  {
    var top := Child(rel, a);
    assert top[skip..] == a;
    if name != top {
      assert name[..|top| + 1] == top + [SLASH];
      assert name[|top|] == name[..|top| + 1][|top|];
      assert name[skip..][..|a|] == name[..|top| + 1][skip..|top|];
    }
  }

  lemma AtOrBelowUnder(rel: Option<bytes>, component: bytes, name: bytes)
    requires AtOrBelow(name, Child(rel, component))
    ensures Under(name, rel)
  {
    if rel.Some? {
      var child, top := Child(rel, component), rel.value + [SLASH];
      assert child == top + component;
      if name != child {
        assert name[..|child|] == (child + [SLASH])[..|child|];
        assert name[..|top|] == name[..|child|][..|top|];
      }
    }
  }

  lemma {:induction false} ListingUnder(ex: set<bytes>, rel: Option<bytes>, node: Node, depth: nat, i: nat)
    requires i < |Listing(ex, rel, node, depth)|
    ensures Under(Listing(ex, rel, node, depth)[i].name, rel)
    decreases node, 1, 0
  {
    SortedMembers(node.children.Keys);
    ListUnder(ex, rel, node, Sorted(node.children.Keys), depth, i);
  }

  lemma {:induction false} ListUnder(ex: set<bytes>, rel: Option<bytes>, node: Node, names: seq<bytes>, depth: nat, i: nat)
    requires node.Dir? && forall k :: 0 <= k < |names| ==> names[k] in node.children
    requires i < |ListingOf(ex, rel, node, names, depth)|
    ensures Under(ListingOf(ex, rel, node, names, depth)[i].name, rel)
    decreases node, 0, |names|
  {
    var head := EntryListing(ex, rel, names[0], node.children[names[0]], depth);
    if i < |head| {
      EntryBelow(ex, rel, names[0], node.children[names[0]], depth, i);
      AtOrBelowUnder(rel, names[0], head[i].name);
    } else {
      ListUnder(ex, rel, node, names[1..], depth, i - |head|);
    }
  }

  lemma {:induction false} EntryBelow(ex: set<bytes>, rel: Option<bytes>, component: bytes, node: Node, depth: nat, i: nat)
    requires i < |EntryListing(ex, rel, component, node, depth)|
    ensures AtOrBelow(EntryListing(ex, rel, component, node, depth)[i].name, Child(rel, component))
    decreases node, 2, 0
  {
    if i > 0 { ListingUnder(ex, Some(Child(rel, component)), node, depth + 1, i - 1); }
  }

  /** No captured object is named name or lies below it. */
  predicate Clear(objects: seq<Object>, name: bytes) {
    forall i :: 0 <= i < |objects| ==> !AtOrBelow(objects[i].name, name)
  }

  predicate ClearFor(objects: seq<Object>, rel: Option<bytes>, names: seq<bytes>) {
    forall k :: 0 <= k < |names| && SLASH !in names[k] ==> Clear(objects, Child(rel, names[k]))
  }

  predicate NoneUnder(objects: seq<Object>, rel: Option<bytes>) {
    forall i :: 0 <= i < |objects| ==> !Under(objects[i].name, rel)
  }

  lemma ClearInside(objects: seq<Object>, rel: Option<bytes>, names: seq<bytes>)
    requires NoneUnder(objects, rel)
    ensures ClearFor(objects, rel, names)
  {
    forall k, i | 0 <= k < |names| && 0 <= i < |objects| ensures !AtOrBelow(objects[i].name, Child(rel, names[k])) {
      if AtOrBelow(objects[i].name, Child(rel, names[k])) { AtOrBelowUnder(rel, names[k], objects[i].name); }
    }
  }

  /** After an entry is captured, the names of its later siblings are still free. */
  lemma EntryLeavesClear(ex: set<bytes>, rel: Option<bytes>, names: seq<bytes>, node: Node, depth: nat, st: Snap)
    requires names != [] && Distinct(names) && ClearFor(st.objects, rel, names) && SLASH !in names[0]
    requires Within(st) && depth <= MAX_DEPTH
    requires CaptureEntry(ex, rel, names[0], node, depth, st).Some?
    ensures ClearFor(CaptureEntry(ex, rel, names[0], node, depth, st).value.objects, rel, names[1..])
  {
    hide CaptureEntry, EntryListing, Fits, EntryHits, Files, Dirs, Total;
    EntryExact(ex, rel, names[0], node, depth, st);
    var found := EntryListing(ex, rel, names[0], node, depth);
    var after := st.objects + Objects(found);
    forall k, i | 0 <= k < |names[1..]| && SLASH !in names[1..][k] && 0 <= i < |after|
      ensures !AtOrBelow(after[i].name, Child(rel, names[1..][k]))
    {
      assert names[1..][k] == names[k + 1];
      if i < |st.objects| {
        assert Clear(st.objects, Child(rel, names[k + 1]));
      } else {
        EntryBelow(ex, rel, names[0], node, depth, i - |st.objects|);
        SiblingsApart(rel, names[0], names[k + 1], after[i].name);
      }
    }
  }

  lemma ClearRest(objects: seq<Object>, rel: Option<bytes>, names: seq<bytes>)
    requires names != [] && ClearFor(objects, rel, names)
    ensures ClearFor(objects, rel, names[1..])
  {
    forall k | 0 <= k < |names[1..]| && SLASH !in names[1..][k] ensures Clear(objects, Child(rel, names[1..][k])) {
      assert names[1..][k] == names[k + 1];
    }
  }

  lemma ClearBelow(objects: seq<Object>, name: bytes)
    requires Clear(objects, name)
    ensures NoneUnder(objects + [DirObject(name)], Some(name))
    ensures name !in StageOf(objects)
  {
    StageKeys(objects, name);
    forall i | 0 <= i < |objects| ensures !Under(objects[i].name, Some(name)) {
      assert !AtOrBelow(objects[i].name, name);
    }
  }

  lemma SafeHasNoSlash(c: bytes)
    requires ValidComponent(c)
    ensures SLASH !in c
  {
  }

  lemma EntryWithin(ex: set<bytes>, rel: Option<bytes>, component: bytes, node: Node, depth: nat, st: Snap)
    requires Within(st) && depth <= MAX_DEPTH && CaptureEntry(ex, rel, component, node, depth, st).Some?
    ensures Within(CaptureEntry(ex, rel, component, node, depth, st).value)
  {
    hide CaptureEntry, EntryListing, EntryHits;
    EntryExact(ex, rel, component, node, depth, st);
  }

  /** Directory names in an order the file system chooses. */
  method ReadDirectory(children: map<bytes, Node>) returns (names: seq<bytes>)
    ensures multiset(names) == multiset(children.Keys)
  {
    names := [];
    var left := children.Keys;
    while left != {}
      invariant left <= children.Keys
      invariant multiset(names) == multiset(children.Keys - left)
      decreases left
    {
      var n :| n in left;
      assert children.Keys - (left - {n}) == (children.Keys - left) + {n};
      names, left := names + [n], left - {n};
    }
    assert children.Keys - left == children.Keys;
  }

  class Walker {
    const hash: Hash
    const excludes: set<bytes>
    const staging: bool
    var entries: seq<Entry>
    var files: nat
    var dirs: nat
    var total: nat
    var matched: set<bytes>
    var stage: Disk
    ghost var objects: seq<Object>

    constructor (hash: Hash, excludes: set<bytes>, staging: bool)
      ensures Valid() && State() == EMPTY && this.hash == hash && this.excludes == excludes && this.staging == staging
    {
      this.hash, this.excludes, this.staging := hash, excludes, staging;
      entries, files, dirs, total, matched, stage, objects := [], 0, 0, 0, {}, map[], [];
    }

    ghost predicate Valid()
      reads this
    {
      && entries == Entries(hash, objects)
      && stage == (if staging then StageOf(objects) else map[])
    }

    ghost function State(): Snap
      reads this
    {
      Snap(objects, files, dirs, total, matched)
    }

    method Append(x: Object)
      requires Valid() && x.name !in stage
      modifies this
      ensures Valid() && unchanged(this`files, this`dirs, this`total, this`matched)
      ensures objects == old(objects) + [x]
    {
      if staging { stage := stage[x.name := StoredOf(x)]; }
      entries := entries + [EntryOf(hash, x)];
      objects := objects + [x];
      assert objects[..|objects| - 1] == old(objects);
    }

    method CaptureDirectoryAt(rel: Option<bytes>, node: Node, depth: nat) returns (ok: bool)
      requires Valid() && node.Dir? && Within(State()) && depth <= MAX_DEPTH && NoneUnder(objects, rel)
      modifies this
      ensures Valid()
      ensures ok == CaptureDirectory(excludes, rel, node, depth, old(State())).Some?
      ensures ok ==> State() == CaptureDirectory(excludes, rel, node, depth, old(State())).value
      decreases node, 1
    {
      hide CaptureList, CaptureEntry, Clear, Within, NoneUnder, ClearFor, Distinct, Sorted, Sort;
      var names := ReadDirectory(node.children);
      assert |names| == |node.children| by { assert |multiset(names)| == |multiset(node.children.Keys)|; }
      if |names| > MAX_FILES + MAX_DIRECTORIES + |excludes| { return false; }
      ghost var listed := names;
      names := Sort(names);
      SortCorrect(listed);
      SortedUnique(names, Sorted(node.children.Keys));
      SortedMembers(node.children.Keys);
      DistinctSorted(node);
      ClearInside(objects, rel, names);
      ok := CaptureNames(rel, node, names, depth);
    }

    method CaptureNames(rel: Option<bytes>, node: Node, names: seq<bytes>, depth: nat) returns (ok: bool)
      requires node.Dir? && forall i :: 0 <= i < |names| ==> names[i] in node.children
      requires Valid() && Within(State()) && depth <= MAX_DEPTH && Distinct(names) && ClearFor(objects, rel, names)
      modifies this
      ensures Valid()
      ensures ok == CaptureList(excludes, rel, node, names, depth, old(State())).Some?
      ensures ok ==> State() == CaptureList(excludes, rel, node, names, depth, old(State())).value
      decreases node, 0
    {
      hide CaptureEntry, Within, ClearFor, Distinct;
      ghost var start := State();
      var k := 0;
      while k < |names|
        invariant k <= |names|
        invariant Valid() && Within(State())
        invariant Distinct(names[k..]) && ClearFor(objects, rel, names[k..])
        invariant CaptureList(excludes, rel, node, names, depth, start) ==
                  CaptureList(excludes, rel, node, names[k..], depth, State())
      {
        ghost var before := State();
        assert names[k..][0] == names[k] && names[k..][1..] == names[k + 1..];
        ok := CaptureOne(rel, names[k], node.children[names[k]], depth, names[k..]);
        if !ok { return; }
        EntryWithin(excludes, rel, names[k], node.children[names[k]], depth, before);
        DistinctRest(names[k..]);
        k := k + 1;
      }
      ok := true;
    }

    method CaptureOne(rel: Option<bytes>, component: bytes, node: Node, depth: nat, ghost names: seq<bytes>) returns (ok: bool)
      requires Valid() && Within(State()) && depth <= MAX_DEPTH
      requires names != [] && names[0] == component && Distinct(names) && ClearFor(objects, rel, names)
      modifies this
      ensures Valid()
      ensures ok == CaptureEntry(excludes, rel, component, node, depth, old(State())).Some?
      ensures ok ==> State() == CaptureEntry(excludes, rel, component, node, depth, old(State())).value
      ensures ok ==> ClearFor(objects, rel, names[1..])
      decreases node, 2
    {
      hide CaptureDirectory, Clear, NoneUnder, AtOrBelow, ClearFor, Distinct, Entries, StageOf;
      ghost var before := State();
      var child := Child(rel, component);
      if child in excludes {
        matched := matched + {child};
        ClearRest(objects, rel, names);
        return true;
      }
      if !ValidComponent(component) || component == MANIFEST_NAME || |child| > MAX_PATH_BYTES || !Admitted(node) { return false; }
      SafeHasNoSlash(component);
      ClearFirst(objects, rel, names);
      ClearBelow(objects, child);
      if node.Dir? {
        if depth == MAX_DEPTH || dirs >= MAX_DIRECTORIES { return false; }
        Append(DirObject(child));
        dirs := dirs + 1;
        ok := CaptureDirectoryAt(Some(child), node, depth + 1);
      } else {
        if files >= MAX_FILES || |node.data| > MAX_FILE_BYTES || total > MAX_TOTAL_BYTES - |node.data| { return false; }
        Append(FileObject(child, node.data));
        files, total := files + 1, total + |node.data|;
        ok := true;
      }
      if ok { EntryLeavesClear(excludes, rel, names, node, depth, before); }
    }
  }

  lemma ClearFirst(objects: seq<Object>, rel: Option<bytes>, names: seq<bytes>)
    requires names != [] && ClearFor(objects, rel, names) && SLASH !in names[0]
    ensures Clear(objects, Child(rel, names[0]))
  {
  }

  lemma DistinctRest(names: seq<bytes>)
    requires names != [] && Distinct(names)
    ensures Distinct(names[1..])
  {
  }

  lemma DistinctSorted(node: Node)
    requires node.Dir?
    ensures Distinct(Sorted(node.children.Keys))
  {
    SortedMembers(node.children.Keys);
  }

  /** The walk and the manifest checks; staging decides only whether bytes are also written. */
  method Walk(hash: Hash, enc: Encoder, selection: Selection, root: Node, staging: bool)
    returns (r: Option<Snapshot>, stage: Disk, ghost objects: seq<Object>)
    requires root.Dir?
    ensures r == CaptureSelected(hash, enc, selection, root)
    ensures r.Some? && staging ==> stage == StageOf(objects) && r.value.entries == Entries(hash, objects)
    ensures r.Some? ==> Capture(Elements(Normalize(selection).value.excludes), root).value.objects == objects
    ensures !staging ==> stage == map[]
  {
    hide Normalize, CaptureDirectory, Fits;
    stage, objects := map[], [];
    var s := Normalize(selection);
    if s.None? { return None, map[], []; }
    var walker := new Walker(hash, Elements(s.value.excludes), staging);
    var ok := walker.CaptureDirectoryAt(None, root, 0);
    if !ok { return None, map[], []; }
    r := Manifest(hash, enc, s.value.excludes, s.value.digest,
                  Summary(walker.entries, walker.files, walker.dirs, walker.total, walker.matched));
    stage, objects := walker.stage, walker.objects;
  }

  /** PreviewSource: the capture walk without staging. */
  method Preview(hash: Hash, enc: Encoder, selection: Selection, root: Node) returns (r: Option<Snapshot>)
    requires root.Dir?
    ensures r == CaptureSelected(hash, enc, selection, root)
  {
    var stage; ghost var objects;
    r, stage, objects := Walk(hash, enc, selection, root, false);
  }
}
