/** Re-admission of a staged snapshot, and its comparison with a published tree. */
module ImportInspect {
  import opened Bytes
  import opened Paths
  import opened ImportSelection
  import opened ImportCapture
  import opened ImportManifest
  import opened ImportWalker
  import opened ImportShape

  const NEWLINE: byte := 10

  /** Reading a version 1 manifest text, as the standard library does. */
  type Decoder = bytes -> Option<seq<Entry>>

  /** The file system keeps every object below a directory. */
  ghost predicate Rooted(disk: Disk) {
    forall n :: n in disk && Parent(n).Some? ==> Parent(n).value in disk && disk[Parent(n).value].StoredDir?
  }

  // ---- declared entries ----

  function DirCount(entries: seq<Entry>): nat {
    if entries == [] then 0
    else DirCount(entries[..|entries| - 1]) + if entries[|entries| - 1].kind.DirectoryKind? then 1 else 0
  }

  function FileCount(entries: seq<Entry>): nat {
    if entries == [] then 0
    else FileCount(entries[..|entries| - 1]) + if entries[|entries| - 1].kind.FileKind? then 1 else 0
  }

  function ByteCount(entries: seq<Entry>): int {
    if entries == [] then 0
    else ByteCount(entries[..|entries| - 1]) + if entries[|entries| - 1].kind.FileKind? then entries[|entries| - 1].size else 0
  }

  /** The object on disk is the declared one. */
  predicate Matches(hash: Hash, x: Stored, e: Entry) {
    match e.kind
    case DirectoryKind => x == StoredDir(true)
    case FileKind => x.StoredFile? && x.isPrivate && |x.data| == e.size && Hex(hash(x.data)) == e.sha
    case OtherKind(_) => false
  }

  predicate WellFormed(e: Entry) {
    match e.kind
    case DirectoryKind => e.size == 0 && e.sha == []
    case FileKind => 0 <= e.size <= MAX_FILE_BYTES && HexDigest(e.sha)
    case OtherKind(_) => false
  }

  predicate Declared(entries: seq<Entry>, name: bytes) {
    exists j :: 0 <= j < |entries| && entries[j].path == name
  }

  predicate DeclaredDirectory(entries: seq<Entry>, name: bytes) {
    exists j :: 0 <= j < |entries| && entries[j].path == name && entries[j].kind.DirectoryKind?
  }

  predicate WithinLimits(entries: seq<Entry>) {
    DirCount(entries) <= MAX_DIRECTORIES && FileCount(entries) <= MAX_FILES && ByteCount(entries) <= MAX_TOTAL_BYTES
  }

  /** Entry i may follow the entries before it and is on disk as declared. */
  predicate Good(hash: Hash, disk: Disk, entries: seq<Entry>, i: nat)
    requires i < |entries|
  {
    var e := entries[i];
    && ValidSnapshotPath(e.path) && e.path != MANIFEST_NAME && WellFormed(e)
    && !Declared(entries[..i], e.path)
    && (Parent(e.path).Some? ==> DeclaredDirectory(entries[..i], Parent(e.path).value))
    && e.path in disk && Matches(hash, disk[e.path], e)
    && WithinLimits(entries[..i + 1])
  }

  /** The manifest's entries, if it is private, bounded and canonical. */
  function Manifested(enc: Encoder, dec: Decoder, disk: Disk): Option<seq<Entry>> {
    if MANIFEST_NAME !in disk || !disk[MANIFEST_NAME].StoredFile? || !disk[MANIFEST_NAME].isPrivate then None
    else
      var raw := disk[MANIFEST_NAME].data;
      if |raw| < 2 || |raw| > MAX_MANIFEST_BYTES then None
      else
        var entries := dec(if raw[|raw| - 1] == NEWLINE then raw[..|raw| - 1] else raw);
        if entries.Some? && raw == enc(entries.value) + [NEWLINE] then entries else None
  }

  /** The disk holds a canonical manifest and exactly the objects it declares. */
  ghost predicate Inspectable(hash: Hash, disk: Disk, entries: seq<Entry>) {
    && 0 < |entries| <= MAX_FILES + MAX_DIRECTORIES
    && (forall i :: 0 <= i < |entries| ==> Good(hash, disk, entries, i))
    && FileCount(entries) > 0
    && forall n :: n in disk && n != MANIFEST_NAME ==> Declared(entries, n)
  }

  function SnapshotOf(hash: Hash, enc: Encoder, entries: seq<Entry>): Snapshot
    requires ByteCount(entries) >= 0
  {
    Snapshot(Hex(hash(enc(entries))), FileCount(entries), DirCount(entries), ByteCount(entries), entries)
  }

  // ---- the directory walk ----

  ghost predicate Indexes(index: map<bytes, Entry>, entries: seq<Entry>) {
    && (forall i :: 0 <= i < |entries| ==> entries[i].path in index && index[entries[i].path] == entries[i])
    && (forall n :: n in index ==> Declared(entries, n))
  }

  /** What the walk accepts: declared, of the declared kind and, for a published tree, with the declared contents. */
  predicate Accepts(hash: Hash, contents: bool, disk: Disk, index: map<bytes, Entry>, n: bytes)
    requires n in disk
  {
    && n in index
    && (disk[n].StoredDir? <==> index[n].kind.DirectoryKind?)
    && (contents ==> Matches(hash, disk[n], index[n]))
  }

  ghost function Below(disk: Disk, skip: set<bytes>, rel: Option<bytes>): set<bytes> {
    set n | n in disk && n !in skip && Under(n, rel)
  }

  ghost function ChildrenOf(disk: Disk, rel: Option<bytes>): set<bytes> {
    set n | n in disk && Parent(n) == rel
  }

  /** Objects below rel that belong to none of the children still to be read. */
  ghost function Read(disk: Disk, skip: set<bytes>, rel: Option<bytes>, left: set<bytes>): set<bytes> {
    set n | n in Below(disk, skip, rel) && forall c :: c in left ==> !AtOrBelow(n, c)
  }

  lemma ParentUnder(n: bytes, rel: Option<bytes>)
    requires Under(n, rel) && Parent(n) != rel
    ensures Parent(n).Some? && Under(Parent(n).value, rel)
  {
    if rel.Some? {
      var r := rel.value;
      assert n[|r|] == n[..|r| + 1][|r|] == SLASH;
      assert n[..|r|] == n[..|r| + 1][..|r|] == r;
      var p := Parent(n).value;
      if |p| > |r| {
        assert p[..|r| + 1] == n[..|r| + 1];
      }
    }
  }

  lemma BelowParent(n: bytes, c: bytes)
    requires Parent(n).Some? && AtOrBelow(Parent(n).value, c)
    ensures AtOrBelow(n, c)
  {
    var p := Parent(n).value;
    assert n[..|p| + 1] == p + [SLASH];
    if p != c {
      assert n[..|c| + 1] == p[..|c| + 1];
    }
  }

  /** Every object below rel is at or below one of rel's children. */
  lemma {:induction false} TopChild(disk: Disk, rel: Option<bytes>, n: bytes) returns (c: bytes)
    requires Rooted(disk) && n in disk && Under(n, rel)
    ensures c in ChildrenOf(disk, rel) && AtOrBelow(n, c)
    decreases |n|
  {
    if Parent(n) == rel {
      c := n;
    } else {
      ParentUnder(n, rel);
      c := TopChild(disk, rel, Parent(n).value);
      BelowParent(n, c);
    }
  }

  lemma ParentSplits(n: bytes, rel: Option<bytes>) returns (component: bytes)
    requires Parent(n) == rel
    ensures SLASH !in component && n == Child(rel, component)
  {
    component := if rel.None? then n else n[|rel.value| + 1..];
  }

  lemma ChildrenApart(rel: Option<bytes>, a: bytes, b: bytes, n: bytes)
    requires Parent(a) == rel && Parent(b) == rel && a != b && AtOrBelow(n, a)
    ensures !AtOrBelow(n, b)
  {
    var x := ParentSplits(a, rel);
    var y := ParentSplits(b, rel);
    SiblingsApart(rel, x, y, n);
  }

  lemma ChildUnder(disk: Disk, rel: Option<bytes>, c: bytes)
    requires c in ChildrenOf(disk, rel)
    ensures Under(c, rel) && forall n :: Under(n, Some(c)) ==> Under(n, rel)
  {
    var x := ParentSplits(c, rel);
    AtOrBelowUnder(rel, x, c);
    forall n | Under(n, Some(c)) ensures Under(n, rel) { AtOrBelowUnder(rel, x, n); }
  }

  /** Only a top-level file is ever skipped: the manifest itself. */
  ghost predicate SkipsFiles(disk: Disk, skip: set<bytes>) {
    forall n :: n in disk && n in skip ==> Parent(n).None? && !disk[n].StoredDir?
  }

  lemma ReadNothing(disk: Disk, skip: set<bytes>, rel: Option<bytes>)
    requires Rooted(disk)
    requires SkipsFiles(disk, skip)
    ensures Read(disk, skip, rel, ChildrenOf(disk, rel) - skip) == {}
  {
    forall n | n in Below(disk, skip, rel) ensures exists c :: c in ChildrenOf(disk, rel) - skip && AtOrBelow(n, c) {
      var c := TopChild(disk, rel, n);
      if c in skip {
        SkipHasNothing(disk, c, n);
      }
    }
  }

  /** Nothing lies below an object that is not a directory. */
  lemma {:induction false} SkipHasNothing(disk: Disk, c: bytes, n: bytes)
    requires Rooted(disk) && n in disk && c in disk && !disk[c].StoredDir? && AtOrBelow(n, c)
    ensures n == c
    decreases |n|
  {
    if n != c {
      var p := TopChild(disk, Some(c), n);
    }
  }

  lemma ReadStep(disk: Disk, skip: set<bytes>, rel: Option<bytes>, left: set<bytes>, c: bytes)
    requires left <= ChildrenOf(disk, rel) - skip && c in left
    ensures Read(disk, skip, rel, left - {c}) == Read(disk, skip, rel, left) + {c} + Below(disk, skip, Some(c))
    ensures c !in Read(disk, skip, rel, left) && c in Below(disk, skip, rel) && c !in Below(disk, skip, Some(c))
    ensures Below(disk, skip, Some(c)) <= Below(disk, skip, rel)
    ensures Read(disk, skip, rel, left) !! Below(disk, skip, Some(c))
  {
    ChildUnder(disk, rel, c);
    forall n | n in Below(disk, skip, rel) && AtOrBelow(n, c) ensures n in Read(disk, skip, rel, left - {c}) {
      forall d | d in left - {c} ensures !AtOrBelow(n, d) { ChildrenApart(rel, c, d, n); }
    }
  }

  lemma NoChildren(disk: Disk, skip: set<bytes>, c: bytes)
    requires Rooted(disk) && c in disk && !disk[c].StoredDir?
    ensures Below(disk, skip, Some(c)) == {}
  {
    forall n | n in disk ensures !Under(n, Some(c)) {
      if Under(n, Some(c)) { SkipHasNothing(disk, c, n); }
    }
  }

  lemma TooManyChildren(disk: Disk, skip: set<bytes>, rel: Option<bytes>, index: map<bytes, Entry>)
    requires |ChildrenOf(disk, rel)| > |index| + |skip|
    ensures exists n :: n in Below(disk, skip, rel) && n !in index
  {
    var children, known := ChildrenOf(disk, rel), skip + index.Keys;
    assert |known| <= |skip| + |index.Keys|;
    if children <= known { SubsetSize(children, known); }
    var n :| n in children && n !in known;
    ChildUnder(disk, rel, n);
  }

  /** Every object among names is acceptable and new. */
  ghost predicate Clean(hash: Hash, contents: bool, disk: Disk, index: map<bytes, Entry>, seen: set<bytes>,
        names: set<bytes>) {
    forall n :: n in names ==> n in disk && Accepts(hash, contents, disk, index, n) && n !in seen
  }

  lemma CleanStep(hash: Hash, contents: bool, disk: Disk, skip: set<bytes>, rel: Option<bytes>, index: map<bytes,
        Entry>,
                  seen: set<bytes>, left: set<bytes>, c: bytes)
    requires left <= ChildrenOf(disk, rel) - skip && c in left && c in disk
    ensures Clean(hash, contents, disk, index, seen, Read(disk, skip, rel, left - {c})) <==>
            && Clean(hash, contents, disk, index, seen, Read(disk, skip, rel, left))
            && Accepts(hash, contents, disk, index, c) && c !in seen
            && Clean(hash, contents, disk, index, seen + Read(disk, skip, rel, left) + {c}, Below(disk, skip, Some(c)))
    ensures c !in Read(disk, skip, rel, left)
    ensures Clean(hash, contents, disk, index, seen, Below(disk, skip, rel)) ==>
            Clean(hash, contents, disk, index, seen, Read(disk, skip, rel, left - {c}))
  {
    ReadStep(disk, skip, rel, left, c);
    hide Accepts, Below;
    assert forall n :: n in Read(disk, skip, rel, left - {c}) ==> n in Below(disk, skip, rel);
    hide Read;
  }

  lemma ReadAll(disk: Disk, skip: set<bytes>, rel: Option<bytes>)
    ensures Read(disk, skip, rel, {}) == Below(disk, skip, rel)
  {
  }

  lemma CleanNothing(hash: Hash, contents: bool, disk: Disk, index: map<bytes, Entry>, seen: set<bytes>)
    ensures Clean(hash, contents, disk, index, seen, {}) && seen + {} == seen
  {
  }

  lemma CrowdedNotClean(hash: Hash, contents: bool, disk: Disk, skip: set<bytes>, rel: Option<bytes>,
        index: map<bytes, Entry>, seen: set<bytes>)
    requires |ChildrenOf(disk, rel)| > |index| + |skip|
    ensures !Clean(hash, contents, disk, index, seen, Below(disk, skip, rel))
  {
    TooManyChildren(disk, skip, rel, index);
  }

  /** Reads one directory in whatever order it is listed, and everything below it. */
  method InspectDirectory(hash: Hash, contents: bool, disk: Disk, skip: set<bytes>, rel: Option<bytes>,
        index: map<bytes, Entry>, seen: set<bytes>)
    returns (ok: bool, seen': set<bytes>)
    requires Rooted(disk) && |index| <= MAX_FILES + MAX_DIRECTORIES && SkipsFiles(disk, skip)
    ensures ok == Clean(hash, contents, disk, index, seen, Below(disk, skip, rel))
    ensures ok ==> seen' == seen + Below(disk, skip, rel)
    decreases Below(disk, skip, rel)
  {
    hide Below, Read, Rooted, Clean, SkipsFiles;
    seen' := seen;
    var listed := set n | n in disk && Parent(n) == rel;
    assert listed == ChildrenOf(disk, rel);
    if |listed| > MAX_FILES + MAX_DIRECTORIES + |skip| {
      CrowdedNotClean(hash, contents, disk, skip, rel, index, seen);
      return false, seen;
    }
    var left := listed - skip;
    ReadNothing(disk, skip, rel);
    CleanNothing(hash, contents, disk, index, seen);
    while left != {}
      invariant left <= ChildrenOf(disk, rel) - skip
      invariant seen' == seen + Read(disk, skip, rel, left)
      invariant Clean(hash, contents, disk, index, seen, Read(disk, skip, rel, left))
      decreases left
    {
      var c :| c in left;
      CleanStep(hash, contents, disk, skip, rel, index, seen, left, c);
      if c !in index || c in seen' || (disk[c].StoredDir? != index[c].kind.DirectoryKind?) { return false, seen'; }
      if contents && !Matches(hash, disk[c], index[c]) { return false, seen'; }
      ReadStep(disk, skip, rel, left, c);
      seen' := seen' + {c};
      if index[c].kind.DirectoryKind? {
        ok, seen' := InspectDirectory(hash, contents, disk, skip, Some(c), index, seen');
        if !ok { return false, seen'; }
      } else {
        NoChildren(disk, skip, c);
        CleanNothing(hash, contents, disk, index, seen');
      }
      left := left - {c};
    }
    ReadAll(disk, skip, rel);
    ok := true;
  }

  // ---- the declared entries, one by one ----

  lemma DeclaredIndex(index: map<bytes, Entry>, entries: seq<Entry>, name: bytes)
    requires Indexes(index, entries)
    ensures Declared(entries, name) <==> name in index
    ensures DeclaredDirectory(entries, name) ==> name in index && index[name].kind.DirectoryKind?
    ensures name in index && index[name].kind.DirectoryKind? ==> DeclaredDirectory(entries, name)
  {
    if name in index {
      var j :| 0 <= j < |entries| && entries[j].path == name;
      assert index[name] == entries[j];
    }
  }

  lemma IndexesSnoc(index: map<bytes, Entry>, entries: seq<Entry>, e: Entry)
    requires Indexes(index, entries) && !Declared(entries, e.path)
    ensures Indexes(index[e.path := e], entries + [e])
  {
    var all, index' := entries + [e], index[e.path := e];
    forall i | 0 <= i < |all| ensures all[i].path in index' && index'[all[i].path] == all[i] {
      if i < |entries| { assert all[i] == entries[i]; }
    }
    forall n | n in index' ensures Declared(all, n) {
      if n == e.path {
        assert all[|entries|] == e;
      } else {
        var j :| 0 <= j < |entries| && entries[j].path == n;
        assert all[j] == entries[j];
      }
    }
  }

  /** Checks one entry against those before it; the counters are those of the entries before it. */
  method CheckEntry(hash: Hash, disk: Disk, index: map<bytes, Entry>, e: Entry, files: nat, dirs: nat, total: int,
        ghost before: seq<Entry>)
    returns (ok: bool)
    requires Indexes(index, before) && WithinLimits(before)
    requires files == FileCount(before) && dirs == DirCount(before) && total == ByteCount(before)
    ensures ok == Good(hash, disk, before + [e], |before|)
  {
    hide ValidSnapshotPath, HexDigest, Declared, DeclaredDirectory, Indexes;
    ghost var all := before + [e];
    assert all[|before|] == e && all[..|before|] == before && all[..|before| + 1] == all;
    assert DirCount(all) == DirCount(before) + if e.kind.DirectoryKind? then 1 else 0;
    assert FileCount(all) == FileCount(before) + if e.kind.FileKind? then 1 else 0;
    assert ByteCount(all) == ByteCount(before) + if e.kind.FileKind? then e.size else 0;
    DeclaredIndex(index, before, e.path);
    if !ValidSnapshotPath(e.path) || e.path == MANIFEST_NAME || e.path in index { return false; }
    if Parent(e.path).Some? {
      DeclaredIndex(index, before, Parent(e.path).value);
      if Parent(e.path).value !in index || !index[Parent(e.path).value].kind.DirectoryKind? { return false; }
    }
    if e.path !in disk { return false; }
    var x := disk[e.path];
    match e.kind
    case DirectoryKind =>
      return x.StoredDir? && x.isPrivate && e.size == 0 && e.sha == [] && dirs < MAX_DIRECTORIES;
    case FileKind =>
      if !x.StoredFile? || !x.isPrivate || |x.data| != e.size || e.size < 0 || e.size > MAX_FILE_BYTES { return false; }
      if files >= MAX_FILES || total > MAX_TOTAL_BYTES - e.size || !HexDigest(e.sha) { return false; }
      return Hex(hash(x.data)) == e.sha;
    case OtherKind(_) =>
      return false;
  }

  method CheckEntries(hash: Hash, disk: Disk, entries: seq<Entry>) returns (ok: bool, index: map<bytes, Entry>,
        files: nat, dirs: nat, total: int)
    ensures ok == forall i :: 0 <= i < |entries| ==> Good(hash, disk, entries, i)
    ensures ok ==> Indexes(index, entries) && |index| <= |entries| && WithinLimits(entries)
    ensures ok ==> files == FileCount(entries) && dirs == DirCount(entries) && total == ByteCount(entries) && total >= 0
  {
    hide Good, Indexes, Declared;
    index, files, dirs, total := map[], 0, 0, 0;
    NoEntries();
    var i := 0;
    while i < |entries|
      invariant i <= |entries| && |index| <= i
      invariant Indexes(index, entries[..i]) && WithinLimits(entries[..i])
      invariant files == FileCount(entries[..i]) && dirs == DirCount(entries[..i]) && total == ByteCount(entries[..i])
      invariant total >= 0
      invariant forall k :: 0 <= k < i ==> Good(hash, disk, entries, k)
    {
      var e := entries[i];
      var good := CheckEntry(hash, disk, index, e, files, dirs, total, entries[..i]);
      GoodLocal(hash, disk, entries, i);
      if !good { return false, index, files, dirs, total; }
      GoodFacts(hash, disk, entries, i);
      IndexesSnoc(index, entries[..i], e);
      assert entries[..i + 1] == entries[..i] + [e];
      index := index[e.path := e];
      if e.kind.DirectoryKind? { dirs := dirs + 1; }
      if e.kind.FileKind? { files, total := files + 1, total + e.size; }
      i := i + 1;
    }
    assert entries[..i] == entries;
    ok := true;
  }

  lemma NoEntries()
    ensures Indexes(map[], [])
  {
  }

  lemma GoodLocal(hash: Hash, disk: Disk, entries: seq<Entry>, i: nat)
    requires i < |entries|
    ensures Good(hash, disk, entries, i) <==> Good(hash, disk, entries[..i] + [entries[i]], i)
  {
    var part := entries[..i] + [entries[i]];
    assert part == entries[..i + 1] && part[..i] == entries[..i] && part[..i + 1] == part && part[i] == entries[i];
  }

  lemma GoodFacts(hash: Hash, disk: Disk, entries: seq<Entry>, i: nat)
    requires i < |entries| && Good(hash, disk, entries, i)
    ensures !Declared(entries[..i], entries[i].path) && WithinLimits(entries[..i + 1]) && WellFormed(entries[i])
  {
  }

  lemma DeclaredAllOnDisk(hash: Hash, disk: Disk, entries: seq<Entry>, index: map<bytes, Entry>)
    requires Indexes(index, entries) && MANIFEST_NAME in disk
    requires forall i :: 0 <= i < |entries| ==> Good(hash, disk, entries, i)
    ensures Clean(hash, false, disk, index, {}, Below(disk, {MANIFEST_NAME}, None)) <==>
            forall n :: n in disk && n != MANIFEST_NAME ==> Declared(entries, n)
    ensures (forall n :: n in disk && n != MANIFEST_NAME ==> Declared(entries, n)) ==>
              Below(disk, {MANIFEST_NAME}, None) == index.Keys
  {
    forall n | n in index ensures n in disk && n != MANIFEST_NAME && Accepts(hash, false, disk, index, n) {
      var j :| 0 <= j < |entries| && entries[j].path == n;
      assert Good(hash, disk, entries, j);
    }
    forall n | n in disk && n != MANIFEST_NAME ensures Declared(entries, n) <==> n in index {
      DeclaredIndex(index, entries, n);
    }
  }

  lemma ManifestSkipped(enc: Encoder, dec: Decoder, disk: Disk)
    requires Manifested(enc, dec, disk).Some?
    ensures MANIFEST_NAME in disk && SkipsFiles(disk, {MANIFEST_NAME})
  {
    assert SLASH !in MANIFEST_NAME;
  }

  /** InspectSnapshot: succeeds exactly when the disk holds a canonical manifest and exactly what it declares. */
  method Inspect(hash: Hash, enc: Encoder, dec: Decoder, disk: Disk) returns (r: Option<Snapshot>)
    requires Rooted(disk)
    ensures var m := Manifested(enc, dec, disk);
      && (r.Some? <==> m.Some? && Inspectable(hash, disk, m.value))
      && (r.Some? ==> ByteCount(m.value) >= 0 && r.value == SnapshotOf(hash, enc, m.value))
  {
    hide Good, Indexes, Declared, Rooted, WithinLimits, Clean, Below, Manifested, SkipsFiles, ByteCount, FileCount,
         DirCount;
    var manifest := Manifested(enc, dec, disk);
    if manifest.None? { return None; }
    ManifestSkipped(enc, dec, disk);
    var entries := manifest.value;
    if |entries| == 0 || |entries| > MAX_FILES + MAX_DIRECTORIES { return None; }
    var ok, index, files, dirs, total := CheckEntries(hash, disk, entries);
    if !ok || files == 0 { return None; }
    DeclaredAllOnDisk(hash, disk, entries, index);
    var seen;
    ok, seen := InspectDirectory(hash, false, disk, {MANIFEST_NAME}, None, index, {});
    if !ok { return None; }
    assert {} + Below(disk, {MANIFEST_NAME}, None) == index.Keys;
    if |seen| != |index| { return None; }
    r := Some(Snapshot(Hex(hash(enc(entries))), files, dirs, total, entries));
  }

  /** The published tree is exactly the declared one. */
  ghost predicate PublishedAs(hash: Hash, published: Disk, entries: seq<Entry>) {
    && (forall i :: 0 <= i < |entries| ==> entries[i].path in published && Matches(hash, published[entries[i].path], entries[i]))
    && (forall n :: n in published ==> Declared(entries, n))
  }

  lemma PublishedWalk(hash: Hash, published: Disk, entries: seq<Entry>, index: map<bytes, Entry>)
    requires Indexes(index, entries)
    ensures PublishedAs(hash, published, entries) <==>
            && Clean(hash, true, published, index, {}, Below(published, {}, None))
            && |Below(published, {}, None)| == |index.Keys|
  {
    var below := Below(published, {}, None);
    assert below == published.Keys;
    if PublishedAs(hash, published, entries) {
      forall n | n in published ensures Accepts(hash, true, published, index, n) {
        var j :| 0 <= j < |entries| && entries[j].path == n;
      }
      forall n | n in index ensures n in published { var j :| 0 <= j < |entries| && entries[j].path == n; }
      assert below == index.Keys;
    }
    if Clean(hash, true, published, index, {}, below) && |below| == |index.Keys| {
      assert below <= index.Keys;
      SameSize(below, index.Keys);
      forall i | 0 <= i < |entries|
        ensures entries[i].path in published && Matches(hash, published[entries[i].path], entries[i])
      {
        assert entries[i].path in below;
      }
    }
  }

  lemma SameSize(a: set<bytes>, b: set<bytes>)
    requires a <= b && |a| == |b|
    ensures a == b
  {
    assert |b - a| == 0 by { assert b == a + (b - a); }
  }

  method IndexEntries(entries: seq<Entry>) returns (index: map<bytes, Entry>)
    requires forall i, j :: 0 <= i < j < |entries| ==> entries[i].path != entries[j].path
    ensures Indexes(index, entries) && |index| <= |entries|
  {
    hide Indexes;
    index := map[];
    NoEntries();
    var i := 0;
    while i < |entries|
      invariant i <= |entries| && Indexes(index, entries[..i]) && |index| <= i
    {
      IndexesSnoc(index, entries[..i], entries[i]);
      assert entries[..i + 1] == entries[..i] + [entries[i]];
      index := index[entries[i].path := entries[i]];
      i := i + 1;
    }
    assert entries[..i] == entries;
  }

  lemma InspectableDistinct(hash: Hash, disk: Disk, entries: seq<Entry>)
    requires Inspectable(hash, disk, entries)
    ensures forall i, j :: 0 <= i < j < |entries| ==> entries[i].path != entries[j].path
  {
    forall i, j | 0 <= i < j < |entries| ensures entries[i].path != entries[j].path {
      assert Good(hash, disk, entries, j);
      assert entries[..j][i] == entries[i];
    }
  }

  /** ComparePublishedTree: the snapshot itself, exactly when the published tree is the snapshot's. */
  method ComparePublished(hash: Hash, enc: Encoder, dec: Decoder, disk: Disk, published: Disk)
    returns (r: Option<Snapshot>)
    requires Rooted(disk) && Rooted(published)
    ensures var m := Manifested(enc, dec, disk);
      && (r.Some? <==> m.Some? && Inspectable(hash, disk, m.value) && PublishedAs(hash, published, m.value))
      && (r.Some? ==> ByteCount(m.value) >= 0 && r.value == SnapshotOf(hash, enc, m.value))
  {
    hide Good, Declared, Rooted, Clean, Below, Indexes, PublishedAs;
    r := Inspect(hash, enc, dec, disk);
    if r.None? { return; }
    var entries := r.value.entries;
    InspectableDistinct(hash, disk, entries);
    var index := IndexEntries(entries);
    PublishedWalk(hash, published, entries, index);
    var ok, seen := InspectDirectory(hash, true, published, {}, None, index, {});
    assert {} + Below(published, {}, None) == Below(published, {}, None);
    if !ok || |seen| != |index.Keys| { return None; }
  }
}
