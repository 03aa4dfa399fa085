/** A captured snapshot on disk is re-admitted unchanged, and is published whole or not at all. */
module ImportStaged {
  import opened Bytes
  import opened Paths
  import opened ImportSelection
  import opened ImportCapture
  import opened ImportManifest
  import opened ImportWalker
  import opened ImportShape
  import opened ImportInspect

  predicate ParentListed(objects: seq<Object>, i: nat)
    requires i < |objects|
  {
    Parent(objects[i].name).None? || exists j :: 0 <= j < i && objects[j] == DirObject(Parent(objects[i].name).value)
  }

  predicate SizeOk(x: Object) {
    x.FileObject? ==> |x.data| <= MAX_FILE_BYTES
  }

  predicate DistinctNames(objects: seq<Object>) {
    forall i, j :: 0 <= i < j < |objects| ==> objects[i].name != objects[j].name
  }

  /** What every captured object list satisfies. */
  ghost predicate Captured(hash: Hash, objects: seq<Object>) {
    && (forall i :: 0 <= i < |objects| ==> ValidSnapshotPath(objects[i].name) && ParentListed(objects, i) && SizeOk(objects[i]))
    && DistinctNames(objects)
    && (forall i :: 0 <= i <= |objects| ==> WithinLimits(Entries(hash, objects)[..i]))
  }

  lemma {:induction false} CountsMatch(hash: Hash, found: seq<Found>)
    requires AllOk(found)
    ensures DirCount(Entries(hash, Objects(found))) == Dirs(found)
    ensures FileCount(Entries(hash, Objects(found))) == Files(found)
    ensures ByteCount(Entries(hash, Objects(found))) == Total(found)
  {
    if found != [] {
      var init, last := found[..|found| - 1], found[|found| - 1];
      assert found == init + [last];
      CountsConcat(init, [last]);
      AllOkConcat(init, [last]);
      CountsMatch(hash, init);
      assert FoundOk(last);
      assert [last][1..] == [];
      assert Files([last]) == if last.node.File? then 1 else 0;
      assert Dirs([last]) == if last.node.Dir? then 1 else 0;
      assert Total([last]) == if last.node.File? then |last.node.data| else 0;
      var entries := Entries(hash, Objects(found));
      assert entries[..|entries| - 1] == Entries(hash, Objects(init));
      assert entries[|entries| - 1] == EntryOf(hash, ObjectOf(last));
    }
  }

  lemma PrefixWithin(hash: Hash, found: seq<Found>, i: nat)
    requires Fits(EMPTY, found) && i <= |found|
    ensures WithinLimits(Entries(hash, Objects(found))[..i])
  {
    var a, b := found[..i], found[i..];
    assert found == a + b;
    CountsConcat(a, b);
    AllOkConcat(a, b);
    CountsMatch(hash, a);
    assert Entries(hash, Objects(found))[..i] == Entries(hash, Objects(a));
  }

  lemma ObjectParents(found: seq<Found>, i: nat)
    requires i < |found| && AllOk(found) && ParentEarlier(found, None, i)
    ensures ParentListed(Objects(found), i)
  {
    if Parent(found[i].name).Some? {
      var j :| 0 <= j < i && found[j].node.Dir? && Parent(found[i].name) == Some(found[j].name);
      assert Objects(found)[j] == DirObject(found[j].name);
    }
  }

  lemma ShapedDistinct(found: seq<Found>)
    requires Shaped(found, None)
    ensures DistinctNames(Objects(found))
  {
    hide ValidSnapshotPath, ParentEarlier;
  }

  lemma CaptureCounts(hash: Hash, ex: set<bytes>, root: Node)
    requires root.Dir? && Capture(ex, root).Some?
    ensures var st := Capture(ex, root).value;
      && st.files == FileCount(Entries(hash, st.objects)) && st.dirs == DirCount(Entries(hash, st.objects))
      && st.total == ByteCount(Entries(hash, st.objects))
  {
    hide Capture, Listing, Hits, Fits, Dirs, Files, Total, DirCount, FileCount, ByteCount, Entries, Objects, Shaped;
    CaptureShaped(ex, root);
    CaptureExactly(ex, root);
    CountsMatch(hash, Listing(ex, None, root, 0));
  }

  lemma CaptureGivesCaptured(hash: Hash, ex: set<bytes>, root: Node)
    requires root.Dir? && Capture(ex, root).Some?
    ensures var st := Capture(ex, root).value;
      && Captured(hash, st.objects)
      && st.files == FileCount(Entries(hash, st.objects)) && st.dirs == DirCount(Entries(hash, st.objects))
      && st.total == ByteCount(Entries(hash, st.objects))
  {
    hide Capture, ValidSnapshotPath, Listing, Hits, WithinLimits, ParentEarlier, ParentListed, Fits, Dirs, Files,
         Total, DirCount, FileCount, ByteCount;
    CaptureShaped(ex, root);
    var found := Listing(ex, None, root, 0);
    var objects := Objects(found);
    CaptureCounts(hash, ex, root);
    ShapedDistinct(found);
    forall i | 0 <= i < |objects| ensures ValidSnapshotPath(objects[i].name) && ParentListed(objects, i) && SizeOk(objects[i]) {
      ObjectParents(found, i);
      assert FoundOk(found[i]);
    }
    forall i | 0 <= i <= |objects| ensures WithinLimits(Entries(hash, objects)[..i]) { PrefixWithin(hash, found, i); }
  }

  // ---- the staged disk ----

  lemma {:induction false} StageLookup(objects: seq<Object>, i: nat)
    requires DistinctNames(objects) && i < |objects|
    ensures objects[i].name in StageOf(objects) && StageOf(objects)[objects[i].name] == StoredOf(objects[i])
  {
    var init := objects[..|objects| - 1];
    if i < |objects| - 1 {
      StageLookup(init, i);
      assert init[i] == objects[i];
    }
  }

  /** The staged tree with its manifest. */
  function StagedDisk(enc: Encoder, entries: seq<Entry>, stage: Disk): Disk {
    stage[MANIFEST_NAME := StoredFile(enc(entries) + [NEWLINE], true)]
  }

  lemma ManifestFacts()
    ensures |MANIFEST_NAME| > 0 && MANIFEST_NAME[0] == DOT && SLASH !in MANIFEST_NAME && Parent(MANIFEST_NAME).None?
  {
    assert MANIFEST_NAME[0] == DOT;
  }

  lemma ManifestNotAPath(name: bytes)
    requires ValidSnapshotPath(name)
    ensures name != MANIFEST_NAME
  {
    hide MANIFEST_NAME;
    ManifestFacts();
    if SLASH !in name {
      assert Split(name, SLASH) == [name];
      assert ValidComponent(Split(name, SLASH)[0]);
    }
  }

  lemma StagedRooted(hash: Hash, enc: Encoder, objects: seq<Object>)
    requires Captured(hash, objects)
    ensures Rooted(StagedDisk(enc, Entries(hash, objects), StageOf(objects)))
  {
    hide ValidSnapshotPath, WithinLimits, StageOf, MANIFEST_NAME;
    ManifestFacts();
    var stage := StageOf(objects);
    var disk := StagedDisk(enc, Entries(hash, objects), stage);
    forall n | n in disk && Parent(n).Some? ensures Parent(n).value in disk && disk[Parent(n).value].StoredDir? {
      StageKeys(objects, n);
      var i :| 0 <= i < |objects| && objects[i].name == n;
      assert ParentListed(objects, i);
      var j :| 0 <= j < i && objects[j] == DirObject(Parent(n).value);
      StageLookup(objects, j);
      ManifestNotAPath(objects[j].name);
    }
  }

  lemma StagedGood(hash: Hash, enc: Encoder, objects: seq<Object>, i: nat)
    requires Captured(hash, objects) && i < |objects|
    ensures Good(hash, StagedDisk(enc, Entries(hash, objects), StageOf(objects)), Entries(hash, objects), i)
  {
    hide ValidSnapshotPath, WithinLimits, StageOf, MANIFEST_NAME, Declared, DeclaredDirectory, ParentListed,
         HexDigest, Parent;
    StageLookup(objects, i);
    ManifestNotAPath(objects[i].name);
    NotDeclaredEarlier(hash, objects, i);
    if Parent(objects[i].name).Some? {
      assert ParentListed(objects, i);
      ParentDeclared(hash, objects, i);
    }
  }

  lemma NotDeclaredEarlier(hash: Hash, objects: seq<Object>, i: nat)
    requires DistinctNames(objects) && i < |objects|
    ensures !Declared(Entries(hash, objects)[..i], objects[i].name)
  {
    forall j | 0 <= j < i ensures Entries(hash, objects)[..i][j].path != objects[i].name {
      assert Entries(hash, objects)[j] == EntryOf(hash, objects[j]);
    }
  }

  lemma ParentDeclared(hash: Hash, objects: seq<Object>, i: nat)
    requires i < |objects| && ParentListed(objects, i) && Parent(objects[i].name).Some?
    ensures DeclaredDirectory(Entries(hash, objects)[..i], Parent(objects[i].name).value)
  {
    var j :| 0 <= j < i && objects[j] == DirObject(Parent(objects[i].name).value);
    assert Entries(hash, objects)[..i][j] == EntryOf(hash, objects[j]);
  }

  lemma StagedDeclared(hash: Hash, enc: Encoder, objects: seq<Object>, n: bytes)
    requires n in StagedDisk(enc, Entries(hash, objects), StageOf(objects)) && n != MANIFEST_NAME
    ensures Declared(Entries(hash, objects), n)
  {
    StageKeys(objects, n);
    var i :| 0 <= i < |objects| && objects[i].name == n;
    assert Entries(hash, objects)[i].path == n;
  }

  lemma {:induction false} CountBound(entries: seq<Entry>)
    requires forall i :: 0 <= i < |entries| ==> !entries[i].kind.OtherKind?
    ensures |entries| == DirCount(entries) + FileCount(entries)
  {
    if entries != [] { CountBound(entries[..|entries| - 1]); }
  }

  /** JSON reads back what it wrote, and writes something. */
  predicate Codec(enc: Encoder, dec: Decoder, entries: seq<Entry>) {
    |enc(entries)| >= 1 && dec(enc(entries)) == Some(entries)
  }

  /** The staged result of a capture is re-admitted with the same entries, counts and digest. */
  lemma CapturedIsInspectable(hash: Hash, enc: Encoder, dec: Decoder, selection: Selection, root: Node,
        objects: seq<Object>)
    requires root.Dir? && CaptureSelected(hash, enc, selection, root).Some?
    requires objects == Capture(Elements(Normalize(selection).value.excludes), root).value.objects
    requires Codec(enc, dec, Entries(hash, objects))
    ensures var entries := Entries(hash, objects); var disk := StagedDisk(enc, entries, StageOf(objects));
      && Captured(hash, objects)
      && Rooted(disk) && Manifested(enc, dec, disk) == Some(entries) && Inspectable(hash, disk, entries)
      && ByteCount(entries) >= 0
      && CaptureSelected(hash, enc, selection, root) == Some(SnapshotOf(hash, enc, entries))
  {
    hide Normalize, Capture, Good, Captured, Rooted, Declared, StageOf, WithinLimits, Hex;
    var ex := Elements(Normalize(selection).value.excludes);
    CaptureGivesCaptured(hash, ex, root);
    var entries := Entries(hash, objects);
    var disk := StagedDisk(enc, entries, StageOf(objects));
    StagedRooted(hash, enc, objects);
    StagedManifest(enc, dec, entries, StageOf(objects));
    forall i | 0 <= i < |entries| ensures Good(hash, disk, entries, i) { StagedGood(hash, enc, objects, i); }
    forall n | n in disk && n != MANIFEST_NAME ensures Declared(entries, n) { StagedDeclared(hash, enc, objects, n); }
    EntryCountFits(hash, objects);
  }

  lemma EntryCountFits(hash: Hash, objects: seq<Object>)
    requires Captured(hash, objects)
    ensures |Entries(hash, objects)| <= MAX_FILES + MAX_DIRECTORIES
  {
    var entries := Entries(hash, objects);
    CountBound(entries);
    assert entries[..|objects|] == entries;
  }

  lemma StagedManifest(enc: Encoder, dec: Decoder, entries: seq<Entry>, stage: Disk)
    requires Codec(enc, dec, entries) && |enc(entries)| + 1 <= MAX_MANIFEST_BYTES
    ensures Manifested(enc, dec, StagedDisk(enc, entries, stage)) == Some(entries)
  {
    var raw := enc(entries) + [NEWLINE];
    assert raw[..|raw| - 1] == enc(entries);
  }

  // ---- publication ----

  datatype Trouble = NoTrouble | BeforePublication | ParentSync

  datatype CaptureResult = Refused | Published(snapshot: Snapshot) | Uncertain(snapshot: Snapshot)

  class StagingParent {
    var snapshots: map<bytes, Disk>

    constructor ()
      ensures snapshots == map[]
    {
      snapshots := map[];
    }

    /** CaptureSelectedSource: the whole snapshot appears under its transaction name, or nothing does. */
    method Capture(hash: Hash, enc: Encoder, tx: bytes, selection: Selection, root: Node, trouble: Trouble)
      returns (r: CaptureResult, ghost objects: seq<Object>)
      requires root.Dir?
      modifies this
      ensures r.Refused? <==>
        tx in old(snapshots) || CaptureSelected(hash, enc, selection, root).None? || trouble.BeforePublication?
      ensures r.Refused? ==> snapshots == old(snapshots)
      ensures !r.Refused? ==>
        && CaptureSelected(hash, enc, selection, root) == Some(r.snapshot)
        && (r.Uncertain? <==> trouble.ParentSync?)
        && objects == ImportCapture.Capture(Elements(Normalize(selection).value.excludes), root).value.objects
        && snapshots == old(snapshots)[tx := StagedDisk(enc, Entries(hash, objects), StageOf(objects))]
    {
      objects := [];
      if tx in snapshots { return Refused, []; }
      var found, stage;
      found, stage, objects := Walk(hash, enc, selection, root, true);
      if found.None? || trouble.BeforePublication? { return Refused, []; }
      snapshots := snapshots[tx := StagedDisk(enc, found.value.entries, stage)];
      r := if trouble.ParentSync? then Uncertain(found.value) else Published(found.value);
    }

    /** Capture, then re-admit: the same snapshot, and the same digest a preview shows. */
    method CaptureThenInspect(hash: Hash, enc: Encoder, dec: Decoder, tx: bytes, selection: Selection, root: Node)
      returns (captured: CaptureResult, inspected: Option<Snapshot>, previewed: Option<Snapshot>)
      requires root.Dir? && tx !in snapshots
      requires CaptureSelected(hash, enc, selection, root).Some? ==>
        Codec(enc, dec, CaptureSelected(hash, enc, selection, root).value.entries)
      modifies this
      ensures captured.Published? ==> inspected == Some(captured.snapshot)
      ensures previewed == if captured.Published? then Some(captured.snapshot) else None
    {
      hide ImportCapture.Capture, Normalize, Captured, Rooted, Inspectable, StageOf, Manifested;
      inspected := None;
      previewed := Preview(hash, enc, selection, root);
      ghost var objects;
      captured, objects := Capture(hash, enc, tx, selection, root, NoTrouble);
      if captured.Published? {
        CapturedIsInspectable(hash, enc, dec, selection, root, objects);
        inspected := Inspect(hash, enc, dec, snapshots[tx]);
      }
    }
  }
}
