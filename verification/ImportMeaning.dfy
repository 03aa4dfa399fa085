/**
 What capture, re-admission and comparison decide, said of bytes, sizes and digests
 themselves: which sources are captured, and which trees count as the captured one.
 */
module ImportMeaning {
  import opened Bytes
  import opened Paths
  import opened ImportSelection
  import opened ImportCapture
  import opened ImportManifest
  import opened ImportWalker
  import opened ImportShape
  import opened ImportInspect
  import opened ImportStaged

  // ---- which sources are captured ----

  predicate LetterOrDigit(c: byte) {
    48 <= c <= 57 || 65 <= c <= 90 || 97 <= c <= 122
  }

  /** One to 63 bytes: a letter or digit, then letters, digits, dots, underscores and hyphens. */
  predicate PlainName(c: bytes) {
    && 1 <= |c| <= 63 && LetterOrDigit(c[0])
    && forall i :: 0 <= i < |c| ==> LetterOrDigit(c[i]) || c[i] == 45 || c[i] == 46 || c[i] == 95
  }

  lemma ValidComponentExactly(c: bytes)
    ensures ValidComponent(c) <==> PlainName(c)
    ensures ValidComponent(c) ==> c != MANIFEST_NAME
  {
    hide MANIFEST_NAME;
    ManifestFacts();
    if PlainName(c) { assert c[0] != DOT && Ascii(".git")[0] == DOT; }
  }

  /** An owned private file of at most 64 MiB, or such a directory less than eight deep, under a plain name of a short path. */
  predicate Capturable(f: Found) {
    && PlainName(f.component) && |f.name| <= 255
    && match f.node
       case File(data, admitted) => admitted && |data| <= 0x400_0000
       case Dir(_, admitted) => admitted && f.depth <= 7
       case Special => false
  }

  lemma FoundOkExactly(f: Found)
    ensures FoundOk(f) <==> Capturable(f)
  {
    hide MANIFEST_NAME, ValidComponent, PlainName;
    ValidComponentExactly(f.component);
  }

  /** The capture succeeds exactly for sources of capturable entries within 4096 files, 2048 directories and 256 MiB. */
  lemma CaptureRules(ex: set<bytes>, root: Node)
    requires root.Dir?
    ensures var found := Listing(ex, None, root, 0);
      Capture(ex, root).Some? <==>
      && (forall i :: 0 <= i < |found| ==> Capturable(found[i]))
      && Files(found) <= 4096 && Dirs(found) <= 2048 && Total(found) <= 0x1000_0000
  {
    hide Listing, Hits, Capture, FoundOk, Capturable;
    var found := Listing(ex, None, root, 0);
    CaptureExactly(ex, root);
    forall i | 0 <= i < |found| ensures FoundOk(found[i]) <==> Capturable(found[i]) { FoundOkExactly(found[i]); }
  }

  // ---- the manifest ----

  /** A snapshot names at least one file, a bounded manifest and its digest. */
  lemma SnapshotFacts(hash: Hash, enc: Encoder, selection: Selection, root: Node)
    requires root.Dir? && CaptureSelected(hash, enc, selection, root).Some?
    ensures var s := CaptureSelected(hash, enc, selection, root).value;
      s.files >= 1 && |enc(s.entries)| + 1 <= 0x40_0000 && s.digest == Hex(hash(enc(s.entries)))
  {
    hide Capture, Normalize, Hex;
  }

  /** An expected digest decides: the capture succeeds exactly if it would without one and has that digest. */
  lemma ExpectedDigestDecides(hash: Hash, enc: Encoder, excludes: seq<bytes>, expected: bytes, root: Node)
    requires root.Dir? && expected != []
    ensures var free := CaptureSelected(hash, enc, Selection(excludes, []), root);
      CaptureSelected(hash, enc, Selection(excludes, expected), root) ==
      if free.Some? && free.value.digest == expected then free else None
  {
    hide Capture, ValidExclusion, ClearOfPredecessors;
    var free := CaptureSelected(hash, enc, Selection(excludes, []), root);
    if free.Some? && free.value.digest == expected { assert HexDigest(expected); }
  }

  // ---- digests as text ----

  function DigitOf(c: byte): int {
    if c <= 57 then c - 48 else c - 87
  }

  lemma HexPair(d: digest, i: nat)
    requires i < 32
    ensures d[i] == 16 * DigitOf(Hex(d)[2 * i]) + DigitOf(Hex(d)[2 * i + 1])
  {
    assert (2 * i) % 2 == 0 && (2 * i) / 2 == i && (2 * i + 1) % 2 == 1 && (2 * i + 1) / 2 == i;
  }

  /** A digest is determined by its text. */
  lemma HexInjective(a: digest, b: digest)
    requires Hex(a) == Hex(b)
    ensures a == b
  {
    hide Hex;
    forall i | 0 <= i < 32 ensures a[i] == b[i] {
      HexPair(a, i);
      HexPair(b, i);
    }
  }

  // ---- which trees count as the captured one ----

  /** On disk as captured: a private directory, or a private file of the same length and digest. */
  predicate StillThere(hash: Hash, x: Object, there: Stored) {
    match x
    case DirObject(_) => there.StoredDir? && there.isPrivate
    case FileObject(_, data) =>
      there.StoredFile? && there.isPrivate && |there.data| == |data| && hash(there.data) == hash(data)
  }

  /** The disk, apart from skipped names, holds exactly the captured objects. */
  ghost predicate HoldsExactly(hash: Hash, objects: seq<Object>, disk: Disk, skip: set<bytes>) {
    && (forall i :: 0 <= i < |objects| ==> objects[i].name in disk && StillThere(hash, objects[i], disk[objects[i].name]))
    && (forall n :: n in disk && n !in skip ==> exists i :: 0 <= i < |objects| && objects[i].name == n)
  }

  lemma MatchesExactly(hash: Hash, x: Object, there: Stored)
    ensures Matches(hash, there, EntryOf(hash, x)) <==> StillThere(hash, x, there)
  {
    hide Hex;
    if x.FileObject? && there.StoredFile? && Hex(hash(there.data)) == Hex(hash(x.data)) {
      HexInjective(hash(there.data), hash(x.data));
    }
  }

  lemma DeclaredExactly(hash: Hash, objects: seq<Object>, n: bytes)
    ensures Declared(Entries(hash, objects), n) <==> exists i :: 0 <= i < |objects| && objects[i].name == n
  {
    var entries := Entries(hash, objects);
    forall i | 0 <= i < |objects| ensures entries[i].path == objects[i].name { }
    if i :| 0 <= i < |objects| && objects[i].name == n { assert entries[i].path == n; }
  }

  /** A published tree matches the manifest exactly if it holds exactly the captured objects. */
  lemma PublishedExactly(hash: Hash, objects: seq<Object>, published: Disk)
    ensures PublishedAs(hash, published, Entries(hash, objects)) <==> HoldsExactly(hash, objects, published, {})
  {
    hide Matches, StillThere, Declared, EntryOf;
    var entries := Entries(hash, objects);
    forall i | 0 <= i < |objects|
      ensures entries[i].path == objects[i].name
      ensures forall there :: Matches(hash, there, entries[i]) <==> StillThere(hash, objects[i], there)
    {
      EntryPath(hash, objects[i]);
      forall there ensures Matches(hash, there, entries[i]) <==> StillThere(hash, objects[i], there) {
        MatchesExactly(hash, objects[i], there);
      }
    }
    forall n | n in published
      ensures Declared(entries, n) <==> exists i :: 0 <= i < |objects| && objects[i].name == n
    {
      DeclaredExactly(hash, objects, n);
    }
  }

  lemma EntryPath(hash: Hash, x: Object)
    ensures EntryOf(hash, x).path == x.name
  {
  }

  /** For a captured list, all that remains to check of an entry is the object on disk. */
  lemma GoodExactly(hash: Hash, objects: seq<Object>, disk: Disk, i: nat)
    requires Captured(hash, objects) && i < |objects|
    ensures Good(hash, disk, Entries(hash, objects), i) <==>
            objects[i].name in disk && StillThere(hash, objects[i], disk[objects[i].name])
  {
    hide ValidSnapshotPath, WithinLimits, MANIFEST_NAME, Declared, DeclaredDirectory, ParentListed, Parent, StillThere, Matches;
    ManifestNotAPath(objects[i].name);
    NotDeclaredEarlier(hash, objects, i);
    if Parent(objects[i].name).Some? { ParentDeclaredEarlier(hash, objects, i); }
    if objects[i].name in disk { MatchesExactly(hash, objects[i], disk[objects[i].name]); }
  }

  lemma ParentDeclaredEarlier(hash: Hash, objects: seq<Object>, i: nat)
    requires Captured(hash, objects) && i < |objects| && Parent(objects[i].name).Some?
    ensures DeclaredDirectory(Entries(hash, objects)[..i], Parent(objects[i].name).value)
  {
    assert ParentListed(objects, i);
    ParentDeclared(hash, objects, i);
  }

  /** Re-admission accepts exactly the disks that still hold the captured objects. */
  lemma InspectableExactly(hash: Hash, objects: seq<Object>, disk: Disk)
    requires Captured(hash, objects) && FileCount(Entries(hash, objects)) > 0
    ensures Inspectable(hash, disk, Entries(hash, objects)) <==> HoldsExactly(hash, objects, disk, {MANIFEST_NAME})
  {
    hide Captured, Good, StillThere, Declared, MANIFEST_NAME, FileCount;
    var entries := Entries(hash, objects);
    EntryCountFits(hash, objects);
    SomeEntries(entries);
    forall i | 0 <= i < |objects|
      ensures Good(hash, disk, entries, i) <==> objects[i].name in disk && StillThere(hash, objects[i], disk[objects[i].name])
    {
      GoodExactly(hash, objects, disk, i);
    }
    forall n | n in disk
      ensures Declared(entries, n) <==> exists i :: 0 <= i < |objects| && objects[i].name == n
    {
      DeclaredExactly(hash, objects, n);
    }
  }

  lemma SomeEntries(entries: seq<Entry>)
    ensures FileCount(entries) > 0 ==> |entries| > 0
  {
  }

  /** A manifest is read exactly from its own private file, in its canonical text of 2 bytes to 4 MiB with a newline. */
  lemma ManifestedExactly(enc: Encoder, dec: Decoder, disk: Disk, entries: seq<Entry>)
    ensures Manifested(enc, dec, disk) == Some(entries) <==>
            && MANIFEST_NAME in disk && disk[MANIFEST_NAME] == StoredFile(enc(entries) + [10], true)
            && 1 <= |enc(entries)| <= 0x3f_ffff && dec(enc(entries)) == Some(entries)
  {
    hide MANIFEST_NAME;
    var raw := enc(entries) + [10];
    assert raw[|raw| - 1] == NEWLINE && raw[..|raw| - 1] == enc(entries);
  }

  /** disk carries the captured manifest, whatever else has become of it. */
  ghost predicate CarriesManifest(hash: Hash, enc: Encoder, dec: Decoder, objects: seq<Object>, disk: Disk) {
    && Codec(enc, dec, Entries(hash, objects)) && |enc(Entries(hash, objects))| + 1 <= MAX_MANIFEST_BYTES
    && MANIFEST_NAME in disk && disk[MANIFEST_NAME] == StoredFile(enc(Entries(hash, objects)) + [NEWLINE], true)
  }

  lemma ManifestRead(hash: Hash, enc: Encoder, dec: Decoder, objects: seq<Object>, disk: Disk)
    requires CarriesManifest(hash, enc, dec, objects, disk)
    ensures Manifested(enc, dec, disk) == Some(Entries(hash, objects))
  {
    hide MANIFEST_NAME;
    var raw := enc(Entries(hash, objects)) + [NEWLINE];
    assert raw[..|raw| - 1] == enc(Entries(hash, objects));
  }

  /**
   InspectSnapshot and ComparePublishedTree on a captured snapshot: the staged disk is re-admitted exactly if it
   still holds the captured objects, and the comparison succeeds exactly if the published tree holds them too.
   */
  method CompareCaptured(hash: Hash, enc: Encoder, dec: Decoder, disk: Disk, published: Disk, ghost objects: seq<Object>)
    returns (inspected: Option<Snapshot>, compared: Option<Snapshot>)
    requires Rooted(disk) && Rooted(published)
    requires Captured(hash, objects) && FileCount(Entries(hash, objects)) > 0 && CarriesManifest(hash, enc, dec, objects, disk)
    ensures inspected.Some? <==> HoldsExactly(hash, objects, disk, {MANIFEST_NAME})
    ensures compared.Some? <==>
            HoldsExactly(hash, objects, disk, {MANIFEST_NAME}) && HoldsExactly(hash, objects, published, {})
    ensures inspected.Some? ==> inspected.value.entries == Entries(hash, objects)
    ensures compared.Some? ==> compared == inspected
  {
    hide Rooted, Captured, Inspectable, PublishedAs, HoldsExactly, CarriesManifest, Manifested, MANIFEST_NAME,
         FileCount, ByteCount;
    ManifestRead(hash, enc, dec, objects, disk);
    InspectableExactly(hash, objects, disk);
    PublishedExactly(hash, objects, published);
    inspected := Inspect(hash, enc, dec, disk);
    compared := ComparePublished(hash, enc, dec, disk, published);
  }

  // ---- manifests of any origin ----

  predicate PlainPath(name: bytes) {
    && 1 <= |name| <= 255 && |Split(name, 47)| <= 9
    && forall i :: 0 <= i < |Split(name, 47)| ==> PlainName(Split(name, 47)[i])
  }

  lemma ValidSnapshotPathExactly(name: bytes)
    ensures ValidSnapshotPath(name) <==> PlainPath(name)
  {
    hide ValidComponent, PlainName;
    forall c ensures ValidComponent(c) <==> PlainName(c) { ValidComponentExactly(c); }
  }

  /** Entry i of a manifest, with its object on disk, as re-admission demands it. */
  predicate Sound(hash: Hash, disk: Disk, entries: seq<Entry>, i: nat)
    requires i < |entries|
  {
    var e := entries[i];
    && PlainPath(e.path)
    && (forall j :: 0 <= j < i ==> entries[j].path != e.path)
    && (Parent(e.path).Some? ==>
          exists j :: 0 <= j < i && entries[j].path == Parent(e.path).value && entries[j].kind == DirectoryKind)
    && e.path in disk
    && (e.kind == DirectoryKind || e.kind == FileKind)
    && (e.kind == DirectoryKind ==> e.size == 0 && e.sha == [] && disk[e.path] == StoredDir(true))
    && (e.kind == FileKind ==>
          && 0 <= e.size <= 0x400_0000
          && disk[e.path].StoredFile? && disk[e.path].isPrivate && |disk[e.path].data| == e.size
          && e.sha == Hex(hash(disk[e.path].data)))
    && DirCount(entries[..i + 1]) <= 2048 && FileCount(entries[..i + 1]) <= 4096 && ByteCount(entries[..i + 1]) <= 0x1000_0000
  }

  lemma GoodIsSound(hash: Hash, disk: Disk, entries: seq<Entry>, i: nat)
    requires i < |entries|
    ensures Good(hash, disk, entries, i) <==> Sound(hash, disk, entries, i)
  {
    hide ValidSnapshotPath, PlainPath, Hex, DirCount, FileCount, ByteCount, Parent, MANIFEST_NAME;
    var e, before := entries[i], entries[..i];
    ValidSnapshotPathExactly(e.path);
    if ValidSnapshotPath(e.path) { ManifestNotAPath(e.path); }
    assert Declared(before, e.path) <==> exists j :: 0 <= j < i && entries[j].path == e.path by {
      if j :| 0 <= j < i && entries[j].path == e.path { assert before[j] == entries[j]; }
    }
    if Parent(e.path).Some? {
      var p := Parent(e.path).value;
      if j :| 0 <= j < i && entries[j].path == p && entries[j].kind == DirectoryKind { assert before[j] == entries[j]; }
    }
  }

  /** Re-admission in full: the manifest's entries are sound, at least one is a file, and nothing else is on disk. */
  lemma InspectableMeans(hash: Hash, disk: Disk, entries: seq<Entry>)
    ensures Inspectable(hash, disk, entries) <==>
      && 1 <= |entries| <= 6144
      && (forall i :: 0 <= i < |entries| ==> Sound(hash, disk, entries, i))
      && FileCount(entries) >= 1
      && (forall n :: n in disk && n != MANIFEST_NAME ==> exists j :: 0 <= j < |entries| && entries[j].path == n)
  {
    hide Good, Sound, MANIFEST_NAME, FileCount;
    forall i | 0 <= i < |entries| ensures Good(hash, disk, entries, i) <==> Sound(hash, disk, entries, i) {
      GoodIsSound(hash, disk, entries, i);
    }
  }
}
