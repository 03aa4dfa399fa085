/**
 The whole path of imported files: a captured snapshot, carried back by the
 export stream under its own transaction directory, is accepted exactly when
 no two of its names collide after case folding, and then compares equal.
 */
module ImportRoundTrip {
  import opened Bytes
  import opened Paths
  import opened ImportSelection
  import opened ImportCapture
  import opened ImportManifest
  import opened ImportWalker
  import opened ImportShape
  import opened ImportInspect
  import opened ImportStaged
  import W = ExportWire
  import R = ExportReceiver
  import I = ExportItems
  import T = ExportTheory

  predicate ValidUuid(id: bytes) {
    && |id| == 36
    && forall i :: 0 <= i < 36 ==>
         if i == 8 || i == 13 || i == 18 || i == 23 then id[i] == 45 else 48 <= id[i] <= 57 || 97 <= id[i] <= 102
  }

  /** The guest directory that holds one import. */
  function TransactionDirectory(id: bytes): bytes {
    Ascii("boxwarden-import-") + id
  }

  /** Limits at least as wide as those of an import, plus the transaction directory. */
  predicate Roomy(o: R.Options) {
    && o.maxDirs as int > MAX_DIRECTORIES && o.maxFiles as int >= MAX_FILES
    && o.maxFile as int >= MAX_FILE_BYTES && o.maxTotal as int >= MAX_TOTAL_BYTES
  }

  function Below(top: bytes, name: bytes): bytes {
    top + [SLASH] + name
  }

  /** item carries object x under top, its bytes cut into legal chunks. */
  predicate Carries(o: R.Options, top: bytes, x: Object, item: W.Item) {
    match x
    case DirObject(name) => item == W.DirItem(Below(top, name))
    case FileObject(name, data) =>
      item.FileItem? && item.name == Below(top, name) && W.Concat(item.chunks) == data && I.LegalChunks(o, item.chunks)
  }

  predicate CarriesAll(o: R.Options, top: bytes, objects: seq<Object>, items: seq<W.Item>) {
    && |items| == |objects| + 1
    && items[0] == W.DirItem(top)
    && forall i :: 0 <= i < |objects| ==> Carries(o, top, objects[i], items[i + 1])
  }

  predicate NoFoldCollision(objects: seq<Object>) {
    forall i, j :: 0 <= i < j < |objects| ==> !SameButCase(objects[i].name, objects[j].name)
  }

  // ---- names ----

  lemma TransactionComponent(id: bytes)
    requires ValidUuid(id)
    ensures var top := TransactionDirectory(id);
      && |top| == 53 && R.ValidComponent(top) && SLASH !in top && R.ValidPath(top) && Parent(top).None?
  {
    var top, prefix := TransactionDirectory(id), Ascii("boxwarden-import-");
    assert forall i :: 0 <= i < |prefix| ==> SafeByte(prefix[i]);
    forall i | 0 <= i < |top| ensures SafeByte(top[i]) && top[i] != SLASH {
      if i >= |prefix| { assert top[i] == id[i - |prefix|]; }
    }
    assert Split(top, SLASH) == [top];
  }

  lemma ComponentFits(c: bytes)
    requires ValidComponent(c)
    ensures R.ValidComponent(c)
  {
  }

  lemma ImportPathFits(top: bytes, name: bytes)
    requires |top| == 53 && R.ValidComponent(top) && SLASH !in top && ValidSnapshotPath(name)
    ensures R.ValidPath(Below(top, name))
  {
    var path := Below(top, name);
    SplitHead(top, name, SLASH);
    var components := Split(path, SLASH);
    var rest := Split(name, SLASH);
    assert components == [top] + rest;
    forall i | 0 <= i < |components| ensures R.ValidComponent(components[i]) {
      if i > 0 { ComponentFits(rest[i - 1]); }
    }
    LastByte(name);
    assert path[0] == top[0] && path[|path| - 1] == name[|name| - 1];
  }

  lemma {:induction false} LastByteOfJoin(parts: seq<bytes>)
    requires |parts| >= 1 && forall i :: 0 <= i < |parts| ==> ValidComponent(parts[i])
    ensures |Join(parts, SLASH)| > 0 && Join(parts, SLASH)[|Join(parts, SLASH)| - 1] != SLASH
  {
    assert ValidComponent(parts[0]);
    if |parts| > 1 { LastByteOfJoin(parts[1..]); }
  }

  lemma LastByte(name: bytes)
    requires ValidSnapshotPath(name)
    ensures name[|name| - 1] != SLASH
  {
    JoinSplit(name, SLASH);
    LastByteOfJoin(Split(name, SLASH));
  }

  lemma BelowParent(top: bytes, name: bytes)
    requires SLASH !in top
    ensures Parent(Below(top, name)) == if Parent(name).None? then Some(top) else Some(Below(top, Parent(name).value))
  {
    var path := Below(top, name);
    if Parent(name).None? {
      ParentOfChild(top, name);
    } else {
      var p := Parent(name).value;
      var last := name[|p| + 1..];
      assert name == p + [SLASH] + last;
      assert path == Below(top, p) + [SLASH] + last;
      ParentOfChild(Below(top, p), last);
    }
  }

  lemma FoldBelow(top: bytes, a: bytes, b: bytes)
    ensures SameButCase(Below(top, a), Below(top, b)) <==> SameButCase(a, b)
    ensures !SameButCase(top, Below(top, a))
  {
    var x, y, n := Below(top, a), Below(top, b), |top| + 1;
    if SameButCase(x, y) {
      forall i | 0 <= i < |a| ensures SameLetter(a[i], b[i]) { assert SameLetter(x[n + i], y[n + i]); }
    }
    if SameButCase(a, b) {
      forall i | 0 <= i < |x| ensures SameLetter(x[i], y[i]) {
        if i >= n { assert SameLetter(a[i - n], b[i - n]); }
      }
    }
  }

  lemma BelowCovered(top: bytes, name: bytes, isDir: bool)
    ensures R.AdmitSelected(Below(top, name), isDir, [top])
  {
    assert Below(top, name)[..|top| + 1] == top + [SLASH];
    assert R.Covers([top][0], Below(top, name), isDir);
  }

  // ---- limits ----

  lemma {:induction false} CarriedCounts(hash: Hash, o: R.Options, top: bytes, objects: seq<Object>, items: seq<W.Item>)
    requires CarriesAll(o, top, objects, items)
    ensures T.Dirs(items) == 1 + DirCount(Entries(hash, objects))
    ensures T.Files(items) == FileCount(Entries(hash, objects))
    ensures W.TotalBytes(items) == ByteCount(Entries(hash, objects))
  {
    hide I.LegalChunks, Hex, W.Concat, Below;
    if objects == [] {
      assert items == [W.DirItem(top)];
      assert items[..0] == [] && items[1..] == [];
    } else {
      var n := |objects| - 1;
      var x, item := objects[n], items[n + 1];
      assert Carries(o, top, x, item);
      CarriedCounts(hash, o, top, objects[..n], items[..n + 1]);
      assert items == items[..n + 1] + [item];
      T.TotalBytesSnoc(items[..n + 1], item);
      var entries := Entries(hash, objects);
      assert entries[..n] == Entries(hash, objects[..n]) && entries[n] == EntryOf(hash, x);
    }
  }

  // ---- acceptance ----

  lemma CarriedParent(o: R.Options, top: bytes, objects: seq<Object>, items: seq<W.Item>, i: nat)
    requires CarriesAll(o, top, objects, items) && SLASH !in top && i < |objects| && ParentListed(objects, i)
    ensures Parent(items[i + 1].name).Some?
    ensures exists j :: 0 <= j < i + 1 && items[j] == W.DirItem(Parent(items[i + 1].name).value)
  {
    assert Carries(o, top, objects[i], items[i + 1]);
    BelowParent(top, objects[i].name);
    if Parent(objects[i].name).None? {
      assert items[0] == W.DirItem(top);
    } else {
      var j :| 0 <= j < i && objects[j] == DirObject(Parent(objects[i].name).value);
      assert Carries(o, top, objects[j], items[j + 1]);
    }
  }

  lemma CarriedNames(o: R.Options, top: bytes, objects: seq<Object>, items: seq<W.Item>, i: nat, j: nat)
    requires CarriesAll(o, top, objects, items) && i < j < |items|
    ensures SameButCase(items[i].name, items[j].name) <==>
            i > 0 && SameButCase(objects[i - 1].name, objects[j - 1].name)
  {
    assert Carries(o, top, objects[j - 1], items[j - 1 + 1]);
    if i == 0 {
      FoldBelow(top, objects[j - 1].name, objects[j - 1].name);
    } else {
      assert Carries(o, top, objects[i - 1], items[i - 1 + 1]);
      FoldBelow(top, objects[i - 1].name, objects[j - 1].name);
    }
  }

  predicate FreshName(items: seq<W.Item>, i: nat)
    requires i < |items|
  {
    forall j :: 0 <= j < i ==> !SameButCase(items[j].name, items[i].name)
  }

  /** Apart from case folding, the receiver has nothing against an imported object. */
  lemma CarriedAdmits(hash: Hash, o: R.Options, id: bytes, objects: seq<Object>, items: seq<W.Item>, i: nat)
    requires ValidUuid(id) && Captured(hash, objects) && CarriesAll(o, TransactionDirectory(id), objects, items)
    requires Roomy(o) && o.selected == [TransactionDirectory(id)] && i < |items|
    ensures T.Admits(o, items, i) <==> FreshName(items, i)
  {
    hide Captured, R.ValidPath, R.ValidComponent, TransactionDirectory, R.AdmitSelected, ValidSnapshotPath, SameButCase,
         T.SafePath, Parent, I.LegalChunks;
    var top := TransactionDirectory(id);
    TransactionComponent(id);
    T.ValidPathExactly(items[i].name);
    if i == 0 {
      SelectedItself(top);
    } else {
      CapturedAt(hash, objects, i - 1);
      assert Carries(o, top, objects[i - 1], items[i - 1 + 1]);
      ImportPathFits(top, objects[i - 1].name);
      CarriedParent(o, top, objects, items, i - 1);
      BelowCovered(top, objects[i - 1].name, items[i].DirItem?);
    }
  }

  lemma SelectedItself(top: bytes)
    ensures R.AdmitSelected(top, true, [top])
  {
    assert R.Covers([top][0], top, true);
  }

  lemma CapturedAt(hash: Hash, objects: seq<Object>, i: nat)
    requires Captured(hash, objects) && i < |objects|
    ensures ValidSnapshotPath(objects[i].name) && ParentListed(objects, i) && SizeOk(objects[i])
  {
  }

  lemma FoldFreshness(o: R.Options, top: bytes, objects: seq<Object>, items: seq<W.Item>)
    requires CarriesAll(o, top, objects, items)
    ensures NoFoldCollision(objects) <==> forall i :: 0 <= i < |items| ==> FreshName(items, i)
  {
    hide CarriesAll, SameButCase;
    assert |items| == |objects| + 1 by { CarriedLength(o, top, objects, items); }
    forall i, j | 0 <= i < j < |items|
      ensures SameButCase(items[i].name, items[j].name) <==>
              i > 0 && SameButCase(objects[i - 1].name, objects[j - 1].name)
    {
      CarriedNames(o, top, objects, items, i, j);
    }
    if forall i :: 0 <= i < |items| ==> FreshName(items, i) {
      forall i, j | 0 <= i < j < |objects| ensures !SameButCase(objects[i].name, objects[j].name) {
        assert FreshName(items, j + 1);
        assert !SameButCase(items[i + 1].name, items[j + 1].name);
      }
    }
  }

  lemma CarriedLength(o: R.Options, top: bytes, objects: seq<Object>, items: seq<W.Item>)
    requires CarriesAll(o, top, objects, items)
    ensures |items| == |objects| + 1
  {
  }

  lemma CarriedLimits(hash: Hash, o: R.Options, top: bytes, objects: seq<Object>, items: seq<W.Item>)
    requires Captured(hash, objects) && CarriesAll(o, top, objects, items) && Roomy(o)
    ensures T.Dirs(items) <= o.maxDirs as int && T.Files(items) <= o.maxFiles as int
    ensures W.TotalBytes(items) <= o.maxTotal as int
  {
    CarriedCounts(hash, o, top, objects, items);
    assert Entries(hash, objects)[..|objects|] == Entries(hash, objects);
    assert WithinLimits(Entries(hash, objects)[..|objects|]);
  }

  /** The receiver's object rules reduce to the absence of case-fold collisions. */
  lemma ExportableIffNoCollision(hash: Hash, o: R.Options, id: bytes, objects: seq<Object>, items: seq<W.Item>)
    requires ValidUuid(id) && Captured(hash, objects) && CarriesAll(o, TransactionDirectory(id), objects, items)
    requires Roomy(o) && o.selected == [TransactionDirectory(id)]
    ensures T.Admissible(o, items) <==> NoFoldCollision(objects)
    ensures T.Admissible(o, items) ==> T.Exportable(o, items)
  {
    hide T.Admits, Captured, Roomy, TransactionDirectory, NoFoldCollision, FreshName;
    var top := TransactionDirectory(id);
    CarriedLimits(hash, o, top, objects, items);
    FoldFreshness(o, top, objects, items);
    forall i | 0 <= i < |items| ensures T.Admits(o, items, i) <==> FreshName(items, i) {
      CarriedAdmits(hash, o, id, objects, items, i);
    }
    assert items[0].name == top;
    assert T.Listed(items, top);
  }

  // ---- a collision is refused ----

  predicate Sendable(o: R.Options, item: W.Item) {
    && 0 < |item.name| <= R.MAX_PATH_BYTES
    && (item.FileItem? ==> I.LegalChunks(o, item.chunks) && |W.Concat(item.chunks)| < 0x1_0000_0000_0000_0000)
  }

  lemma RunBadItem(hash: Hash, o: R.Options, st: R.State, item: W.Item, tail: bytes)
    requires Sendable(o, item) && !I.ItemOk(o, st, item)
    ensures R.Run(hash, o, st, None, W.EmitItem(hash, item, tail)).Refused?
  {
    hide R.PathProblem, R.AdmitSelected, W.EncodeRecord, W.DecodeRecord;
    match item
    case DirItem(name) =>
      I.RunEmit(hash, o, st, None, W.Record(W.DIRECTORY, |name|, 0, 0, ZERO_DIGEST), name, [], tail);
    case FileItem(name, chunks) =>
      var data := W.Concat(chunks);
      var rest := W.EmitChunks(chunks, W.EmitEnd(hash, data, tail));
      I.RunEmit(hash, o, st, None, W.Record(W.FILE, |name|, 0, |data|, ZERO_DIGEST), name, [], rest);
  }

  lemma {:induction false} RunBadItems(hash: Hash, o: R.Options, st: R.State, items: seq<W.Item>, tail: bytes)
    requires R.Sound(o, st, None) && !I.ItemsOk(o, st, items) && forall i :: 0 <= i < |items| ==> Sendable(o, items[i])
    ensures R.Run(hash, o, st, None, W.EmitItems(hash, items, tail)).Refused?
    decreases items
  {
    hide R.Run, I.ItemOk, Sendable, W.EmitItem;
    var rest := W.EmitItems(hash, items[1..], tail);
    assert Sendable(o, items[0]);
    if I.ItemOk(o, st, items[0]) {
      I.SoundAfterItem(o, st, items[0]);
      I.RunItem(hash, o, st, items[0], rest);
      RunBadItems(hash, o, I.AfterItem(st, items[0]), items[1..], tail);
    } else {
      RunBadItem(hash, o, st, items[0], rest);
    }
  }

  lemma CarriedSendable(hash: Hash, o: R.Options, id: bytes, objects: seq<Object>, items: seq<W.Item>, i: nat)
    requires ValidUuid(id) && Captured(hash, objects) && CarriesAll(o, TransactionDirectory(id), objects, items)
    requires i < |items|
    ensures Sendable(o, items[i])
  {
    hide Captured, TransactionDirectory, R.ValidComponent, I.LegalChunks;
    var top := TransactionDirectory(id);
    TransactionComponent(id);
    if i > 0 {
      CapturedAt(hash, objects, i - 1);
      assert Carries(o, top, objects[i - 1], items[i - 1 + 1]);
    }
  }

  /** The receiver accepts a returned import exactly when its names stay apart after case folding. */
  lemma AcceptedIffNoCollision(hash: Hash, o: R.Options, id: bytes, objects: seq<Object>, items: seq<W.Item>)
    requires ValidUuid(id) && Captured(hash, objects) && CarriesAll(o, TransactionDirectory(id), objects, items)
    requires R.ValidOptions(o) && Roomy(o) && o.selected == [TransactionDirectory(id)]
    ensures R.Verdict(hash, o, W.EncodeStream(hash, o.tx, items)).Complete? <==> NoFoldCollision(objects)
    ensures R.Verdict(hash, o, W.EncodeStream(hash, o.tx, items)).Complete? ==>
              T.IsTreeOf(R.Verdict(hash, o, W.EncodeStream(hash, o.tx, items)).tree, items)
  {
    hide R.Run, T.Admissible, Captured, TransactionDirectory, NoFoldCollision, CarriesAll, I.ItemsOk, Sendable,
         R.ValidOptions, W.EmitItems,
         W.EmitTerminal, I.AfterItems;
    ExportableIffNoCollision(hash, o, id, objects, items);
    T.ItemsOkMeaning(o, items);
    var stream := W.EncodeStream(hash, o.tx, items);
    if NoFoldCollision(objects) {
      T.SelectedPresentMeaning(o, items);
      I.AcceptsEncoding(hash, o, items);
    } else {
      forall i | 0 <= i < |items| ensures Sendable(o, items[i]) { CarriedSendable(hash, o, id, objects, items, i); }
      var tail := W.EmitTerminal(W.TotalBytes(items));
      RunBadItems(hash, o, R.INITIAL, items, tail);
      StreamBody(o, W.EmitItems(hash, items, tail));
    }
  }

  lemma StreamBody(o: R.Options, body: bytes)
    requires R.ValidOptions(o)
    ensures |W.StreamHeader(o.tx) + body| >= W.HEADER_SIZE && (W.StreamHeader(o.tx) + body)[W.HEADER_SIZE..] == body
  {
  }

  // ---- comparison ----

  function AsStored(x: R.Node): Stored {
    match x
    case Directory => StoredDir(true)
    case File(data) => StoredFile(data, true)
  }

  /** What lies below top in a published tree, as the comparison sees it. */
  function Subtree(tree: R.Tree, top: bytes): Disk {
    var below := set n | n in tree && HasPrefix(n, top + [SLASH]) :: n[|top| + 1..];
    map name | name in below && Below(top, name) in tree :: AsStored(tree[Below(top, name)])
  }

  lemma SubtreeLookup(tree: R.Tree, top: bytes, name: bytes)
    ensures name in Subtree(tree, top) <==> Below(top, name) in tree
    ensures name in Subtree(tree, top) ==> Subtree(tree, top)[name] == AsStored(tree[Below(top, name)])
  {
    assert Below(top, name)[|top| + 1..] == name && HasPrefix(Below(top, name), top + [SLASH]);
  }

  lemma CarriedAt(o: R.Options, top: bytes, objects: seq<Object>, items: seq<W.Item>, tree: R.Tree, i: nat)
    requires CarriesAll(o, top, objects, items) && T.IsTreeOf(tree, items) && i < |objects|
    ensures objects[i].name in Subtree(tree, top) && Subtree(tree, top)[objects[i].name] == StoredOf(objects[i])
  {
    hide Subtree, I.LegalChunks;
    assert Carries(o, top, objects[i], items[i + 1]);
    SubtreeLookup(tree, top, objects[i].name);
  }

  lemma CarriedOnly(o: R.Options, top: bytes, objects: seq<Object>, items: seq<W.Item>, tree: R.Tree,
        name: bytes) returns (i: nat)
    requires CarriesAll(o, top, objects, items) && T.IsTreeOf(tree, items) && name in Subtree(tree, top)
    ensures i < |objects| && objects[i].name == name
  {
    hide Subtree, I.LegalChunks;
    SubtreeLookup(tree, top, name);
    var k :| 0 <= k < |items| && items[k].name == Below(top, name);
    assert |Below(top, name)| > |top|;
    i := k - 1;
    assert Carries(o, top, objects[i], items[i + 1]);
    assert Below(top, name)[|top| + 1..] == name && Below(top, objects[i].name)[|top| + 1..] == objects[i].name;
  }

  lemma ReturnedMatches(hash: Hash, o: R.Options, top: bytes, objects: seq<Object>, items: seq<W.Item>, tree: R.Tree)
    requires Captured(hash, objects) && CarriesAll(o, top, objects, items) && T.IsTreeOf(tree, items)
    ensures Rooted(Subtree(tree, top)) && PublishedAs(hash, Subtree(tree, top), Entries(hash, objects))
  {
    hide Subtree, CarriesAll, T.IsTreeOf, ValidSnapshotPath, WithinLimits, Hex;
    var disk, entries := Subtree(tree, top), Entries(hash, objects);
    forall i | 0 <= i < |entries| ensures entries[i].path in disk && Matches(hash, disk[entries[i].path], entries[i]) {
      CarriedAt(o, top, objects, items, tree, i);
    }
    forall n | n in disk
      ensures Declared(entries, n)
      ensures Parent(n).Some? ==> Parent(n).value in disk && disk[Parent(n).value].StoredDir?
    {
      var i := CarriedOnly(o, top, objects, items, tree, n);
      assert entries[i].path == n;
      if Parent(n).Some? {
        assert ParentListed(objects, i);
        var j :| 0 <= j < i && objects[j] == DirObject(Parent(n).value);
        CarriedAt(o, top, objects, items, tree, j);
      }
    }
  }

  /**
   Imported files come back: the staged snapshot compared with what the
   receiver published from any legal stream of the same objects.
   */
  method CompareReturned(hash: Hash, enc: Encoder, dec: Decoder, o: R.Options, id: bytes, disk: Disk, stream: bytes,
                         ghost selection: Selection, ghost root: Node, ghost objects: seq<Object>, ghost items: seq<W.Item>)
    returns (r: Option<Snapshot>)
    requires root.Dir? && CaptureSelected(hash, enc, selection, root).Some?
    requires objects == Capture(Elements(Normalize(selection).value.excludes), root).value.objects
    requires Codec(enc, dec, Entries(hash, objects))
    requires disk == StagedDisk(enc, Entries(hash, objects), StageOf(objects))
    requires ValidUuid(id) && R.ValidOptions(o) && Roomy(o) && o.selected == [TransactionDirectory(id)]
    requires CarriesAll(o, TransactionDirectory(id), objects, items) && stream == W.EncodeStream(hash, o.tx, items)
    ensures NoFoldCollision(objects) ==> r == CaptureSelected(hash, enc, selection, root)
    ensures !NoFoldCollision(objects) ==> r.None?
  {
    hide Normalize, Capture, CaptureSelected, Captured, Rooted, Inspectable, StageOf, Manifested, R.ValidOptions,
         Roomy, CarriesAll,
         NoFoldCollision, T.IsTreeOf, PublishedAs, R.Verdict, Subtree, StagedDisk, W.EncodeStream;
    CapturedIsInspectable(hash, enc, dec, selection, root, objects);
    AcceptedIffNoCollision(hash, o, id, objects, items);
    var verdict := R.Verdict(hash, o, stream);
    if verdict.Refused? { return None; }
    ReturnedMatches(hash, o, TransactionDirectory(id), objects, items, verdict.tree);
    r := ComparePublished(hash, enc, dec, disk, Subtree(verdict.tree, TransactionDirectory(id)));
  }
}
