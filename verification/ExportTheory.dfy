/**
 The declarative reading of the receiver: which object lists may be exported,
 what the published tree is, and that a stream is accepted exactly when it
 encodes such a list.
 */
module ExportTheory {
  import opened Bytes
  import opened Paths
  import opened ExportWire
  import opened ExportReceiver
  import opened ExportItems

  function Dirs(items: seq<Item>): nat {
    if items == [] then 0 else Dirs(items[..|items| - 1]) + if items[|items| - 1].DirItem? then 1 else 0
  }

  function Files(items: seq<Item>): nat {
    if items == [] then 0 else Files(items[..|items| - 1]) + if items[|items| - 1].FileItem? then 1 else 0
  }

  function NodeOf(item: Item): Node {
    match item
    case DirItem(_) => Directory
    case FileItem(_, chunks) => File(Concat(chunks))
  }

  /** One to 64 letters, digits, dots, underscores and hyphens, but not one dot or two. */
  predicate SafePart(c: bytes) {
    && 1 <= |c| <= 64 && c != [46] && c != [46, 46]
    && forall i :: 0 <= i < |c| ==>
         48 <= c[i] <= 57 || 65 <= c[i] <= 90 || 97 <= c[i] <= 122 || c[i] == 45 || c[i] == 46 || c[i] == 95
  }

  /** At most 512 bytes and 16 safe parts. */
  predicate SafePath(name: bytes) {
    && 1 <= |name| <= 512 && |Split(name, 47)| <= 16
    && forall i :: 0 <= i < |Split(name, 47)| ==> SafePart(Split(name, 47)[i])
  }

  /** The path check accepts exactly the safe paths. */
  lemma ValidPathExactly(name: bytes)
    ensures ValidPath(name) <==> SafePath(name)
  {
    forall c ensures ValidComponent(c) <==> SafePart(c) { }
    if SafePath(name) { EdgesOfParts(name, SLASH); }
  }

  /** Object i may follow the objects before it. */
  predicate Admits(o: Options, items: seq<Item>, i: nat)
    requires i < |items|
  {
    var item := items[i];
    && SafePath(item.name)
    && (forall j :: 0 <= j < i ==> !SameButCase(items[j].name, item.name))
    && (Parent(item.name).Some? ==> exists j :: 0 <= j < i && items[j] == DirItem(Parent(item.name).value))
    && AdmitSelected(item.name, item.DirItem?, o.selected)
    && (item.FileItem? ==> |Concat(item.chunks)| <= o.maxFile as int && LegalChunks(o, item.chunks))
  }

  predicate Admissible(o: Options, items: seq<Item>) {
    && (forall i :: 0 <= i < |items| ==> Admits(o, items, i))
    && Dirs(items) <= o.maxDirs as int
    && Files(items) <= o.maxFiles as int
    && TotalBytes(items) <= o.maxTotal as int
  }

  predicate Listed(items: seq<Item>, name: bytes) {
    exists i :: 0 <= i < |items| && items[i].name == name
  }

  /** Admissible, and every selected path is among the objects. */
  predicate Exportable(o: Options, items: seq<Item>) {
    && Admissible(o, items)
    && forall s :: 0 <= s < |o.selected| ==> Listed(items, o.selected[s])
  }

  /** tree holds exactly the named objects. */
  ghost predicate IsTreeOf(tree: Tree, items: seq<Item>) {
    && (forall i :: 0 <= i < |items| ==> items[i].name in tree && tree[items[i].name] == NodeOf(items[i]))
    && (forall n :: n in tree ==> exists i :: 0 <= i < |items| && items[i].name == n)
  }

  ghost predicate SeenOf(seen: map<bytes, Entry>, items: seq<Item>) {
    && (forall i :: 0 <= i < |items| ==>
          Lower(items[i].name) in seen && seen[Lower(items[i].name)] == Entry(items[i].DirItem?, items[i].name))
    && (forall k :: k in seen ==> exists i :: 0 <= i < |items| && Lower(items[i].name) == k)
  }

  ghost predicate Represents(st: State, items: seq<Item>) {
    && SeenOf(st.seen, items)
    && IsTreeOf(st.tree, items)
    && st.dirs == Dirs(items) && st.files == Files(items) && st.total == TotalBytes(items)
  }

  // ---- the object machine and the declarative conditions agree ----

  lemma {:induction false} ItemsOkSnoc(o: Options, st: State, items: seq<Item>, x: Item)
    ensures ItemsOk(o, st, items + [x]) <==> ItemsOk(o, st, items) && ItemOk(o, AfterItems(st, items), x)
    ensures AfterItems(st, items + [x]) == AfterItem(AfterItems(st, items), x)
    decreases items
  {
    if items == [] {
      assert items + [x] == [x];
    } else {
      ItemsOkSnoc(o, AfterItem(st, items[0]), items[1..], x);
      assert (items + [x])[1..] == items[1..] + [x];
    }
  }

  lemma TotalBytesSnoc(items: seq<Item>, x: Item)
    ensures TotalBytes(items + [x]) == TotalBytes(items) + if x.FileItem? then |Concat(x.chunks)| else 0
  {
    var o := Options([], [], 0, 0, 0, 0, 0, 0);
    TotalAfterItems(INITIAL, items);
    TotalAfterItems(INITIAL, items + [x]);
    ItemsOkSnoc(o, INITIAL, items, x);
  }

  lemma PathProblemMeaning(seen: map<bytes, Entry>, items: seq<Item>, name: bytes)
    requires SeenOf(seen, items)
    ensures PathProblem(name, seen).None? <==>
              && SafePath(name)
              && (forall j :: 0 <= j < |items| ==> !SameButCase(items[j].name, name))
              && (Parent(name).Some? ==> exists j :: 0 <= j < |items| && items[j] == DirItem(Parent(name).value))
  {
    hide Lower, SameButCase, ValidPath, SafePath;
    ValidPathExactly(name);
    forall j | 0 <= j < |items| ensures Lower(items[j].name) == Lower(name) <==> SameButCase(items[j].name, name) {
      LowerExactly(items[j].name, name);
    }
    if Parent(name).Some? {
      var parent := Parent(name).value;
      if Lower(parent) in seen && seen[Lower(parent)] == Entry(true, parent) {
        var j :| 0 <= j < |items| && Lower(items[j].name) == Lower(parent);
        assert items[j] == DirItem(parent);
      }
    }
  }

  lemma AdmitsEarlier(o: Options, items: seq<Item>, x: Item, i: nat)
    requires i < |items|
    ensures Admits(o, items + [x], i) <==> Admits(o, items, i)
  {
    var all := items + [x];
    assert all[i] == items[i];
    assert forall j | 0 <= j < i :: all[j] == items[j];
  }

  lemma AdmitsLast(o: Options, st: State, items: seq<Item>, x: Item)
    requires SeenOf(st.seen, items)
    ensures Admits(o, items + [x], |items|) <==>
      && PathProblem(x.name, st.seen).None?
      && AdmitSelected(x.name, x.DirItem?, o.selected)
      && (x.FileItem? ==> |Concat(x.chunks)| <= o.maxFile as int && LegalChunks(o, x.chunks))
  {
    var all := items + [x];
    assert all[|items|] == x;
    assert forall j | 0 <= j < |items| :: all[j] == items[j];
    PathProblemMeaning(st.seen, items, x.name);
  }

  lemma AdmitsSnoc(o: Options, st: State, items: seq<Item>, x: Item)
    requires Admissible(o, items) && Represents(st, items)
    ensures ItemOk(o, st, x) <==> Admissible(o, items + [x])
  {
    hide SeenOf, IsTreeOf, Admits, PathProblem, AdmitSelected, LegalChunks;
    var all := items + [x];
    assert all[..|items|] == items;
    TotalBytesSnoc(items, x);
    AdmitsLast(o, st, items, x);
    forall i | 0 <= i < |items| ensures Admits(o, all, i) { AdmitsEarlier(o, items, x, i); }
    assert (forall i :: 0 <= i < |all| ==> Admits(o, all, i)) <==> Admits(o, all, |items|);
  }

  lemma SeenSnoc(seen: map<bytes, Entry>, items: seq<Item>, x: Item)
    requires SeenOf(seen, items)
    requires forall j :: 0 <= j < |items| ==> Lower(items[j].name) != Lower(x.name)
    ensures SeenOf(seen[Lower(x.name) := Entry(x.DirItem?, x.name)], items + [x])
  {
    var all := items + [x];
    var seen' := seen[Lower(x.name) := Entry(x.DirItem?, x.name)];
    forall k | k in seen' ensures exists i :: 0 <= i < |all| && Lower(all[i].name) == k {
      if k == Lower(x.name) {
        assert all[|items|] == x;
      } else {
        var i :| 0 <= i < |items| && Lower(items[i].name) == k;
        assert all[i] == items[i];
      }
    }
  }

  lemma TreeSnoc(tree: Tree, items: seq<Item>, x: Item)
    requires IsTreeOf(tree, items)
    requires forall j :: 0 <= j < |items| ==> Lower(items[j].name) != Lower(x.name)
    ensures IsTreeOf(tree[x.name := NodeOf(x)], items + [x])
  {
    var all := items + [x];
    var tree' := tree[x.name := NodeOf(x)];
    forall n | n in tree' ensures exists i :: 0 <= i < |all| && all[i].name == n {
      if n == x.name {
        assert all[|items|] == x;
      } else {
        var i :| 0 <= i < |items| && items[i].name == n;
        assert all[i] == items[i];
      }
    }
  }

  lemma RepresentsSnoc(o: Options, st: State, items: seq<Item>, x: Item)
    requires Represents(st, items)
    requires forall j :: 0 <= j < |items| ==> Lower(items[j].name) != Lower(x.name)
    ensures Represents(AfterItem(st, x), items + [x])
  {
    hide SeenOf, IsTreeOf, Lower;
    SeenSnoc(st.seen, items, x);
    TreeSnoc(st.tree, items, x);
    TotalBytesSnoc(items, x);
    assert (items + [x])[..|items|] == items;
  }

  lemma AdmissiblePrefix(o: Options, items: seq<Item>)
    requires items != [] && Admissible(o, items)
    ensures Admissible(o, items[..|items| - 1])
  {
    var init := items[..|items| - 1];
    assert items == init + [items[|items| - 1]];
    TotalBytesSnoc(init, items[|items| - 1]);
    assert forall i | 0 <= i < |init| :: Admits(o, items, i) ==> Admits(o, init, i);
  }

  lemma {:induction false} ItemsOkMeaning(o: Options, items: seq<Item>)
    ensures ItemsOk(o, INITIAL, items) <==> Admissible(o, items)
    ensures Admissible(o, items) ==> Represents(AfterItems(INITIAL, items), items)
  {
    if items != [] {
      var init, x := items[..|items| - 1], items[|items| - 1];
      assert items == init + [x];
      ItemsOkMeaning(o, init);
      ItemsOkSnoc(o, INITIAL, init, x);
      if Admissible(o, items) { AdmissiblePrefix(o, items); }
      if Admissible(o, init) {
        AdmitsSnoc(o, AfterItems(INITIAL, init), init, x);
        if Admissible(o, items) {
          assert Admits(o, items, |init|);
          forall j | 0 <= j < |init| ensures Lower(init[j].name) != Lower(x.name) {
            assert items[j] == init[j];
            LowerExactly(init[j].name, x.name);
          }
          RepresentsSnoc(o, AfterItems(INITIAL, init), init, x);
        }
      }
    }
  }

  lemma ListedMeaning(seen: map<bytes, Entry>, items: seq<Item>, name: bytes)
    requires SeenOf(seen, items)
    ensures Listed(items, name) <==> Lower(name) in seen && seen[Lower(name)].name == name
  {
    if Lower(name) in seen {
      var i :| 0 <= i < |items| && Lower(items[i].name) == Lower(name);
      assert seen[Lower(name)] == Entry(items[i].DirItem?, items[i].name);
    }
  }

  lemma SelectedPresentMeaning(o: Options, items: seq<Item>)
    requires Admissible(o, items)
    ensures SelectedPresent(o, AfterItems(INITIAL, items).seen) <==> Exportable(o, items)
  {
    ItemsOkMeaning(o, items);
    var seen := AfterItems(INITIAL, items).seen;
    forall s | 0 <= s < |o.selected|
      ensures Listed(items, o.selected[s]) <==>
              Lower(o.selected[s]) in seen && seen[Lower(o.selected[s])].name == o.selected[s]
    {
      ListedMeaning(seen, items, o.selected[s]);
    }
  }

  // ---- main results ----

  lemma TreeUnique(a: Tree, b: Tree, items: seq<Item>)
    requires IsTreeOf(a, items) && IsTreeOf(b, items)
    ensures a == b
  {
    forall n | n in a ensures n in b && a[n] == b[n] {
      var i :| 0 <= i < |items| && items[i].name == n;
    }
    forall n | n in b ensures n in a {
      var i :| 0 <= i < |items| && items[i].name == n;
    }
  }

  /** A stream is accepted exactly when it encodes an exportable object list, and the result is that list's tree. */
  lemma AcceptedExactly(hash: Hash, o: Options, stream: bytes, tree: Tree)
    requires ValidOptions(o)
    ensures Verdict(hash, o, stream) == Complete(tree) <==>
            exists items :: Exportable(o, items) && stream == EncodeStream(hash, o.tx, items) && IsTreeOf(tree, items)
  {
    if Verdict(hash, o, stream) == Complete(tree) {
      var items := AcceptedIsEncoding(hash, o, stream);
      ItemsOkMeaning(o, items);
      SelectedPresentMeaning(o, items);
      assert Exportable(o, items);
    }
    if items :| Exportable(o, items) && stream == EncodeStream(hash, o.tx, items) && IsTreeOf(tree, items) {
      ItemsOkMeaning(o, items);
      SelectedPresentMeaning(o, items);
      AcceptsEncoding(hash, o, items);
      TreeUnique(tree, AfterItems(INITIAL, items).tree, items);
    }
  }

  lemma ExtendStep(hash: Hash, o: Options, st: State, cur: Option<Active>, a: bytes, b: bytes)
    requires Run(hash, o, st, cur, a).Complete?
    ensures |a| >= RECORD_SIZE + DecodeRecord(a[..RECORD_SIZE]).pathLen
    ensures var rec := DecodeRecord(a[..RECORD_SIZE]); var name := a[RECORD_SIZE..][..rec.pathLen];
            var rest := a[RECORD_SIZE..][rec.pathLen..];
            && Run(hash, o, st, cur, a) == RunBody(hash, o, st, cur, rec, name, rest)
            && Run(hash, o, st, cur, a + b) == RunBody(hash, o, st, cur, rec, name, rest + b)
  {
    var rec := DecodeRecord(a[..RECORD_SIZE]);
    assert (a + b)[..RECORD_SIZE] == a[..RECORD_SIZE];
    assert (a + b)[RECORD_SIZE..] == a[RECORD_SIZE..] + b;
    var after := a[RECORD_SIZE..];
    assert (after + b)[..rec.pathLen] == after[..rec.pathLen];
    assert (after + b)[rec.pathLen..] == after[rec.pathLen..] + b;
  }

  lemma {:induction false} ExtensionRefused(hash: Hash, o: Options, st: State, cur: Option<Active>, a: bytes, b: bytes)
    requires Run(hash, o, st, cur, a).Complete? && b != []
    ensures Run(hash, o, st, cur, a + b) == Refused(TrailingBytes)
    decreases |a|
  {
    ExtendStep(hash, o, st, cur, a, b);
    var rec := DecodeRecord(a[..RECORD_SIZE]);
    var name, rest := a[RECORD_SIZE..][..rec.pathLen], a[RECORD_SIZE..][rec.pathLen..];
    if rec.kind == DIRECTORY {
      ExtensionRefused(hash, o, AddDirectory(st, name), None, rest, b);
    } else if rec.kind == FILE {
      ExtensionRefused(hash, o, BeginFile(st, name), Some(Active(name, rec.declared, [])), rest, b);
    } else if rec.kind == CHUNK {
      var n := rec.chunkLen;
      var g := Grow(st, cur.value, rest[..n]);
      ExtensionRefused(hash, o, g.0, Some(g.1), rest[n..], b);
      assert (rest + b)[..n] == rest[..n] && (rest + b)[n..] == rest[n..] + b;
    } else if rec.kind == FILE_END {
      ExtensionRefused(hash, o, EndFile(st, cur.value.name, cur.value.data), None, rest, b);
    }
  }

  /** No accepted stream is a proper prefix of an accepted stream. */
  lemma PrefixFree(hash: Hash, o: Options, stream: bytes, extension: bytes)
    requires Verdict(hash, o, stream).Complete?
    ensures Verdict(hash, o, stream + extension).Complete? <==> extension == []
  {
    if extension == [] {
      assert stream + extension == stream;
    } else {
      var long := stream + extension;
      assert long[..4] == stream[..4] && long[4..6] == stream[4..6] && long[6..HEADER_SIZE] == stream[6..HEADER_SIZE];
      assert long[HEADER_SIZE..] == stream[HEADER_SIZE..] + extension;
      ExtensionRefused(hash, o, INITIAL, None, stream[HEADER_SIZE..], extension);
    }
  }

  /** At or below a selected path, as far as a published file is concerned. */
  predicate BelowSelection(o: Options, name: bytes) {
    exists s :: 0 <= s < |o.selected| && (name == o.selected[s] || HasPrefix(name, o.selected[s] + [SLASH]))
  }

  predicate AboveSelection(o: Options, name: bytes) {
    exists s :: 0 <= s < |o.selected| && HasPrefix(o.selected[s], name + [SLASH])
  }

  /** What holds of every published tree. */
  ghost predicate WellShaped(o: Options, tree: Tree) {
    && (forall n :: n in tree ==> SafePath(n))
    && (forall n :: n in tree && Parent(n).Some? ==> Parent(n).value in tree && tree[Parent(n).value].Directory?)
    && (forall m, n :: m in tree && n in tree && SameButCase(m, n) ==> m == n)
    && (forall s :: 0 <= s < |o.selected| ==> o.selected[s] in tree)
    && (o.selected != [] ==>
          && (forall n :: n in tree && tree[n].File? ==> BelowSelection(o, n))
          && (forall n :: n in tree && tree[n].Directory? ==> BelowSelection(o, n) || AboveSelection(o, n)))
  }

  lemma AdmitSelectedMeaning(o: Options, name: bytes, isDir: bool)
    requires o.selected != [] && AdmitSelected(name, isDir, o.selected)
    ensures BelowSelection(o, name) || (isDir && AboveSelection(o, name))
  {
    var s :| 0 <= s < |o.selected| && Covers(o.selected[s], name, isDir);
    assert o.selected[s] == o.selected[s];
  }

  lemma SelectedInTree(items: seq<Item>, tree: Tree, name: bytes)
    requires IsTreeOf(tree, items) && Listed(items, name)
    ensures name in tree
  {
  }

  lemma TreeNode(o: Options, items: seq<Item>, tree: Tree, n: bytes) returns (i: nat)
    requires Exportable(o, items) && IsTreeOf(tree, items) && n in tree
    ensures i < |items| && items[i].name == n && tree[n] == NodeOf(items[i]) && Admits(o, items, i)
  {
    i :| 0 <= i < |items| && items[i].name == n;
  }

  lemma PublishedShape(hash: Hash, o: Options, stream: bytes, tree: Tree)
    requires ValidOptions(o) && Verdict(hash, o, stream) == Complete(tree)
    ensures WellShaped(o, tree)
  {
    AcceptedExactly(hash, o, stream, tree);
    var items: seq<Item> :| Exportable(o, items) && stream == EncodeStream(hash, o.tx, items) && IsTreeOf(tree, items);
    ExportedShape(o, items, tree);
  }

  lemma ExportedShape(o: Options, items: seq<Item>, tree: Tree)
    requires Exportable(o, items) && IsTreeOf(tree, items)
    ensures WellShaped(o, tree)
  {
    hide SafePath, SameButCase, Admissible, LegalChunks;
    forall n | n in tree
      ensures SafePath(n)
      ensures Parent(n).Some? ==> Parent(n).value in tree && tree[Parent(n).value].Directory?
      ensures o.selected != [] ==> BelowSelection(o, n) || (tree[n].Directory? && AboveSelection(o, n))
    {
      var i := TreeNode(o, items, tree, n);
      if o.selected != [] { AdmitSelectedMeaning(o, n, items[i].DirItem?); }
    }
    forall m, n | m in tree && n in tree && SameButCase(m, n) ensures m == n {
      var i := TreeNode(o, items, tree, m);
      var j := TreeNode(o, items, tree, n);
      if i > j { SameButCaseSymmetric(m, n); }
      assert i == j;
    }
    forall s | 0 <= s < |o.selected| ensures o.selected[s] in tree {
      assert Listed(items, o.selected[s]);
      SelectedInTree(items, tree, o.selected[s]);
    }
  }
}
