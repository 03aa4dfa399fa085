/** Selected captures: exclusions prune the tree, and a manifest pins the captured bytes. */
module ImportManifest {
  import opened Bytes
  import opened Paths
  import opened Sorting
  import opened ImportSelection
  import opened ImportCapture

  datatype Kind = DirectoryKind | FileKind | OtherKind(text: bytes)

  datatype Entry = Entry(path: bytes, kind: Kind, size: int, sha: bytes)

  /** The JSON text of a manifest, which the standard library writes. */
  type Encoder = seq<Entry> -> bytes

  datatype Snapshot = Snapshot(digest: bytes, files: nat, dirs: nat, total: nat, entries: seq<Entry>)

  function Hex(d: digest): (r: bytes)
    ensures HexDigest(r)
  {
    seq(64, i requires 0 <= i < 64 => HexDigit(if i % 2 == 0 then d[i / 2] / 16 else d[i / 2] % 16))
  }

  function EntryOf(hash: Hash, x: Object): Entry {
    match x
    case DirObject(name) => Entry(name, DirectoryKind, 0, [])
    case FileObject(name, data) => Entry(name, FileKind, |data|, Hex(hash(data)))
  }

  function Entries(hash: Hash, objects: seq<Object>): seq<Entry> {
    seq(|objects|, i requires 0 <= i < |objects| => EntryOf(hash, objects[i]))
  }

  /** What the walk leaves for the manifest: entries instead of contents. */
  datatype Summary = Summary(entries: seq<Entry>, files: nat, dirs: nat, total: nat, matched: set<bytes>)

  function SummaryOf(hash: Hash, st: Snap): Summary {
    Summary(Entries(hash, st.objects), st.files, st.dirs, st.total, st.matched)
  }

  /** The last checks before a snapshot is published or shown. */
  function Manifest(hash: Hash, enc: Encoder, excludes: seq<bytes>, expected: bytes, w: Summary): Option<Snapshot> {
    var raw := enc(w.entries);
    var digest := Hex(hash(raw));
    if exists i :: 0 <= i < |excludes| && excludes[i] !in w.matched then None
    else if w.files == 0 || |raw| + 1 > MAX_MANIFEST_BYTES then None
    else if expected != [] && expected != digest then None
    else Some(Snapshot(digest, w.files, w.dirs, w.total, w.entries))
  }

  function Elements(s: seq<bytes>): set<bytes> {
    set i | 0 <= i < |s| :: s[i]
  }

  ghost function CaptureSelected(hash: Hash, enc: Encoder, selection: Selection, root: Node): Option<Snapshot>
    requires root.Dir?
  {
    var s := Normalize(selection);
    if s.None? then None
    else
      var st := Capture(Elements(s.value.excludes), root);
      if st.None? then None else Manifest(hash, enc, s.value.excludes, s.value.digest, SummaryOf(hash, st.value))
  }

  // ---- exclusions are pruning ----

  /** The tree without the excluded paths and all that lies below them. */
  ghost function Prune(ex: set<bytes>, rel: Option<bytes>, node: Node): Node
    decreases node
  {
    if !node.Dir? then node
    else
      Dir(map n | n in node.children && Child(rel, n) !in ex :: Prune(ex, Some(Child(rel, n)), node.children[n]), node.admitted)
  }

  /** path names an object below node. */
  ghost predicate HasPath(rel: Option<bytes>, node: Node, path: bytes)
    decreases node, 0
  {
    node.Dir? && exists n :: n in node.children && EntryHasPath(rel, n, node.children[n], path)
  }

  ghost predicate EntryHasPath(rel: Option<bytes>, n: bytes, node: Node, path: bytes)
    decreases node, 1
  {
    Child(rel, n) == path || HasPath(Some(Child(rel, n)), node, path)
  }

  function Kept(ex: set<bytes>, rel: Option<bytes>, names: seq<bytes>): seq<bytes> {
    if names == [] then []
    else (if Child(rel, names[0]) in ex then [] else [names[0]]) + Kept(ex, rel, names[1..])
  }

  lemma {:induction false} KeptMembers(ex: set<bytes>, rel: Option<bytes>, names: seq<bytes>)
    requires IsSorted(names) && Distinct(names)
    ensures IsSorted(Kept(ex, rel, names)) && Distinct(Kept(ex, rel, names))
    ensures forall n :: n in Kept(ex, rel, names) <==> n in names && Child(rel, n) !in ex
  {
    if names != [] {
      var kept := Kept(ex, rel, names[1..]);
      KeptMembers(ex, rel, names[1..]);
      assert names == [names[0]] + names[1..];
      forall i | 0 <= i < |kept| ensures LessEq(names[0], kept[i]) && names[0] != kept[i] {
        assert kept[i] in names[1..];
        var j :| 0 <= j < |names[1..]| && names[1..][j] == kept[i];
        assert names[j + 1] == kept[i];
      }
    }
  }

  lemma {:induction false} DistinctMultiset(s: seq<bytes>, names: set<bytes>)
    requires Distinct(s) && forall n :: n in s <==> n in names
    ensures multiset(s) == multiset(names)
  {
    if s != [] {
      var rest := s[1..];
      assert s == [s[0]] + rest;
      assert s[0] !in rest by {
        forall i | 0 <= i < |rest| ensures rest[i] != s[0] { assert rest[i] == s[i + 1]; }
      }
      DistinctMultiset(rest, names - {s[0]});
      assert multiset(names) == multiset(names - {s[0]}) + multiset{s[0]};
    }
  }

  lemma PrunedNames(ex: set<bytes>, rel: Option<bytes>, node: Node)
    requires node.Dir?
    ensures Sorted(Prune(ex, rel, node).children.Keys) == Kept(ex, rel, Sorted(node.children.Keys))
  {
    hide Sorted;
    var keys := Prune(ex, rel, node).children.Keys;
    var names := Sorted(node.children.Keys);
    SortedMembers(node.children.Keys);
    KeptMembers(ex, rel, names);
    DistinctMultiset(Kept(ex, rel, names), keys);
    SortedUnique(Sorted(keys), Kept(ex, rel, names));
  }

  lemma {:induction false} PruneListing(ex: set<bytes>, rel: Option<bytes>, node: Node, depth: nat)
    ensures Listing({}, rel, Prune(ex, rel, node), depth) == Listing(ex, rel, node, depth)
    decreases node, 1, 0
  {
    hide Sorted;
    if node.Dir? {
      SortedMembers(node.children.Keys);
      PrunedNames(ex, rel, node);
      PruneList(ex, rel, node, Sorted(node.children.Keys), depth);
    }
  }

  lemma {:induction false} PruneList(ex: set<bytes>, rel: Option<bytes>, node: Node, names: seq<bytes>, depth: nat)
    requires node.Dir? && forall i :: 0 <= i < |names| ==> names[i] in node.children
    ensures forall i :: 0 <= i < |Kept(ex, rel, names)| ==> Kept(ex, rel, names)[i] in Prune(ex, rel, node).children
    ensures ListingOf({}, rel, Prune(ex, rel, node), Kept(ex, rel, names), depth) == ListingOf(ex, rel, node, names, depth)
    decreases node, 0, |names|
  {
    hide Listing;
    if names != [] {
      var pruned, kept := Prune(ex, rel, node), Kept(ex, rel, names);
      var child := Child(rel, names[0]);
      PruneList(ex, rel, node, names[1..], depth);
      if child in ex {
        assert kept == Kept(ex, rel, names[1..]);
      } else {
        assert kept[1..] == Kept(ex, rel, names[1..]);
        PruneListing(ex, Some(child), node.children[names[0]], depth + 1);
        assert pruned.children[names[0]] == Prune(ex, Some(child), node.children[names[0]]);
      }
    }
  }

  ghost predicate Apart(ex: set<bytes>) {
    forall p, q :: p in ex && q in ex ==> !HasPrefix(q, p + [SLASH])
  }

  lemma {:induction false} BelowHasPrefix(rel: bytes, node: Node, path: bytes)
    requires HasPath(Some(rel), node, path)
    ensures HasPrefix(path, rel + [SLASH])
    decreases node
  {
    var n :| n in node.children && EntryHasPath(Some(rel), n, node.children[n], path);
    var child := Child(Some(rel), n);
    assert child == (rel + [SLASH]) + n;
    if child != path {
      BelowHasPrefix(child, node.children[n], path);
      assert path[..|rel| + 1] == (child + [SLASH])[..|rel| + 1] == rel + [SLASH];
    }
  }

  /** Exclusions that do not overlap are met exactly when they name something in the tree. */
  lemma {:induction false} HitsMeaning(ex: set<bytes>, rel: Option<bytes>, node: Node)
    requires Apart(ex)
    ensures forall p :: p in Hits(ex, rel, node) <==> p in ex && HasPath(rel, node, p)
    decreases node, 1, 0
  {
    if node.Dir? {
      var names := Sorted(node.children.Keys);
      SortedMembers(node.children.Keys);
      HitsOfMeaning(ex, rel, node, names);
      forall p | p in ex
        ensures HasPath(rel, node, p) <==> exists i :: 0 <= i < |names| && EntryHasPath(rel, names[i], node.children[names[i]], p)
      {
        if HasPath(rel, node, p) {
          var n :| n in node.children && EntryHasPath(rel, n, node.children[n], p);
          assert n in names;
          var i :| 0 <= i < |names| && names[i] == n;
        }
      }
    }
  }

  lemma {:induction false} HitsOfMeaning(ex: set<bytes>, rel: Option<bytes>, node: Node, names: seq<bytes>)
    requires Apart(ex)
    requires node.Dir? && forall i :: 0 <= i < |names| ==> names[i] in node.children
    ensures forall p :: p in HitsOf(ex, rel, node, names) <==>
              p in ex && exists i :: 0 <= i < |names| && EntryHasPath(rel, names[i], node.children[names[i]], p)
    decreases node, 0, |names|
  {
    hide Hits, HasPath, EntryHasPath, Sorted;
    if names != [] {
      var rest := names[1..];
      HitsOfMeaning(ex, rel, node, rest);
      EntryHitsMeaning(ex, rel, names[0], node.children[names[0]]);
      forall p | p in ex
        ensures (exists i :: 0 <= i < |names| && EntryHasPath(rel, names[i], node.children[names[i]], p)) <==>
                || EntryHasPath(rel, names[0], node.children[names[0]], p)
                || exists i :: 0 <= i < |rest| && EntryHasPath(rel, rest[i], node.children[rest[i]], p)
      {
        if i :| 0 <= i < |names| && EntryHasPath(rel, names[i], node.children[names[i]], p) {
          if i > 0 { assert rest[i - 1] == names[i]; }
        }
        if i :| 0 <= i < |rest| && EntryHasPath(rel, rest[i], node.children[rest[i]], p) {
          assert names[i + 1] == rest[i];
        }
      }
    }
  }

  lemma {:induction false} EntryHitsMeaning(ex: set<bytes>, rel: Option<bytes>, component: bytes, node: Node)
    requires Apart(ex)
    ensures forall p :: p in EntryHits(ex, rel, component, node) <==> p in ex && EntryHasPath(rel, component, node, p)
    decreases node, 2, 0
  {
    hide Hits, HasPath, Sorted;
    var child := Child(rel, component);
    if child in ex {
      forall p | p in ex ensures !HasPath(Some(child), node, p) {
        if HasPath(Some(child), node, p) { BelowHasPrefix(child, node, p); }
      }
    } else {
      HitsMeaning(ex, Some(child), node);
    }
  }

  lemma {:induction false} NoHits(rel: Option<bytes>, node: Node)
    ensures Hits({}, rel, node) == {}
  {
    assert Apart({});
    HitsMeaning({}, rel, node);
  }

  ghost predicate AllPresent(root: Node, excludes: seq<bytes>) {
    forall i :: 0 <= i < |excludes| ==> HasPath(None, root, excludes[i])
  }

  lemma SameElements(a: seq<bytes>, b: seq<bytes>)
    requires multiset(a) == multiset(b)
    ensures Elements(a) == Elements(b)
  {
    forall p ensures p in Elements(a) <==> p in multiset(a) { }
    forall p ensures p in Elements(b) <==> p in multiset(b) { }
  }

  lemma NormalizedApart(selection: Selection)
    requires Acceptable(selection)
    ensures Normalize(selection).Some?
    ensures Elements(Normalize(selection).value.excludes) == Elements(selection.excludes)
    ensures Apart(Elements(selection.excludes))
  {
    hide Normalize;
    NormalizeExactly(selection);
    SameElements(Normalize(selection).value.excludes, selection.excludes);
    forall p, q | p in Elements(selection.excludes) && q in Elements(selection.excludes) ensures !HasPrefix(q, p + [SLASH]) {
      var i :| 0 <= i < |selection.excludes| && selection.excludes[i] == p;
      var j :| 0 <= j < |selection.excludes| && selection.excludes[j] == q;
      assert i != j ==> !Overlaps(selection.excludes[j], selection.excludes[i]);
    }
  }

  lemma PrunedCapture(ex: set<bytes>, root: Node)
    requires root.Dir? && Apart(ex)
    ensures Capture(ex, root).Some? <==> Capture({}, Prune(ex, None, root)).Some?
    ensures Capture(ex, root).Some? ==>
              var st := Capture(ex, root).value;
              Capture({}, Prune(ex, None, root)).value == st.(matched := {}) &&
              forall p :: p in st.matched <==> p in ex && HasPath(None, root, p)
  {
    hide Prune, Listing, Hits, Fits, Capture, Apart, HasPath;
    var pruned := Prune(ex, None, root);
    assert pruned.Dir? by { PrunedIsDirectory(ex, root); }
    CaptureExactly(ex, root);
    CaptureExactly({}, pruned);
    PruneListing(ex, None, root, 0);
    NoHits(None, pruned);
    HitsMeaning(ex, None, root);
    assert EMPTY.matched + {} == {};
  }

  lemma PrunedIsDirectory(ex: set<bytes>, root: Node)
    requires root.Dir?
    ensures Prune(ex, None, root).Dir?
  {
  }

  lemma ManifestPruned(hash: Hash, enc: Encoder, excludes: seq<bytes>, expected: bytes, st: Snap)
    ensures Manifest(hash, enc, excludes, expected, SummaryOf(hash, st)) ==
            if forall i :: 0 <= i < |excludes| ==> excludes[i] in st.matched
            then Manifest(hash, enc, [], expected, SummaryOf(hash, st.(matched := {}))) else None
  {
  }

  /** Capturing with exclusions is capturing the pruned tree, provided each exclusion names something. */
  lemma ExclusionIsPruning(hash: Hash, enc: Encoder, selection: Selection, root: Node)
    requires root.Dir?
    ensures CaptureSelected(hash, enc, selection, root) ==
            if Acceptable(selection) && AllPresent(root, selection.excludes)
            then CaptureSelected(hash, enc, Selection([], selection.digest), Prune(Elements(selection.excludes), None, root))
            else None
  {
    hide Prune, Capture, Manifest, HasPath, Acceptable, Normalize;
    NormalizeExactly(selection);
    var ex := Elements(selection.excludes);
    PrunedIsDirectory(ex, root);
    if Acceptable(selection) {
      NormalizedApart(selection);
      PlainSelection(selection.digest, selection);
      PrunedCapture(ex, root);
      var st := Capture(ex, root);
      if st.Some? {
        var n := Normalize(selection).value.excludes;
        PresentIffMatched(ex, root, n, selection.excludes, st.value);
        ManifestPruned(hash, enc, n, selection.digest, st.value);
      }
    }
  }

  lemma PlainSelection(digest: bytes, selection: Selection)
    requires Acceptable(selection) && digest == selection.digest
    ensures Normalize(Selection([], digest)) == Some(Selection([], digest)) && Elements([]) == {}
  {
  }

  lemma PresentIffMatched(ex: set<bytes>, root: Node, n: seq<bytes>, excludes: seq<bytes>, st: Snap)
    requires Elements(n) == ex == Elements(excludes)
    requires forall p :: p in st.matched <==> p in ex && HasPath(None, root, p)
    ensures AllPresent(root, excludes) <==> forall i :: 0 <= i < |n| ==> n[i] in st.matched
  {
    hide HasPath;
    forall i | 0 <= i < |n| ensures n[i] in ex { }
    forall i | 0 <= i < |excludes| ensures excludes[i] in ex { }
    if AllPresent(root, excludes) {
      forall i | 0 <= i < |n| ensures n[i] in st.matched {
        assert n[i] in Elements(excludes);
        var j :| 0 <= j < |excludes| && excludes[j] == n[i];
      }
    }
    if forall i :: 0 <= i < |n| ==> n[i] in st.matched {
      forall j | 0 <= j < |excludes| ensures HasPath(None, root, excludes[j]) {
        assert excludes[j] in Elements(n);
        var i :| 0 <= i < |n| && n[i] == excludes[j];
      }
    }
  }
}
