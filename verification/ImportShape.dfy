/** The shape of every captured listing: valid distinct names, each below a directory listed before it. */
module ImportShape {
  import opened Bytes
  import opened Paths
  import opened Sorting
  import opened ImportSelection
  import opened ImportCapture
  import opened ImportWalker

  predicate ValidSnapshotPath(name: bytes) {
    && 0 < |name| <= MAX_PATH_BYTES
    && |Split(name, SLASH)| <= MAX_DEPTH + 1
    && forall i :: 0 <= i < |Split(name, SLASH)| ==> ValidComponent(Split(name, SLASH)[i])
  }

  /** rel names a directory at the given depth. */
  predicate At(rel: Option<bytes>, depth: nat) {
    if rel.None? then depth == 0
    else |Split(rel.value, SLASH)| == depth && forall i :: 0 <= i < depth ==> ValidComponent(Split(rel.value, SLASH)[i])
  }

  lemma ChildPath(rel: Option<bytes>, component: bytes, depth: nat)
    requires At(rel, depth) && ValidComponent(component)
    ensures At(Some(Child(rel, component)), depth + 1) && Parent(Child(rel, component)) == rel
  {
    SafeHasNoSlash(component);
    assert Split(component, SLASH) == [component];
    if rel.Some? {
      SplitConcat(rel.value, component, SLASH);
      ParentOfChild(rel.value, component);
    }
  }

  predicate ParentEarlier(found: seq<Found>, rel: Option<bytes>, i: nat)
    requires i < |found|
  {
    || Parent(found[i].name) == rel
    || exists j :: 0 <= j < i && found[j].node.Dir? && Parent(found[i].name) == Some(found[j].name)
  }

  ghost predicate Shaped(found: seq<Found>, rel: Option<bytes>) {
    && (forall i :: 0 <= i < |found| ==> ValidSnapshotPath(found[i].name) && ParentEarlier(found, rel, i))
    && (forall i, j :: 0 <= i < j < |found| ==> found[i].name != found[j].name)
  }

  predicate Disjoint(a: seq<Found>, b: seq<Found>) {
    forall i, j :: 0 <= i < |a| && 0 <= j < |b| ==> a[i].name != b[j].name
  }

  lemma ShapedConcat(a: seq<Found>, b: seq<Found>, rel: Option<bytes>)
    requires Shaped(a, rel) && Shaped(b, rel) && Disjoint(a, b)
    ensures Shaped(a + b, rel)
  {
    hide ValidSnapshotPath;
    var all := a + b;
    forall i | 0 <= i < |all| ensures ValidSnapshotPath(all[i].name) && ParentEarlier(all, rel, i) {
      if i < |a| {
        assert ParentEarlier(a, rel, i);
        EarlierStays(a, b, rel, i);
      } else {
        assert ParentEarlier(b, rel, i - |a|);
        EarlierShifts(a, b, rel, i - |a|);
      }
    }
  }

  lemma EarlierStays(a: seq<Found>, b: seq<Found>, rel: Option<bytes>, i: nat)
    requires i < |a| && ParentEarlier(a, rel, i)
    ensures ParentEarlier(a + b, rel, i)
  {
    if Parent(a[i].name) != rel {
      var j :| 0 <= j < i && a[j].node.Dir? && Parent(a[i].name) == Some(a[j].name);
      assert (a + b)[j] == a[j];
    }
  }

  lemma EarlierShifts(a: seq<Found>, b: seq<Found>, rel: Option<bytes>, i: nat)
    requires i < |b| && ParentEarlier(b, rel, i)
    ensures ParentEarlier(a + b, rel, |a| + i)
  {
    if Parent(b[i].name) != rel {
      var j :| 0 <= j < i && b[j].node.Dir? && Parent(b[i].name) == Some(b[j].name);
      assert (a + b)[|a| + j] == b[j];
    }
  }

  lemma {:induction false} ListingShaped(ex: set<bytes>, rel: Option<bytes>, node: Node, depth: nat)
    requires At(rel, depth) && depth <= MAX_DEPTH && AllOk(Listing(ex, rel, node, depth))
    ensures Shaped(Listing(ex, rel, node, depth), rel)
    decreases node, 1, 0
  {
    hide Sorted;
    if node.Dir? {
      SortedMembers(node.children.Keys);
      DistinctSorted(node);
      ListShaped(ex, rel, node, Sorted(node.children.Keys), depth);
    }
  }

  lemma {:induction false} ListShaped(ex: set<bytes>, rel: Option<bytes>, node: Node, names: seq<bytes>, depth: nat)
    requires node.Dir? && forall k :: 0 <= k < |names| ==> names[k] in node.children
    requires Distinct(names)
    requires At(rel, depth) && depth <= MAX_DEPTH && AllOk(ListingOf(ex, rel, node, names, depth))
    ensures Shaped(ListingOf(ex, rel, node, names, depth), rel)
    decreases node, 0, |names|
  {
    hide At, Shaped;
    if names == [] {
      assert Shaped([], rel) by { NothingShaped(rel); }
    } else {
      var a := EntryListing(ex, rel, names[0], node.children[names[0]], depth);
      var b := ListingOf(ex, rel, node, names[1..], depth);
      AllOkConcat(a, b);
      EntryShaped(ex, rel, names[0], node.children[names[0]], depth);
      DistinctRest(names);
      ListShaped(ex, rel, node, names[1..], depth);
      forall i, j | 0 <= i < |a| && 0 <= j < |b| ensures a[i].name != b[j].name {
        EntriesApart(ex, rel, node, names, depth, i, j);
      }
      ShapedConcat(a, b, rel);
    }
  }

  lemma NothingShaped(rel: Option<bytes>)
    ensures Shaped([], rel)
  {
  }

  /** Which entry of a directory a listed object belongs to. */
  lemma {:induction false} ListOrigin(ex: set<bytes>, rel: Option<bytes>, node: Node, names: seq<bytes>, depth: nat,
        i: nat) returns (k: nat)
    requires node.Dir? && forall k :: 0 <= k < |names| ==> names[k] in node.children
    requires AllOk(ListingOf(ex, rel, node, names, depth)) && i < |ListingOf(ex, rel, node, names, depth)|
    ensures k < |names| && ValidComponent(names[k])
    ensures AtOrBelow(ListingOf(ex, rel, node, names, depth)[i].name, Child(rel, names[k]))
    decreases |names|
  {
    var a := EntryListing(ex, rel, names[0], node.children[names[0]], depth);
    var b := ListingOf(ex, rel, node, names[1..], depth);
    AllOkConcat(a, b);
    if i < |a| {
      assert FoundOk(a[0]);
      EntryBelow(ex, rel, names[0], node.children[names[0]], depth, i);
      k := 0;
    } else {
      k := ListOrigin(ex, rel, node, names[1..], depth, i - |a|);
      k := k + 1;
    }
  }

  lemma EntriesApart(ex: set<bytes>, rel: Option<bytes>, node: Node, names: seq<bytes>, depth: nat, i: nat, j: nat)
    requires node.Dir? && forall k :: 0 <= k < |names| ==> names[k] in node.children
    requires names != [] && Distinct(names) && AllOk(ListingOf(ex, rel, node, names, depth))
    requires i < |EntryListing(ex, rel, names[0], node.children[names[0]], depth)|
    requires j < |ListingOf(ex, rel, node, names[1..], depth)|
    ensures EntryListing(ex, rel, names[0], node.children[names[0]], depth)[i].name !=
            ListingOf(ex, rel, node, names[1..], depth)[j].name
  {
    hide Listing, ValidComponent;
    var a := EntryListing(ex, rel, names[0], node.children[names[0]], depth);
    var b := ListingOf(ex, rel, node, names[1..], depth);
    AllOkConcat(a, b);
    assert FoundOk(a[0]);
    SafeHasNoSlash(names[0]);
    EntryBelow(ex, rel, names[0], node.children[names[0]], depth, i);
    var k := ListOrigin(ex, rel, node, names[1..], depth, j);
    SafeHasNoSlash(names[1..][k]);
    assert names[1..][k] == names[k + 1];
    SiblingsApart(rel, names[0], names[k + 1], a[i].name);
  }

  lemma HeadAt(f: Found, rel: Option<bytes>)
    requires FoundOk(f) && At(rel, f.depth) && f.depth <= MAX_DEPTH && f.name == Child(rel, f.component)
    ensures ValidSnapshotPath(f.name) && Parent(f.name) == rel && At(Some(f.name), f.depth + 1)
    ensures f.node.Dir? ==> f.depth < MAX_DEPTH
  {
    ChildPath(rel, f.component, f.depth);
  }

  lemma {:induction false} EntryShaped(ex: set<bytes>, rel: Option<bytes>, component: bytes, node: Node, depth: nat)
    requires At(rel, depth) && depth <= MAX_DEPTH && AllOk(EntryListing(ex, rel, component, node, depth))
    ensures Shaped(EntryListing(ex, rel, component, node, depth), rel)
    decreases node, 2, 0
  {
    hide At, Listing, Shaped, ValidSnapshotPath, Under, FoundOk, ValidComponent, Child, AtOrBelow, Parent;
    var child := Child(rel, component);
    if child in ex {
      NothingShaped(rel);
    } else {
      var f := Found(component, child, depth, Bare(node));
      var below := Listing(ex, Some(child), node, depth + 1);
      AllOkConcat([f], below);
      assert FoundOk([f][0]);
      HeadAt(f, rel);
      assert node.Dir? <==> f.node.Dir?;
      if node.Dir? {
        ListingShaped(ex, Some(child), node, depth + 1);
        forall i | 0 <= i < |below| ensures Under(below[i].name, Some(child)) {
          ListingUnder(ex, Some(child), node, depth + 1, i);
        }
      } else {
        NothingBelow(ex, Some(child), node, depth + 1);
        NothingShaped(Some(child));
      }
      HeadShaped(f, below, rel);
    }
  }

  lemma HeadEarlier(f: Found, below: seq<Found>, rel: Option<bytes>, i: nat)
    requires i < |below| && f.node.Dir? && ParentEarlier(below, Some(f.name), i)
    ensures ParentEarlier([f] + below, rel, i + 1)
  {
    var all := [f] + below;
    assert all[i + 1] == below[i];
    if Parent(below[i].name) == Some(f.name) {
      assert all[0] == f;
    } else {
      var j :| 0 <= j < i && below[j].node.Dir? && Parent(below[i].name) == Some(below[j].name);
      assert all[j + 1] == below[j];
    }
  }

  lemma HeadShaped(f: Found, below: seq<Found>, rel: Option<bytes>)
    requires ValidSnapshotPath(f.name) && Parent(f.name) == rel && (below != [] ==> f.node.Dir?)
    requires Shaped(below, Some(f.name)) && forall i :: 0 <= i < |below| ==> Under(below[i].name, Some(f.name))
    ensures Shaped([f] + below, rel)
  {
    hide ValidSnapshotPath, ParentEarlier, Under;
    var all := [f] + below;
    forall i | 0 <= i < |all| ensures ValidSnapshotPath(all[i].name) && ParentEarlier(all, rel, i) {
      if i > 0 {
        assert all[i] == below[i - 1];
        HeadEarlier(f, below, rel, i - 1);
      } else {
        TopEarlier(all, rel);
      }
    }
    forall i, j | 0 <= i < j < |all| ensures all[i].name != all[j].name {
      assert all[j] == below[j - 1];
      if i == 0 { NotUnderItself(below[j - 1].name, f.name); }
    }
  }

  lemma TopEarlier(found: seq<Found>, rel: Option<bytes>)
    requires found != [] && Parent(found[0].name) == rel
    ensures ParentEarlier(found, rel, 0)
  {
  }

  lemma NotUnderItself(name: bytes, top: bytes)
    requires Under(name, Some(top))
    ensures name != top
  {
  }

  /** Every successful capture has a well-shaped listing. */
  lemma CaptureShaped(ex: set<bytes>, root: Node)
    requires root.Dir? && Capture(ex, root).Some?
    ensures Shaped(Listing(ex, None, root, 0), None) && AllOk(Listing(ex, None, root, 0))
    ensures Capture(ex, root).value.objects == Objects(Listing(ex, None, root, 0))
    ensures Fits(EMPTY, Listing(ex, None, root, 0))
  {
    hide Shaped, Listing, Hits;
    CaptureExactly(ex, root);
    ListingShaped(ex, None, root, 0);
    assert EMPTY.objects + Objects(Listing(ex, None, root, 0)) == Objects(Listing(ex, None, root, 0));
  }
}
