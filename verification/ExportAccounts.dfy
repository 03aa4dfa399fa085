/** Byte accounting in every state the receiver can reach. */
module ExportAccounts {
  import opened Bytes
  import opened Paths
  import opened ExportWire
  import opened ExportReceiver

  type Point = (State, Option<Active>)

  /** The receiver accepts one record, with its path and its payload, and goes on. */
  predicate Takes(hash: Hash, o: Options, p: Point, rec: Record, name: bytes, payload: bytes, p': Point) {
    var (st, cur) := p;
    && HeaderProblem(o, rec).None? && |name| == rec.pathLen && BodyProblem(hash, o, st, cur, rec, name).None?
    && if rec.kind == DIRECTORY then p' == (AddDirectory(st, name), None)
       else if rec.kind == FILE then p' == (BeginFile(st, name), Some(Active(name, rec.declared, [])))
       else if rec.kind == CHUNK then
         |payload| == rec.chunkLen && p' == (Grow(st, cur.value, payload).0, Some(Grow(st, cur.value, payload).1))
       else if rec.kind == FILE_END then p' == (EndFile(st, cur.value.name, cur.value.data), None)
       else false
  }

  ghost predicate Follows(hash: Hash, o: Options, p: Point, p': Point) {
    exists rec, name, payload :: Takes(hash, o, p, rec, name, payload, p')
  }

  ghost predicate Path(hash: Hash, o: Options, path: seq<Point>) {
    && path != [] && path[0] == (INITIAL, None)
    && forall i :: 0 <= i < |path| - 1 ==> Follows(hash, o, path[i], path[i + 1])
  }

  function SizeOf(x: Node): nat {
    match x
    case Directory => 0
    case File(data) => |data|
  }

  /** The bytes of all files in a tree. */
  ghost function TreeBytes(tree: Tree): nat
    decreases |tree|
  {
    if tree == map[] then 0
    else
      var n :| n in tree;
      SizeOf(tree[n]) + TreeBytes(tree - {n})
  }

  lemma {:induction false} TreeBytesWithout(tree: Tree, n: bytes)
    requires n in tree
    ensures TreeBytes(tree) == SizeOf(tree[n]) + TreeBytes(tree - {n})
    decreases |tree|
  {
    var m :| m in tree && TreeBytes(tree) == SizeOf(tree[m]) + TreeBytes(tree - {m});
    if m != n {
      TreeBytesWithout(tree - {m}, n);
      TreeBytesWithout(tree - {n}, m);
      assert tree - {m} - {n} == tree - {n} - {m};
    }
  }

  lemma TreeBytesAdd(tree: Tree, n: bytes, x: Node)
    requires n !in tree
    ensures TreeBytes(tree[n := x]) == TreeBytes(tree) + SizeOf(x)
  {
    var bigger := tree[n := x];
    assert bigger - {n} == tree;
    TreeBytesWithout(bigger, n);
  }

  /** The total is what the finished files hold plus what the open file has written. */
  ghost predicate Accounted(p: Point) {
    var (st, cur) := p;
    && st.total == TreeBytes(st.tree) + (if cur.Some? then |cur.value.data| else 0)
    && (forall n :: n in st.tree ==> Lower(n) in st.seen)
    && (cur.Some? ==> cur.value.name !in st.tree && Lower(cur.value.name) in st.seen)
  }

  lemma TakesKeeps(hash: Hash, o: Options, p: Point, rec: Record, name: bytes, payload: bytes, p': Point)
    requires Accounted(p) && Sound(o, p.0, p.1) && Takes(hash, o, p, rec, name, payload, p')
    ensures Accounted(p') && Sound(o, p'.0, p'.1)
  {
    hide TreeBytes, ValidPath, AdmitSelected, Lower;
    var (st, cur) := p;
    if rec.kind == DIRECTORY {
      TreeBytesAdd(st.tree, name, Directory);
    } else if rec.kind == FILE_END {
      TreeBytesAdd(st.tree, cur.value.name, File(cur.value.data));
    }
  }

  lemma {:induction false} PathAccounted(hash: Hash, o: Options, path: seq<Point>, i: nat)
    requires Path(hash, o, path) && i < |path|
    ensures Accounted(path[i]) && Sound(o, path[i].0, path[i].1)
  {
    hide Takes;
    if i > 0 {
      PathAccounted(hash, o, path, i - 1);
      assert Follows(hash, o, path[i - 1], path[i]);
      var rec, name, payload :| Takes(hash, o, path[i - 1], rec, name, payload, path[i]);
      TakesKeeps(hash, o, path[i - 1], rec, name, payload, path[i]);
    }
  }

  /** Wherever a file is open, the total limit never refuses a chunk that the declared length admits. */
  lemma ChunkTotalCheckRedundant(hash: Hash, o: Options, path: seq<Point>, i: nat, chunkLen: nat)
    requires Path(hash, o, path) && i < |path| && path[i].1.Some?
    ensures var (st, cur) := path[i];
      && |cur.value.data| <= cur.value.declared && st.total <= o.maxTotal as int
      && (chunkLen <= cur.value.declared - |cur.value.data| ==> chunkLen <= o.maxTotal as int - st.total)
  {
    PathAccounted(hash, o, path, i);
  }

  // ---- the staged paths ----

  /** The seen map and the finished tree describe the same paths, each below a directory of the same spelling. */
  ghost predicate Rooted(p: Point) {
    var (st, cur) := p;
    && (forall k :: k in st.seen ==> Lower(st.seen[k].name) == k && ParentSeen(st.seen, st.seen[k].name))
    && (forall k :: k in st.seen && st.seen[k].isDir ==> st.seen[k].name in st.tree && st.tree[st.seen[k].name].Directory?)
    && (forall n :: n in st.tree ==> Lower(n) in st.seen && st.seen[Lower(n)].name == n)
    && (cur.Some? ==> Lower(cur.value.name) in st.seen && st.seen[Lower(cur.value.name)] == Entry(false, cur.value.name))
  }

  predicate ParentSeen(seen: map<bytes, Entry>, name: bytes) {
    Parent(name).Some? ==> Lower(Parent(name).value) in seen && seen[Lower(Parent(name).value)] == Entry(true, Parent(name).value)
  }

  lemma TakesRooted(hash: Hash, o: Options, p: Point, rec: Record, name: bytes, payload: bytes, p': Point)
    requires Rooted(p) && Takes(hash, o, p, rec, name, payload, p')
    ensures Rooted(p')
  {
    hide ValidPath, AdmitSelected, Lower, Parent;
    var (st, cur) := p;
    var (st', cur') := p';
    assert forall k :: k in st.seen ==> k in st'.seen && st'.seen[k] == st.seen[k];
    forall k | k in st'.seen ensures Lower(st'.seen[k].name) == k && ParentSeen(st'.seen, st'.seen[k].name) {
      if k in st.seen { assert ParentSeen(st.seen, st.seen[k].name); }
    }
  }

  lemma {:induction false} PathRooted(hash: Hash, o: Options, path: seq<Point>, i: nat)
    requires Path(hash, o, path) && i < |path|
    ensures Rooted(path[i])
  {
    hide Takes;
    if i > 0 {
      PathRooted(hash, o, path, i - 1);
      assert Follows(hash, o, path[i - 1], path[i]);
      var rec, name, payload :| Takes(hash, o, path[i - 1], rec, name, payload, path[i]);
      TakesRooted(hash, o, path[i - 1], rec, name, payload, path[i]);
    }
  }

  /** A finished object, or the file being written. */
  predicate IsStaged(p: Point, n: bytes) {
    n in p.0.tree || (p.1.Some? && n == p.1.value.name)
  }

  /**
   At every moment the staged paths, the open file among them, have their parents staged as directories and
   differ after case folding.
   */
  lemma StagedShape(hash: Hash, o: Options, path: seq<Point>, i: nat, m: bytes, n: bytes)
    requires Path(hash, o, path) && i < |path| && IsStaged(path[i], n)
    ensures Parent(n).Some? ==> Parent(n).value in path[i].0.tree && path[i].0.tree[Parent(n).value].Directory?
    ensures IsStaged(path[i], m) && SameButCase(m, n) ==> m == n
  {
    PathRooted(hash, o, path, i);
    LowerExactly(m, n);
    assert ParentSeen(path[i].0.seen, path[i].0.seen[Lower(n)].name);
  }
}
