/**
 The receiver read at the level of exported objects: which object lists it
 admits one after another, and that its byte-level verdict is exactly that.
 */
module ExportItems {
  import opened Bytes
  import opened Paths
  import opened ExportWire
  import opened ExportReceiver

  predicate LegalChunks(o: Options, chunks: seq<bytes>) {
    forall i :: 0 <= i < |chunks| ==> 0 < |chunks[i]| <= o.maxChunk as int
  }

  predicate ItemOk(o: Options, st: State, item: Item) {
    match item
    case DirItem(name) => DirectoryProblem(o, st, name).None?
    case FileItem(name, chunks) => FileProblem(o, st, name, |Concat(chunks)|).None? && LegalChunks(o, chunks)
  }

  function AfterItem(st: State, item: Item): State {
    match item
    case DirItem(name) => AddDirectory(st, name)
    case FileItem(name, chunks) =>
      EndFile(BeginFile(st, name).(total := st.total + |Concat(chunks)|), name, Concat(chunks))
  }

  predicate ItemsOk(o: Options, st: State, items: seq<Item>)
    decreases items
  {
    items == [] || (ItemOk(o, st, items[0]) && ItemsOk(o, AfterItem(st, items[0]), items[1..]))
  }

  function AfterItems(st: State, items: seq<Item>): State
    decreases items
  {
    if items == [] then st else AfterItems(AfterItem(st, items[0]), items[1..])
  }

  // ---- every admissible encoding is accepted ----

  lemma RunEmit(hash: Hash, o: Options, st: State, cur: Option<Active>, rec: Record, name: bytes, payload: bytes,
        tail: bytes)
    requires Fits(rec) && |name| == rec.pathLen && HeaderProblem(o, rec).None?
    ensures Run(hash, o, st, cur, Emit(rec, name, payload, tail)) == RunBody(hash, o, st, cur, rec, name, payload + tail)
  {
    DecodeEncodeRecord(rec);
    var input := Emit(rec, name, payload, tail);
    var after := name + (payload + tail);
    assert input[..RECORD_SIZE] == EncodeRecord(rec) && input[RECORD_SIZE..] == after;
    assert after[..rec.pathLen] == name && after[rec.pathLen..] == payload + tail;
  }

  lemma RunChunk(hash: Hash, o: Options, st: State, cur: Active, c: bytes, rest: bytes)
    requires Sound(o, st, Some(cur)) && 0 < |c| <= o.maxChunk as int && |cur.data| + |c| <= cur.declared
    ensures var (st', cur') := Grow(st, cur, c);
            && Sound(o, st', Some(cur'))
            && Run(hash, o, st, Some(cur), Emit(Record(CHUNK, 0, |c|, 0, ZERO_DIGEST), [], c, rest))
               == Run(hash, o, st', Some(cur'), rest)
  {
    RunEmit(hash, o, st, Some(cur), Record(CHUNK, 0, |c|, 0, ZERO_DIGEST), [], c, rest);
    assert (c + rest)[..|c|] == c && (c + rest)[|c|..] == rest;
  }

  lemma GrowGrow(st: State, cur: Active, a: bytes, b: bytes)
    ensures Grow(Grow(st, cur, a).0, Grow(st, cur, a).1, b) == Grow(st, cur, a + b)
  {
    assert cur.data + (a + b) == (cur.data + a) + b;
  }

  lemma GrowNothing(st: State, cur: Active)
    ensures Grow(st, cur, []) == (st, cur)
  {
    assert cur.data + [] == cur.data;
  }

  lemma {:induction false} RunChunks(hash: Hash, o: Options, st: State, cur: Active, chunks: seq<bytes>, tail: bytes)
    requires LegalChunks(o, chunks)
    requires Sound(o, st, Some(cur)) && |cur.data| + |Concat(chunks)| <= cur.declared
    ensures var g := Grow(st, cur, Concat(chunks));
            Run(hash, o, st, Some(cur), EmitChunks(chunks, tail)) == Run(hash, o, g.0, Some(g.1), tail)
    decreases chunks
  {
    if chunks == [] {
      GrowNothing(st, cur);
    } else {
      var g := Grow(st, cur, chunks[0]);
      RunChunk(hash, o, st, cur, chunks[0], EmitChunks(chunks[1..], tail));
      RunChunks(hash, o, g.0, g.1, chunks[1..], tail);
      GrowGrow(st, cur, chunks[0], Concat(chunks[1..]));
    }
  }

  lemma RunDirItem(hash: Hash, o: Options, st: State, name: bytes, tail: bytes)
    requires DirectoryProblem(o, st, name).None?
    ensures Run(hash, o, st, None, EmitItem(hash, DirItem(name), tail)) == Run(hash, o, AddDirectory(st, name), None, tail)
  {
    RunEmit(hash, o, st, None, Record(DIRECTORY, |name|, 0, 0, ZERO_DIGEST), name, [], tail);
    assert [] + tail == tail;
  }

  lemma RunFileBegin(hash: Hash, o: Options, st: State, name: bytes, declared: nat, rest: bytes)
    requires FileProblem(o, st, name, declared).None?
    ensures Run(hash, o, st, None, Emit(Record(FILE, |name|, 0, declared, ZERO_DIGEST), name, [], rest))
         == Run(hash, o, BeginFile(st, name), Some(Active(name, declared, [])), rest)
  {
    RunEmit(hash, o, st, None, Record(FILE, |name|, 0, declared, ZERO_DIGEST), name, [], rest);
    assert [] + rest == rest;
  }

  lemma RunFileEnd(hash: Hash, o: Options, st: State, name: bytes, data: bytes, tail: bytes)
    ensures Run(hash, o, st, Some(Active(name, |data|, data)), EmitEnd(hash, data, tail))
         == Run(hash, o, EndFile(st, name, data), None, tail)
  {
    RunEmit(hash, o, st, Some(Active(name, |data|, data)), Record(FILE_END, 0, 0, 0, hash(data)), [], [], tail);
    assert [] + tail == tail;
  }

  lemma SoundBegin(o: Options, st: State, name: bytes, declared: nat)
    requires Sound(o, st, None) && FileProblem(o, st, name, declared).None?
    ensures Sound(o, BeginFile(st, name), Some(Active(name, declared, [])))
  {
  }

  /** The chunks and the end of a file just begun. */
  lemma RunFileBody(hash: Hash, o: Options, st: State, name: bytes, chunks: seq<bytes>, tail: bytes)
    requires LegalChunks(o, chunks) && Sound(o, st, Some(Active(name, |Concat(chunks)|, [])))
    ensures var data := Concat(chunks);
            && Run(hash, o, st, Some(Active(name, |data|, [])), EmitChunks(chunks, EmitEnd(hash, data, tail)))
               == Run(hash, o, EndFile(st.(total := st.total + |data|), name, data), None, tail)
  {
    hide Run, EncodeRecord, DecodeRecord;
    var data := Concat(chunks);
    var cur, full := Active(name, |data|, []), Active(name, |data|, data);
    RunChunks(hash, o, st, cur, chunks, EmitEnd(hash, data, tail));
    assert Grow(st, cur, data) == (st.(total := st.total + |data|), full) by {
      assert [] + data == data;
    }
    RunFileEnd(hash, o, st.(total := st.total + |data|), name, data, tail);
  }

  lemma RunFileItem(hash: Hash, o: Options, st: State, name: bytes, chunks: seq<bytes>, tail: bytes)
    requires Sound(o, st, None) && FileProblem(o, st, name, |Concat(chunks)|).None? && LegalChunks(o, chunks)
    ensures Run(hash, o, st, None, EmitItem(hash, FileItem(name, chunks), tail))
         == Run(hash, o, AfterItem(st, FileItem(name, chunks)), None, tail)
  {
    hide Run, EncodeRecord, FileProblem;
    var data := Concat(chunks);
    SoundBegin(o, st, name, |data|);
    RunFileBegin(hash, o, st, name, |data|, EmitChunks(chunks, EmitEnd(hash, data, tail)));
    RunFileBody(hash, o, BeginFile(st, name), name, chunks, tail);
  }

  lemma SoundAfterItem(o: Options, st: State, item: Item)
    requires Sound(o, st, None) && ItemOk(o, st, item)
    ensures Sound(o, AfterItem(st, item), None)
  {
  }

  lemma RunItem(hash: Hash, o: Options, st: State, item: Item, tail: bytes)
    requires Sound(o, st, None) && ItemOk(o, st, item)
    ensures Run(hash, o, st, None, EmitItem(hash, item, tail)) == Run(hash, o, AfterItem(st, item), None, tail)
  {
    match item
    case DirItem(name) => RunDirItem(hash, o, st, name, tail);
    case FileItem(name, chunks) => RunFileItem(hash, o, st, name, chunks, tail);
  }

  lemma {:induction false} RunItems(hash: Hash, o: Options, st: State, items: seq<Item>, tail: bytes)
    requires Sound(o, st, None) && ItemsOk(o, st, items)
    ensures Sound(o, AfterItems(st, items), None)
    ensures Run(hash, o, st, None, EmitItems(hash, items, tail)) == Run(hash, o, AfterItems(st, items), None, tail)
    decreases items
  {
    if items != [] {
      SoundAfterItem(o, st, items[0]);
      RunItem(hash, o, st, items[0], EmitItems(hash, items[1..], tail));
      RunItems(hash, o, AfterItem(st, items[0]), items[1..], tail);
    }
  }

  lemma {:induction false} TotalAfterItems(st: State, items: seq<Item>)
    ensures AfterItems(st, items).total == st.total + TotalBytes(items)
    decreases items
  {
    if items != [] { TotalAfterItems(AfterItem(st, items[0]), items[1..]); }
  }

  lemma RunTerminal(hash: Hash, o: Options, st: State)
    requires Sound(o, st, None) && SelectedPresent(o, st.seen)
    ensures Run(hash, o, st, None, EmitTerminal(st.total)) == Complete(st.tree)
  {
    hide SelectedPresent;
    RunEmit(hash, o, st, None, Record(TERMINAL, 0, 0, st.total, ZERO_DIGEST), [], [], []);
    var empty: bytes := [];
    assert empty + empty == empty;
  }

  lemma AcceptsEncoding(hash: Hash, o: Options, items: seq<Item>)
    requires ValidOptions(o)
    requires ItemsOk(o, INITIAL, items) && SelectedPresent(o, AfterItems(INITIAL, items).seen)
    ensures Verdict(hash, o, EncodeStream(hash, o.tx, items)) == Complete(AfterItems(INITIAL, items).tree)
  {
    hide Run, EmitItems, ItemsOk, AfterItems, SelectedPresent, EmitTerminal;
    var total := TotalBytes(items);
    var stream := EncodeStream(hash, o.tx, items);
    assert stream[..4] == Ascii("BWEX") && stream[4..6] == [0, 1] && stream[6..HEADER_SIZE] == o.tx;
    assert stream[HEADER_SIZE..] == EmitItems(hash, items, EmitTerminal(total));
    RunItems(hash, o, INITIAL, items, EmitTerminal(total));
    TotalAfterItems(INITIAL, items);
    RunTerminal(hash, o, AfterItems(INITIAL, items));
  }

  // ---- everything accepted is an admissible encoding ----

  /**
   input is the rest of an open file (its chunks and its end record), then whole
   items, then the terminal record; every part is admitted and the outcome is
   the tree they build.
   */
  ghost predicate Explains(hash: Hash, o: Options, st: State, cur: Option<Active>, input: bytes, outcome: Outcome,
                           chunks: seq<bytes>, items: seq<Item>) {
    var mid := if cur.None? then st else Settled(st, cur.value, chunks);
    var rest := EmitItems(hash, items, EmitTerminal(AfterItems(mid, items).total));
    && ItemsOk(o, mid, items) && SelectedPresent(o, AfterItems(mid, items).seen)
    && outcome == Complete(AfterItems(mid, items).tree)
    && (cur.None? ==> input == rest)
    && (cur.Some? ==>
          && LegalChunks(o, chunks) && |cur.value.data| + |Concat(chunks)| == cur.value.declared
          && input == EmitChunks(chunks, EmitEnd(hash, cur.value.data + Concat(chunks), rest)))
  }

  function Settled(st: State, cur: Active, chunks: seq<bytes>): State {
    EndFile(Grow(st, cur, Concat(chunks)).0, cur.name, cur.data + Concat(chunks))
  }

  lemma ExplainDirectory(hash: Hash, o: Options, st: State, name: bytes, rest: bytes, outcome: Outcome,
        items: seq<Item>)
    requires DirectoryProblem(o, st, name).None?
    requires Explains(hash, o, AddDirectory(st, name), None, rest, outcome, [], items)
    ensures Explains(hash, o, st, None, Emit(Record(DIRECTORY, |name|, 0, 0, ZERO_DIGEST), name, [], rest), outcome,
                     [], [DirItem(name)] + items)
  {
    assert ([DirItem(name)] + items)[1..] == items;
  }

  lemma SettledFresh(st: State, name: bytes, declared: nat, chunks: seq<bytes>)
    ensures Settled(BeginFile(st, name), Active(name, declared, []), chunks) == AfterItem(st, FileItem(name, chunks))
    ensures [] + Concat(chunks) == Concat(chunks)
  {
  }

  lemma ExplainFile(hash: Hash, o: Options, st: State, name: bytes, declared: nat, rest: bytes, outcome: Outcome,
                    chunks: seq<bytes>, items: seq<Item>)
    requires FileProblem(o, st, name, declared).None?
    requires Explains(hash, o, BeginFile(st, name), Some(Active(name, declared, [])), rest, outcome, chunks, items)
    ensures Explains(hash, o, st, None, Emit(Record(FILE, |name|, 0, declared, ZERO_DIGEST), name, [], rest), outcome,
                     [], [FileItem(name, chunks)] + items)
  {
    assert ([FileItem(name, chunks)] + items)[1..] == items;
    SettledFresh(st, name, declared, chunks);
  }

  lemma ConcatCons(c: bytes, chunks: seq<bytes>, data: bytes)
    ensures data + Concat([c] + chunks) == (data + c) + Concat(chunks)
    ensures |Concat([c] + chunks)| == |c| + |Concat(chunks)|
  {
    assert ([c] + chunks)[1..] == chunks;
  }

  lemma SettledCons(st: State, cur: Active, c: bytes, chunks: seq<bytes>)
    ensures Settled(st, cur, [c] + chunks) == Settled(Grow(st, cur, c).0, Grow(st, cur, c).1, chunks)
  {
    ConcatCons(c, chunks, cur.data);
  }

  lemma ExplainChunk(hash: Hash, o: Options, st: State, cur: Active, c: bytes, rest: bytes, outcome: Outcome,
                     chunks: seq<bytes>, items: seq<Item>)
    requires 0 < |c| <= o.maxChunk as int
    requires Explains(hash, o, Grow(st, cur, c).0, Some(Grow(st, cur, c).1), rest, outcome, chunks, items)
    ensures Explains(hash, o, st, Some(cur), Emit(Record(CHUNK, 0, |c|, 0, ZERO_DIGEST), [], c, rest), outcome,
                     [c] + chunks, items)
  {
    SettledCons(st, cur, c, chunks);
    ConcatCons(c, chunks, cur.data);
    assert ([c] + chunks)[1..] == chunks;
    assert EmitChunks([c] + chunks, []) == Emit(Record(CHUNK, 0, |c|, 0, ZERO_DIGEST), [], c, EmitChunks(chunks, []));
  }

  lemma ExplainFileEnd(hash: Hash, o: Options, st: State, cur: Active, rest: bytes, outcome: Outcome, items: seq<Item>)
    requires |cur.data| == cur.declared
    requires Explains(hash, o, EndFile(st, cur.name, cur.data), None, rest, outcome, [], items)
    ensures Explains(hash, o, st, Some(cur), EmitEnd(hash, cur.data, rest), outcome, [], items)
  {
    assert cur.data + Concat([]) == cur.data;
  }

  lemma UnEmit(rec: Record, input: bytes)
    requires |input| >= RECORD_SIZE && rec == DecodeRecord(input[..RECORD_SIZE])
    requires |input| >= RECORD_SIZE + rec.pathLen
    ensures var name := input[RECORD_SIZE..][..rec.pathLen]; var rest := input[RECORD_SIZE..][rec.pathLen..];
            forall k :: 0 <= k <= |rest| ==> input == Emit(rec, name, rest[..k], rest[k..])
  {
    EncodeDecodeRecord(input[..RECORD_SIZE]);
    var name := input[RECORD_SIZE..][..rec.pathLen];
    var rest := input[RECORD_SIZE..][rec.pathLen..];
    assert input == EncodeRecord(rec) + (name + rest);
    forall k | 0 <= k <= |rest| ensures input == Emit(rec, name, rest[..k], rest[k..]) {
      assert rest == rest[..k] + rest[k..];
    }
  }

  /** The objects a successful run read. */
  lemma {:induction false} Decoded(hash: Hash, o: Options, st: State, cur: Option<Active>, input: bytes)
    returns (chunks: seq<bytes>, items: seq<Item>)
    requires Run(hash, o, st, cur, input).Complete?
    ensures Explains(hash, o, st, cur, input, Run(hash, o, st, cur, input), chunks, items)
    decreases |input|
  {
    var rec := DecodeRecord(input[..RECORD_SIZE]);
    var after := input[RECORD_SIZE..];
    var name, rest := after[..rec.pathLen], after[rec.pathLen..];
    var outcome := RunBody(hash, o, st, cur, rec, name, rest);
    assert Run(hash, o, st, cur, input) == outcome;
    UnEmit(rec, input);
    assert input == Emit(rec, name, rest[..0], rest[0..]);
    assert rest[..0] == [] && rest[0..] == rest;
    if rec.kind == DIRECTORY {
      var _, more := Decoded(hash, o, AddDirectory(st, name), None, rest);
      ExplainDirectory(hash, o, st, name, rest, outcome, more);
      chunks, items := [], [DirItem(name)] + more;
    } else if rec.kind == FILE {
      var cs, more := Decoded(hash, o, BeginFile(st, name), Some(Active(name, rec.declared, [])), rest);
      ExplainFile(hash, o, st, name, rec.declared, rest, outcome, cs, more);
      chunks, items := [], [FileItem(name, cs)] + more;
    } else if rec.kind == CHUNK {
      var c := rest[..rec.chunkLen];
      var g := Grow(st, cur.value, c);
      var cs, more := Decoded(hash, o, g.0, Some(g.1), rest[rec.chunkLen..]);
      ExplainChunk(hash, o, st, cur.value, c, rest[rec.chunkLen..], outcome, cs, more);
      chunks, items := [c] + cs, more;
    } else if rec.kind == FILE_END {
      var _, more := Decoded(hash, o, EndFile(st, cur.value.name, cur.value.data), None, rest);
      ExplainFileEnd(hash, o, st, cur.value, rest, outcome, more);
      chunks, items := [], more;
    } else {
      chunks, items := [], [];
    }
  }

  lemma HeaderSplit(o: Options, stream: bytes)
    requires |stream| >= HEADER_SIZE
    requires stream[..4] == Ascii("BWEX") && stream[4..6] == [0, 1] && stream[6..HEADER_SIZE] == o.tx
    ensures stream == StreamHeader(o.tx) + stream[HEADER_SIZE..]
  {
    assert stream == stream[..4] + stream[4..6] + stream[6..HEADER_SIZE] + stream[HEADER_SIZE..];
  }

  lemma AcceptedIsEncoding(hash: Hash, o: Options, stream: bytes) returns (items: seq<Item>)
    requires Verdict(hash, o, stream).Complete?
    ensures ItemsOk(o, INITIAL, items) && SelectedPresent(o, AfterItems(INITIAL, items).seen)
    ensures stream == EncodeStream(hash, o.tx, items)
    ensures Verdict(hash, o, stream) == Complete(AfterItems(INITIAL, items).tree)
  {
    hide Run, EmitItems, ItemsOk, AfterItems, SelectedPresent, StreamHeader, EmitTerminal, ValidOptions;
    HeaderSplit(o, stream);
    var _, more := Decoded(hash, o, INITIAL, None, stream[HEADER_SIZE..]);
    items := more;
    TotalAfterItems(INITIAL, items);
  }
}
