/**
 The BWEX export receiver: option and path admission, the record machine as a
 function of the stream, and the loop that runs it against a staging directory.
 */
module ExportReceiver {
  import opened Bytes
  import opened Paths
  import opened ExportWire

  const MAX_PATH_BYTES: nat := 512
  const MAX_COMPONENTS: nat := 16
  const MAX_COMPONENT: nat := 64
  const HARD_MAX_CHUNK: u32 := 0x10_0000
  const MAX_SELECTED: nat := 1024
  const COPY_BUFFER: nat := 32768

  /** The host policy for one transfer; the parent directory is the receiving object itself. */
  datatype Options = Options(
    tx: bytes, selected: seq<bytes>, maxChunk: u32, maxFile: u64, maxTotal: u64,
    maxFiles: u32, maxDirs: u32, minFree: u64)

  datatype Reason =
    | InvalidOptions | StreamHeaderShort | Unsupported | TransactionMismatch
    | RecordHeaderShort | PathTooLong | UnexpectedPayload | ChunkTooLong | PathShort
    | InvalidDirectory | InvalidFile | InvalidChunk | InvalidFileEnd | InvalidTerminal | UnknownKind
    | UnsafePath | DuplicatePath | BadParent | OutsideSelection
    | DirectoryLimit | FileLimit | ChunkOverrun | ChunkShort | DigestMismatch
    | SelectionAbsent | TrailingBytes

  datatype Node = Directory | File(data: bytes)

  type Tree = map<bytes, Node>

  datatype Outcome = Refused(reason: Reason) | Complete(tree: Tree)

  /** What the receiver remembers of an admitted path, under its case-folded name. */
  datatype Entry = Entry(isDir: bool, name: bytes)

  datatype State = State(seen: map<bytes, Entry>, tree: Tree, files: nat, dirs: nat, total: nat)

  datatype Active = Active(name: bytes, declared: nat, data: bytes)

  const INITIAL: State := State(map[], map[], 0, 0, 0)

  // ---- options and paths ----

  predicate ValidComponent(c: bytes) {
    && c != [] && c != [DOT] && c != [DOT, DOT] && |c| <= MAX_COMPONENT
    && forall i :: 0 <= i < |c| ==> SafeByte(c[i])
  }

  predicate ValidPath(name: bytes) {
    && 0 < |name| <= MAX_PATH_BYTES
    && name[0] != SLASH && name[|name| - 1] != SLASH
    && var components := Split(name, SLASH);
       && |components| <= MAX_COMPONENTS
       && forall i :: 0 <= i < |components| ==> ValidComponent(components[i])
  }

  predicate ValidOptions(o: Options) {
    && |o.tx| == 16 && o.tx != seq(16, _ => 0)
    && 0 < o.maxChunk <= HARD_MAX_CHUNK
    && o.maxFile > 0 && o.maxTotal > 0 && o.maxFiles > 0 && o.maxDirs > 0 && o.minFree > 0
    && |o.selected| <= MAX_SELECTED
    && (forall i :: 0 <= i < |o.selected| ==> ValidPath(o.selected[i]))
    && (forall i, j :: 0 <= i < j < |o.selected| ==> Lower(o.selected[i]) != Lower(o.selected[j]))
  }

  /** At or below choice, or (for a directory) an ancestor of choice. */
  predicate Covers(choice: bytes, name: bytes, isDir: bool) {
    || name == choice
    || HasPrefix(name, choice + [SLASH])
    || (isDir && HasPrefix(choice, name + [SLASH]))
  }

  predicate AdmitSelected(name: bytes, isDir: bool, selected: seq<bytes>) {
    |selected| == 0 || exists i :: 0 <= i < |selected| && Covers(selected[i], name, isDir)
  }

  function PathProblem(name: bytes, seen: map<bytes, Entry>): Option<Reason> {
    if !ValidPath(name) then Some(UnsafePath)
    else if Lower(name) in seen then Some(DuplicatePath)
    else
      var parent := Parent(name);
      if parent.Some? && !(Lower(parent.value) in seen && seen[Lower(parent.value)] == Entry(true, parent.value))
      then Some(BadParent)
      else None
  }

  predicate SelectedPresent(o: Options, seen: map<bytes, Entry>) {
    forall i :: 0 <= i < |o.selected| ==>
      Lower(o.selected[i]) in seen && seen[Lower(o.selected[i])].name == o.selected[i]
  }

  // ---- the record machine ----

  function HeaderProblem(o: Options, rec: Record): Option<Reason> {
    if rec.pathLen > MAX_PATH_BYTES then Some(PathTooLong)
    else if rec.kind != CHUNK && rec.chunkLen != 0 then Some(UnexpectedPayload)
    else if rec.kind == CHUNK && rec.chunkLen > o.maxChunk as int then Some(ChunkTooLong)
    else None
  }

  function DirectoryProblem(o: Options, st: State, name: bytes): Option<Reason> {
    if PathProblem(name, st.seen).Some? then PathProblem(name, st.seen)
    else if !AdmitSelected(name, true, o.selected) then Some(OutsideSelection)
    else if st.dirs >= o.maxDirs as int then Some(DirectoryLimit)
    else None
  }

  function FileProblem(o: Options, st: State, name: bytes, declared: nat): Option<Reason> {
    if PathProblem(name, st.seen).Some? then PathProblem(name, st.seen)
    else if !AdmitSelected(name, false, o.selected) then Some(OutsideSelection)
    else if st.files >= o.maxFiles as int || declared > o.maxFile as int || declared > o.maxTotal as int - st.total
    then Some(FileLimit)
    else None
  }

  /** Why a record with its path is refused in state st with open file cur. */
  function BodyProblem(hash: Hash, o: Options, st: State, cur: Option<Active>, rec: Record,
        name: bytes): Option<Reason> {
    if rec.kind == DIRECTORY then
      if cur.Some? || rec.pathLen == 0 || rec.declared != 0 || rec.digest != ZERO_DIGEST then Some(InvalidDirectory)
      else DirectoryProblem(o, st, name)
    else if rec.kind == FILE then
      if cur.Some? || rec.pathLen == 0 || rec.digest != ZERO_DIGEST then Some(InvalidFile)
      else FileProblem(o, st, name, rec.declared)
    else if rec.kind == CHUNK then
      if cur.None? || rec.pathLen != 0 || rec.chunkLen == 0 || rec.declared != 0 || rec.digest != ZERO_DIGEST
      then Some(InvalidChunk)
      else if rec.chunkLen > cur.value.declared - |cur.value.data| || rec.chunkLen > o.maxTotal as int - st.total
      then Some(ChunkOverrun)
      else None
    else if rec.kind == FILE_END then
      if cur.None? || rec.pathLen != 0 || rec.declared != 0 || |cur.value.data| != cur.value.declared
      then Some(InvalidFileEnd)
      else if hash(cur.value.data) != rec.digest then Some(DigestMismatch)
      else None
    else if rec.kind == TERMINAL then
      if cur.Some? || rec.pathLen != 0 || rec.declared != st.total || rec.digest != ZERO_DIGEST then Some(InvalidTerminal)
      else if !SelectedPresent(o, st.seen) then Some(SelectionAbsent)
      else None
    else Some(UnknownKind)
  }

  function AddDirectory(st: State, name: bytes): State {
    st.(seen := st.seen[Lower(name) := Entry(true, name)], tree := st.tree[name := Directory], dirs := st.dirs + 1)
  }

  function BeginFile(st: State, name: bytes): State {
    st.(seen := st.seen[Lower(name) := Entry(false, name)], files := st.files + 1)
  }

  function EndFile(st: State, name: bytes, data: bytes): State {
    st.(tree := st.tree[name := File(data)])
  }

  function Grow(st: State, cur: Active, more: bytes): (State, Active) {
    (st.(total := st.total + |more|), cur.(data := cur.data + more))
  }

  /** The receiver's verdict on the rest of a stream. */
  function Run(hash: Hash, o: Options, st: State, cur: Option<Active>, input: bytes): Outcome
    decreases |input|
  {
    if |input| < RECORD_SIZE then Refused(RecordHeaderShort)
    else RunRecord(hash, o, st, cur, DecodeRecord(input[..RECORD_SIZE]), input[RECORD_SIZE..])
  }

  function RunRecord(hash: Hash, o: Options, st: State, cur: Option<Active>, rec: Record, after: bytes): Outcome
    decreases |after| + 2
  {
    if HeaderProblem(o, rec).Some? then Refused(HeaderProblem(o, rec).value)
    else if |after| < rec.pathLen then Refused(PathShort)
    else RunBody(hash, o, st, cur, rec, after[..rec.pathLen], after[rec.pathLen..])
  }

  function RunBody(hash: Hash, o: Options, st: State, cur: Option<Active>, rec: Record, name: bytes,
        rest: bytes): Outcome
    decreases |rest| + 1
  {
    if BodyProblem(hash, o, st, cur, rec, name).Some? then Refused(BodyProblem(hash, o, st, cur, rec, name).value)
    else if rec.kind == DIRECTORY then Run(hash, o, AddDirectory(st, name), None, rest)
    else if rec.kind == FILE then Run(hash, o, BeginFile(st, name), Some(Active(name, rec.declared, [])), rest)
    else if rec.kind == CHUNK then
      if |rest| < rec.chunkLen then Refused(ChunkShort)
      else
        Run(hash, o, Grow(st, cur.value, rest[..rec.chunkLen]).0, Some(Grow(st, cur.value, rest[..rec.chunkLen]).1),
            rest[rec.chunkLen..])
    else if rec.kind == FILE_END then Run(hash, o, EndFile(st, cur.value.name, cur.value.data), None, rest)
    else if rest != [] then Refused(TrailingBytes)
    else Complete(st.tree)
  }

  /** The verdict on a whole stream. */
  function Verdict(hash: Hash, o: Options, stream: bytes): Outcome {
    if !ValidOptions(o) then Refused(InvalidOptions)
    else if |stream| < HEADER_SIZE then Refused(StreamHeaderShort)
    else if stream[..4] != Ascii("BWEX") || stream[4..6] != [0, 1] then Refused(Unsupported)
    else if stream[6..HEADER_SIZE] != o.tx then Refused(TransactionMismatch)
    else Run(hash, o, INITIAL, None, stream[HEADER_SIZE..])
  }

  /** total counts what is written, and what the open file still owes fits the total limit. */
  predicate Sound(o: Options, st: State, cur: Option<Active>) {
    && st.total <= o.maxTotal as int
    && (cur.Some? ==>
          && |cur.value.data| <= cur.value.declared
          && st.total + (cur.value.declared - |cur.value.data|) <= o.maxTotal as int)
  }
}
