/**
 The receiver as it runs: a session that stages files and counts in unsigned
 machine integers, and the private parent directory it publishes into.
 */
module ExportHost {
  import opened Bytes
  import opened Paths
  import opened ExportWire
  import opened ExportReceiver

  datatype CopyResult = Copied | SourceShort | Stopped

  /** The local state of one transfer: the seen map, the counters, the staged tree and the open file. */
  class Session {
    const hash: Hash
    const o: Options
    var seen: map<bytes, Entry>
    var staged: Tree
    var files: u32
    var dirs: u32
    var total: u64
    var active: bool
    var name: bytes
    var declared: u64
    var written: u64
    var hashed: bytes
    ghost var finished: Tree

    ghost predicate Valid()
      reads this
    {
      && Sound(o, Progress(), Current())
      && staged == (if active then finished[name := File(hashed)] else finished)
      && (active ==> written as int == |hashed|)
    }

    ghost function Progress(): State
      reads this
    {
      State(seen, finished, files as int, dirs as int, total as int)
    }

    ghost function Current(): Option<Active>
      reads this
    {
      if active then Some(Active(name, declared as int, hashed)) else None
    }

    constructor (hash: Hash, o: Options)
      ensures Valid() && this.hash == hash && this.o == o
      ensures Progress() == INITIAL && Current() == None
    {
      this.hash, this.o := hash, o;
      seen, staged, files, dirs, total := map[], map[], 0, 0, 0;
      active, name, declared, written, hashed := false, [], 0, 0, [];
      finished := map[];
    }

    method OnDirectory(rec: Record, path: bytes) returns (problem: Option<Reason>)
      requires Valid() && rec.kind == DIRECTORY
      modifies this
      ensures Valid()
      ensures problem == old(BodyProblem(hash, o, Progress(), Current(), rec, path))
      ensures problem.None? ==> Progress() == AddDirectory(old(Progress()), path) && Current() == None
    {
      if active || rec.pathLen == 0 || rec.declared != 0 || rec.digest != ZERO_DIGEST { return Some(InvalidDirectory); }
      problem := PathProblem(path, seen);
      if problem.Some? { return; }
      if !AdmitSelected(path, true, o.selected) { return Some(OutsideSelection); }
      if dirs >= o.maxDirs { return Some(DirectoryLimit); }
      staged := staged[path := Directory];
      finished := finished[path := Directory];
      seen := seen[Lower(path) := Entry(true, path)];
      dirs := dirs + 1;
    }

    method OnFile(rec: Record, path: bytes) returns (problem: Option<Reason>)
      requires Valid() && rec.kind == FILE && Fits(rec)
      modifies this
      ensures Valid()
      ensures problem == old(BodyProblem(hash, o, Progress(), Current(), rec, path))
      ensures problem.None? ==>
                Progress() == BeginFile(old(Progress()), path) && Current() == Some(Active(path, rec.declared, []))
    {
      if active || rec.pathLen == 0 || rec.digest != ZERO_DIGEST { return Some(InvalidFile); }
      problem := PathProblem(path, seen);
      if problem.Some? { return; }
      if !AdmitSelected(path, false, o.selected) { return Some(OutsideSelection); }
      var size := rec.declared as u64;
      if files >= o.maxFiles || size > o.maxFile || size > o.maxTotal - total { return Some(FileLimit); }
      staged := staged[path := File([])];
      active, name, declared, written, hashed := true, path, size, 0, [];
      seen := seen[Lower(path) := Entry(false, path)];
      files := files + 1;
    }

    method CheckChunk(rec: Record) returns (problem: Option<Reason>)
      requires Valid() && rec.kind == CHUNK && Fits(rec)
      ensures problem == BodyProblem(hash, o, Progress(), Current(), rec, [])
    {
      if !active || rec.pathLen != 0 || rec.chunkLen == 0 || rec.declared != 0 || rec.digest != ZERO_DIGEST {
        return Some(InvalidChunk);
      }
      var size := rec.chunkLen as u64;
      if size > declared - written || size > o.maxTotal - total { return Some(ChunkOverrun); }
      return None;
    }

    /**
     Copies size bytes in bounded pieces, writing and hashing each piece; interrupt stands for cancellation, a free-
     space refusal or a failed write.
     */
    method CopyChunk(stream: bytes, pos: nat, size: u32, interrupt: nat -> bool) returns (result: CopyResult)
      requires Valid() && active && pos <= |stream|
      requires size as int <= declared as int - written as int
      modifies this
      ensures result.Copied? ==> Valid() && pos + size as int <= |stream|
      ensures result.Copied? ==>
                var g := Grow(old(Progress()), old(Current()).value, stream[pos..pos + size as int]);
                Progress() == g.0 && Current() == Some(g.1)
      ensures result.SourceShort? ==> |stream| < pos + size as int
      ensures result.Stopped? ==> exists t :: interrupt(t)
    {
      var remaining := size as u64;
      var at := pos;
      while remaining > 0
        invariant pos <= at <= |stream| && at as int == pos + (size as int - remaining as int)
        invariant remaining as int <= size as int
        invariant active && seen == old(seen) && files == old(files) && dirs == old(dirs) && total == old(total)
        invariant name == old(name) && declared == old(declared) && finished == old(finished)
        invariant hashed == old(hashed) + stream[pos..at] && written as int == |hashed|
        invariant staged == finished[name := File(hashed)]
      {
        if interrupt(at) { return Stopped; }
        var count: u64 := COPY_BUFFER as u64;
        if remaining < count { count := remaining; }
        if |stream| - at < count as int { return SourceShort; }
        var piece := stream[at..at + count as int];
        assert stream[pos..at] + piece == stream[pos..at + count as int];
        staged := staged[name := File(hashed + piece)];
        hashed := hashed + piece;
        written := written + count;
        remaining := remaining - count;
        at := at + count as int;
      }
      assert hashed == old(hashed) + stream[pos..pos + size as int];
      total := total + size as u64;
      return Copied;
    }

    method OnFileEnd(rec: Record) returns (problem: Option<Reason>)
      requires Valid() && rec.kind == FILE_END
      modifies this
      ensures Valid()
      ensures problem == old(BodyProblem(hash, o, Progress(), Current(), rec, []))
      ensures problem.None? ==>
                && Current() == None
                && Progress() == EndFile(old(Progress()), old(Current()).value.name, old(Current()).value.data)
    {
      if !active || rec.pathLen != 0 || rec.declared != 0 || written != declared { return Some(InvalidFileEnd); }
      if hash(hashed) != rec.digest { return Some(DigestMismatch); }
      finished := finished[name := File(hashed)];
      active := false;
      return None;
    }

    method OnTerminal(rec: Record) returns (problem: Option<Reason>)
      requires Valid() && rec.kind == TERMINAL && Fits(rec)
      ensures problem == BodyProblem(hash, o, Progress(), Current(), rec, [])
      ensures problem.None? ==> staged == finished
    {
      if active || rec.pathLen != 0 || rec.declared as u64 != total || rec.digest != ZERO_DIGEST {
        return Some(InvalidTerminal);
      }
      var i := 0;
      while i < |o.selected|
        invariant 0 <= i <= |o.selected|
        invariant forall k :: 0 <= k < i ==>
          Lower(o.selected[k]) in seen && seen[Lower(o.selected[k])].name == o.selected[k]
      {
        var choice := o.selected[i];
        if Lower(choice) !in seen || seen[Lower(choice)].name != choice { return Some(SelectionAbsent); }
        i := i + 1;
      }
      return None;
    }
  }

  datatype Result =
    | Rejected(reason: Reason)
    | AlreadyPublished
    | Interrupted
    | Published(tree: Tree)
    | PublishedUncertain(tree: Tree)

  /** The private parent directory: at most one staging child, and the published transactions. */
  class ExportParent {
    var staging: Option<Tree>
    var published: map<bytes, Tree>

    constructor ()
      ensures staging == None && published == map[]
    {
      staging, published := None, map[];
    }

    /** Stages the stream and publishes the staged tree by an exclusive rename, or leaves the directory as it was. */
    method Receive(hash: Hash, o: Options, stream: bytes, interrupt: nat -> bool) returns (r: Result)
      requires staging == None
      modifies this
      ensures staging == None
      ensures r.Rejected? || r.AlreadyPublished? || r.Interrupted? ==> published == old(published)
      ensures r.Rejected? ==> Verdict(hash, o, stream) == Refused(r.reason)
      ensures r.AlreadyPublished? ==> Verdict(hash, o, stream).Complete? && o.tx in old(published)
      ensures r.Published? || r.PublishedUncertain? ==>
                && Verdict(hash, o, stream) == Complete(r.tree)
                && o.tx !in old(published) && published == old(published)[o.tx := r.tree]
      ensures r.Interrupted? || r.PublishedUncertain? ==> exists t :: interrupt(t)
    {
      if !ValidOptions(o) { return Rejected(InvalidOptions); }
      if |stream| < HEADER_SIZE { return Rejected(StreamHeaderShort); }
      if stream[..4] != Ascii("BWEX") || stream[4..6] != [0, 1] { return Rejected(Unsupported); }
      if stream[6..HEADER_SIZE] != o.tx { return Rejected(TransactionMismatch); }
      staging := Some(map[]);
      var session := new Session(hash, o);
      var verdict := RunSession(session, stream, interrupt);
      if verdict.None? { staging := None; return Interrupted; }
      if verdict.value.Refused? { staging := None; return Rejected(verdict.value.reason); }
      staging := Some(session.staged);
      if interrupt(|stream|) { staging := None; return Interrupted; }
      if o.tx in published { staging := None; return AlreadyPublished; }
      published := published[o.tx := session.staged];
      staging := None;
      if interrupt(|stream| + 1) { return PublishedUncertain(session.staged); }
      return Published(session.staged);
    }
  }

  /** The record loop. None means it was interrupted. */
  method RunSession(session: Session, stream: bytes, interrupt: nat -> bool) returns (verdict: Option<Outcome>)
    requires session.Valid() && |stream| >= HEADER_SIZE
    requires session.Progress() == INITIAL && session.Current() == None
    modifies session
    ensures verdict.Some? ==>
              verdict.value == Run(session.hash, session.o, INITIAL, None, stream[HEADER_SIZE..])
    ensures verdict.Some? && verdict.value.Complete? ==> verdict.value == Complete(session.staged)
    ensures verdict.None? ==> exists t :: interrupt(t)
  {
    hide HeaderProblem, AddDirectory, BeginFile, EndFile, SelectedPresent, DirectoryProblem, FileProblem, EncodeRecord;
    var pos := HEADER_SIZE;
    ghost var final := Run(session.hash, session.o, INITIAL, None, stream[HEADER_SIZE..]);
    while true
      invariant session.Valid() && HEADER_SIZE <= pos <= |stream|
      invariant Run(session.hash, session.o, session.Progress(), session.Current(), stream[pos..]) == final
      decreases |stream| - pos
    {
      if interrupt(pos) { return None; }
      ghost var st, cur := session.Progress(), session.Current();
      if |stream| - pos < RECORD_SIZE { return Some(Refused(RecordHeaderShort)); }
      var rec := DecodeRecord(stream[pos..pos + RECORD_SIZE]);
      var problem := HeaderProblem(session.o, rec);
      assert stream[pos..][..RECORD_SIZE] == stream[pos..pos + RECORD_SIZE];
      assert stream[pos..][RECORD_SIZE..] == stream[pos + RECORD_SIZE..];
      assert final == RunRecord(session.hash, session.o, st, cur, rec, stream[pos + RECORD_SIZE..]);
      if problem.Some? { return Some(Refused(problem.value)); }
      pos := pos + RECORD_SIZE;
      if |stream| - pos < rec.pathLen { return Some(Refused(PathShort)); }
      var path := stream[pos..pos + rec.pathLen];
      assert stream[pos..][..rec.pathLen] == path;
      assert stream[pos..][rec.pathLen..] == stream[pos + rec.pathLen..];
      pos := pos + rec.pathLen;
      assert final == RunBody(session.hash, session.o, st, cur, rec, path, stream[pos..]);
      if rec.kind == DIRECTORY {
        problem := session.OnDirectory(rec, path);
        if problem.Some? { return Some(Refused(problem.value)); }
      } else if rec.kind == FILE {
        problem := session.OnFile(rec, path);
        if problem.Some? { return Some(Refused(problem.value)); }
      } else if rec.kind == CHUNK {
        problem := session.CheckChunk(rec);
        if problem.Some? { return Some(Refused(problem.value)); }
        var copied := session.CopyChunk(stream, pos, rec.chunkLen as u32, interrupt);
        if copied.Stopped? { return None; }
        if copied.SourceShort? { return Some(Refused(ChunkShort)); }
        assert stream[pos..][..rec.chunkLen] == stream[pos..pos + rec.chunkLen];
        assert stream[pos..][rec.chunkLen..] == stream[pos + rec.chunkLen..];
        pos := pos + rec.chunkLen;
      } else if rec.kind == FILE_END {
        problem := session.OnFileEnd(rec);
        if problem.Some? { return Some(Refused(problem.value)); }
      } else if rec.kind == TERMINAL {
        problem := session.OnTerminal(rec);
        if problem.Some? { return Some(Refused(problem.value)); }
        if pos != |stream| { return Some(Refused(TrailingBytes)); }
        return Some(Complete(session.staged));
      } else {
        return Some(Refused(UnknownKind));
      }
    }
  }
}
