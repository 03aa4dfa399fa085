/**
 The prepared-base cache as it runs. Every external call asks the script what
 happens to it: it succeeds, it fails, or the process stops before it. Contracts
 therefore hold at every place a process can stop.
 */
module PreparedCache {
  import opened Bytes
  import opened PreparedDisk

  datatype Event = Ok | Fail | Stop

  datatype Flow = Done | Error | Halted

  const RECORD_LIMIT: nat := 4096

  datatype Request = Request(dir: bytes, candidate: bytes, key: Key)

  /** What the identity probe reports for a candidate, and what the qualifier returns. */
  datatype World = World(identity: bytes -> bytes, receipt: Receipt)

  datatype Disposition = Built | Reused

  datatype Answer = Refused | Prepared(disposition: Disposition, rec: Record)

  const BUILD_PHASES: seq<Phase> := [Rendered, Created, Running, Preparing, Finalizing, Stopping, CandidateStopped]

  function FlowOf(e: Event): Flow {
    match e
    case Ok => Done
    case Fail => Error
    case Stop => Halted
  }

  predicate OneLink(d: Disk, name: Name)
    requires name in d.names
  {
    forall n :: n in d.names && d.names[n] == d.names[name] ==> n == name
  }

  ghost predicate Kept(d: Disk, e: Disk) {
    Inv(e) && Advances(d, e)
  }

  /** No record was published and none was withdrawn. */
  ghost predicate SamePublished(d: Disk, e: Disk) {
    forall k :: Published(k) in e.names <==> Published(k) in d.names
  }

  /** No record was published, unless it is rec. */
  ghost predicate AddsOnly(d: Disk, e: Disk, rec: Record) {
    forall k :: Published(k) in e.names && Published(k) !in d.names ==>
      k == rec.key && HasRecord(e, k) && RecordAt(e, k) == rec
  }

  /** No record was published, unless it is the request's key's and comes from the request's own attempt. */
  ghost predicate AddsFrom(d: Disk, e: Disk, req: Request) {
    forall k :: Published(k) in e.names && Published(k) !in d.names ==>
      k == req.key && HasRecord(e, k) && RecordAt(e, k).dir == req.dir
  }

  lemma KeptSame(d: Disk)
    requires Inv(d)
    ensures Kept(d, d)
  {
  }

  lemma KeptTransitive(d: Disk, e: Disk, f: Disk)
    requires Advances(d, e) && Kept(e, f)
    ensures Kept(d, f)
  {
    AdvancesTransitive(d, e, f);
  }

  /** j is a journal that may be written next in dir. */
  predicate MayFollow(d: Disk, dir: bytes, j: Journal)
    requires dir in d.attempts
  {
    && JournalOk(j)
    && (d.attempts[dir].journal.Some? ==> JournalForward(d.attempts[dir].journal.value, j))
    && (j.phase == Admitted ==> HasRecord(d, j.key) && RecordAt(d, j.key) == RecordOf(j, dir))
  }

  /** The attempt of a request whose journal stands at an early phase. */
  function InPhase(req: Request, phase: Phase): Attempt {
    Attempt(Some(Journal(req.candidate, req.key, phase, [], None)), Absent)
  }

  lemma EarlyOk(req: Request, phase: Phase)
    requires Rank(phase) < Rank(AdmissionPending)
    ensures JournalOk(InPhase(req, phase).journal.value)
  {
  }

  lemma PhaseAfter(req: Request, i: nat)
    requires i < |BUILD_PHASES|
    ensures Rank(BUILD_PHASES[i]) < Rank(AdmissionPending)
    ensures var before := if i == 0 then Reserved else BUILD_PHASES[i - 1];
      JournalForward(InPhase(req, before).journal.value, InPhase(req, BUILD_PHASES[i]).journal.value)
  {
  }

  lemma SetNothing(d: Disk, dir: bytes)
    requires dir in d.attempts
    ensures d == SetAttempt(d, dir, d.attempts[dir])
  {
  }

  lemma SetTwice(d: Disk, dir: bytes, a: Attempt, b: Attempt)
    ensures SetAttempt(SetAttempt(d, dir, a), dir, b) == SetAttempt(d, dir, b)
  {
  }

  /** What a changed scratch file leaves alone. */
  lemma SetFacts(d: Disk, dir: bytes, a: Attempt, j: Journal)
    requires dir in d.attempts && MayFollow(d, dir, j)
    ensures var e := SetAttempt(d, dir, a);
      dir in e.attempts && e.attempts[dir] == a && (a.journal == d.attempts[dir].journal ==> MayFollow(e, dir, j))
  {
  }

  class Machine {
    const script: nat -> Event
    const size: Record -> nat
    var disk: Disk
    var clock: nat

    /** Nothing fails and nothing stops from here on. */
    ghost predicate Smooth(from: nat) {
      forall t: nat :: t >= from ==> script(t) == Ok
    }

    constructor (script: nat -> Event, size: Record -> nat)
      ensures Inv(disk) && disk.attempts == map[] && disk.names == map[]
      ensures this.script == script && this.size == size
    {
      this.script, this.size := script, size;
      disk, clock := Disk(map[], 0, map[], map[], 0), 0;
    }

    method Call() returns (e: Event)
      modifies this`clock
      ensures clock == old(clock) + 1 && e == script(old(clock))
    {
      e := script(clock);
      clock := clock + 1;
    }

    /** writeAttempt: create the scratch file exclusively, fill it, rename it over the journal, sync. */
    method WriteAttempt(dir: bytes, j: Journal) returns (f: Flow)
      requires Inv(disk) && dir in disk.attempts && MayFollow(disk, dir, j)
      modifies this
      ensures Kept(old(disk), disk) && clock >= old(clock)
      ensures dir in disk.attempts && disk == SetAttempt(old(disk), dir, disk.attempts[dir])
      ensures disk.attempts[dir].journal == old(disk).attempts[dir].journal || disk.attempts[dir].journal == Some(j)
      ensures f.Done? ==> disk.attempts[dir] == Attempt(Some(j), Absent)
      ensures Smooth(old(clock)) ==> (f.Done? <==> old(disk).attempts[dir].scratch == Absent) && !f.Halted?
    {
      hide Inv, Advances, MayFollow, SetAttempt;
      ghost var before := disk;
      var prior := disk.attempts[dir].journal;
      SetNothing(disk, dir);
      KeptSame(disk);
      var e := Call();
      if e != Ok { return FlowOf(e); }
      if disk.attempts[dir].scratch != Absent { return Error; }
      f := PutAttempt(dir, Attempt(prior, Torn));
      SetFacts(before, dir, Attempt(prior, Torn), j);
      if !f.Done? { return; }
      ghost var torn := disk;
      f := PutAttempt(dir, Attempt(prior, Ready(j)));
      SetTwice(before, dir, Attempt(prior, Torn), Attempt(prior, Ready(j)));
      SetFacts(before, dir, Attempt(prior, Ready(j)), j);
      KeptTransitive(before, torn, disk);
      if f.Halted? { return; }
      ghost var ready := disk;
      if f.Done? {
        f := PutAttempt(dir, Attempt(Some(j), Absent));
        SetTwice(before, dir, Attempt(prior, Ready(j)), Attempt(Some(j), Absent));
        SetFacts(before, dir, Attempt(Some(j), Absent), j);
        KeptTransitive(before, ready, disk);
      }
      if f.Halted? { return; }
      if f.Error? {
        ghost var failed := disk;
        f := DropScratch(dir);
        SetTwice(before, dir, failed.attempts[dir], disk.attempts[dir]);
        KeptTransitive(before, failed, disk);
        return;
      }
      e := Call();
      f := FlowOf(e);
    }

    /** One call that replaces the contents of an attempt directory. */
    method PutAttempt(dir: bytes, a: Attempt) returns (f: Flow)
      requires Inv(disk) && dir in disk.attempts
      requires a.journal == disk.attempts[dir].journal || (a.journal.Some? && MayFollow(disk, dir, a.journal.value))
      modifies this
      ensures Kept(old(disk), disk) && clock == old(clock) + 1
      ensures f == FlowOf(script(old(clock)))
      ensures disk == if f.Done? then SetAttempt(old(disk), dir, a) else old(disk)
    {
      var e := Call();
      if e == Ok {
        SetAttemptOk(disk, dir, a);
        disk := SetAttempt(disk, dir, a);
      }
      return FlowOf(e);
    }

    /** Removes the scratch journal after a failed write; the failure stands. */
    method DropScratch(dir: bytes) returns (f: Flow)
      requires Inv(disk) && dir in disk.attempts
      modifies this
      ensures Kept(old(disk), disk) && clock >= old(clock)
      ensures dir in disk.attempts && disk == SetAttempt(old(disk), dir, disk.attempts[dir])
      ensures disk.attempts[dir].journal == old(disk).attempts[dir].journal
      ensures !f.Done? && (Smooth(old(clock)) ==> f.Error?)
    {
      assert disk == SetAttempt(disk, dir, disk.attempts[dir]);
      f := PutAttempt(dir, disk.attempts[dir].(scratch := Absent));
      if f.Done? { f := Error; }
    }

    /** completeAdmission: turn the matching pending journal into an admitted one. */
    method CompleteAdmission(rec: Record) returns (f: Flow)
      requires Inv(disk) && HasRecord(disk, rec.key) && RecordAt(disk, rec.key) == rec
      modifies this
      ensures Kept(old(disk), disk) && clock >= old(clock)
      ensures disk.names == old(disk).names && disk.inodes == old(disk).inodes
      ensures f.Done? ==> Backed(disk, rec) && disk.attempts[rec.dir].journal.value.phase == Admitted
      ensures Smooth(old(clock)) ==> f.Done?
    {
      hide LinksOk, Qualified, Digits64, PassedFor;
      var e := Call();
      if e != Ok { return FlowOf(e); }
      if !Backed(disk, rec) { return Error; }
      var j := disk.attempts[rec.dir].journal.value;
      if j.phase == Admitted { return Done; }
      if disk.attempts[rec.dir].scratch != Absent {
        f := PutAttempt(rec.dir, disk.attempts[rec.dir].(scratch := Absent));
        if !f.Done? { return; }
      }
      f := WriteAttempt(rec.dir, j.(phase := Admitted));
    }

    /**
     finishPublishedRecord: remove the scratch name of an interrupted publication; mismatch reports a scratch file that
     is not that publication.
     */
    method FinishPublished(key: Key) returns (f: Flow, mismatch: bool)
      requires Inv(disk)
      modifies this
      ensures Kept(old(disk), disk) && clock >= old(clock)
      ensures !mismatch
      ensures disk.attempts == old(disk).attempts && disk.level == old(disk).level
      ensures SamePublished(old(disk), disk)
      ensures f.Done? && Published(key) in disk.names ==> Staged(key) !in disk.names
      ensures Smooth(old(clock)) ==> f.Done?
    {
      mismatch := false;
      var e := Call();
      if e != Ok { return FlowOf(e), false; }
      if Published(key) !in disk.names || Staged(key) !in disk.names { return Done, false; }
      if !LinkedPair(disk, Published(key), Staged(key)) { return Error, true; }
      e := Call();
      if e != Ok { return FlowOf(e), false; }
      RemoveStagedOk(disk, key);
      disk := disk.(names := disk.names - {Staged(key)});
      e := Call();
      return FlowOf(e), false;
    }

    /** loadPrepared: the cached record of a key, refused beyond 4096 encoded bytes. */
    method LoadPrepared(key: Key) returns (f: Flow, found: Option<Record>)
      requires Inv(disk)
      modifies this
      ensures Kept(old(disk), disk) && clock >= old(clock)
      ensures disk.attempts == old(disk).attempts && disk.level == old(disk).level
      ensures SamePublished(old(disk), disk)
      ensures HasRecord(disk, key) <==> HasRecord(old(disk), key)
      ensures f.Done? ==> (found.Some? <==> HasRecord(disk, key))
      ensures f.Done? && found.Some? ==> found.value == RecordAt(disk, key) && size(found.value) <= RECORD_LIMIT
      ensures f.Done? && found.None? ==> Published(key) !in disk.names
      ensures Smooth(old(clock)) ==> !f.Halted?
      ensures Smooth(old(clock)) ==>
                (f.Done? <==> (HasRecord(disk, key) ==> size(RecordAt(disk, key)) <= RECORD_LIMIT))
    {
      found := None;
      var e := Call();
      if e != Ok { f := FlowOf(e); return; }
      if disk.level < 2 { f := Done; return; }
      var mismatch;
      f, mismatch := FinishPublished(key);
      if !f.Done? { return; }
      if Published(key) !in disk.names { return; }
      e := Call();
      if e != Ok { f := FlowOf(e); return; }
      assert HasRecord(disk, key) && OneLink(disk, Published(key));
      if !OneLink(disk, Published(key)) { f := Error; return; }
      var content := disk.inodes[disk.names[Published(key)]];
      if content.Prefix? || size(content.rec) > RECORD_LIMIT || !ValidRecord(content.rec, key) { f := Error; return; }
      return Done, Some(content.rec);
    }

    /** Removes a leftover scratch record, which no published name shares. */
    method ClearStaged(key: Key) returns (f: Flow)
      requires Inv(disk) && Published(key) !in disk.names
      modifies this
      ensures Kept(old(disk), disk) && clock >= old(clock)
      ensures disk.attempts == old(disk).attempts && disk.level == old(disk).level
      ensures SamePublished(old(disk), disk)
      ensures f.Done? ==> Staged(key) !in disk.names
      ensures Smooth(old(clock)) ==> f.Done?
    {
      if Staged(key) !in disk.names { return Done; }
      assert OneLink(disk, Staged(key));
      if !OneLink(disk, Staged(key)) { return Error; }
      var e := Call();
      if e == Ok {
        RemoveStagedOk(disk, key);
        disk := disk.(names := disk.names - {Staged(key)});
      }
      return FlowOf(e);
    }

    /** Creates and fills the scratch record. */
    method StageRecord(rec: Record) returns (f: Flow)
      requires Inv(disk) && disk.level == 2 && Published(rec.key) !in disk.names && Staged(rec.key) !in disk.names
      modifies this
      ensures Kept(old(disk), disk) && clock >= old(clock)
      ensures disk.attempts == old(disk).attempts && disk.level == 2
      ensures SamePublished(old(disk), disk)
      ensures f.Done? ==> Staged(rec.key) in disk.names && disk.inodes[disk.names[Staged(rec.key)]] == Whole(rec)
      ensures Smooth(old(clock)) ==> f.Done?
    {
      ghost var before := disk;
      var e := Call();
      if e != Ok { return FlowOf(e); }
      CreateStagedOk(disk, rec.key);
      disk := CreateStaged(disk, rec.key);
      ghost var created := disk;
      e := Call();
      if e == Stop { return Halted; }
      if e == Fail { f := AbandonStaged(rec.key); KeptTransitive(before, created, disk); return; }
      FillStagedOk(disk, rec.key, Whole(rec));
      disk := FillStaged(disk, rec.key, Whole(rec));
      KeptTransitive(before, created, disk);
      return Done;
    }

    /** The deferred removal of an unlinked scratch record; the failure stands. */
    method AbandonStaged(key: Key) returns (f: Flow)
      requires Inv(disk) && Published(key) !in disk.names
      modifies this
      ensures Kept(old(disk), disk) && clock >= old(clock)
      ensures disk.attempts == old(disk).attempts && disk.level == old(disk).level
      ensures SamePublished(old(disk), disk)
      ensures !f.Done? && (Smooth(old(clock)) ==> f.Error?)
    {
      f := ClearStaged(key);
      if f.Done? { f := Error; }
    }

    /** Creates the missing directories prepared and prepared/records, one call each. */
    method MakeRecordsDirectory() returns (f: Flow)
      requires Inv(disk)
      modifies this
      ensures Kept(old(disk), disk) && clock >= old(clock)
      ensures disk == old(disk).(level := disk.level)
      ensures f.Done? ==> disk.level == 2
      ensures Smooth(old(clock)) ==> f.Done?
    {
      ghost var before := disk;
      while disk.level < 2
        invariant Kept(before, disk) && clock >= old(clock)
        invariant disk == before.(level := disk.level)
        decreases 2 - disk.level
      {
        var e := Call();
        if e != Ok { return FlowOf(e); }
        ghost var here := disk;
        disk := disk.(level := disk.level + 1);
        assert Kept(here, disk);
        KeptTransitive(before, here, disk);
      }
      return Done;
    }

    /** storePrepared: publish a record by linking a completely written scratch file, never replacing one. */
    method StorePrepared(rec: Record) returns (f: Flow)
      requires Inv(disk) && ValidRecord(rec, rec.key) && Backed(disk, rec)
      modifies this
      ensures Kept(old(disk), disk) && clock >= old(clock)
      ensures disk.attempts == old(disk).attempts
      ensures f.Done? ==> HasRecord(disk, rec.key) && RecordAt(disk, rec.key) == rec
      ensures AddsOnly(old(disk), disk, rec)
      ensures Smooth(old(clock)) ==>
                (f.Done? <==> (HasRecord(old(disk), rec.key) ==>
                   RecordAt(old(disk), rec.key) == rec && size(rec) <= RECORD_LIMIT))
    {
      hide Inv, Advances, ValidRecord, Backed;
      ghost var before := disk;
      var found;
      f, found := LoadPrepared(rec.key);
      AdvancesRecord(before, disk, rec.key);
      if !f.Done? { return; }
      if found.Some? {
        if found.value != rec { f := Error; }
        return;
      }
      ghost var loaded := disk;
      f := MakeRecordsDirectory();
      KeptTransitive(before, loaded, disk);
      if !f.Done? { return; }
      ghost var made := disk;
      f := ClearStaged(rec.key);
      KeptTransitive(before, made, disk);
      if !f.Done? { return; }
      ghost var cleared := disk;
      f := StageRecord(rec);
      KeptTransitive(before, cleared, disk);
      if !f.Done? { return; }
      ghost var staged := disk;
      BackedSame(before, disk, rec);
      f := PublishStaged(rec);
      KeptTransitive(before, staged, disk);
    }

    /** Links the scratch record to its final name and removes the scratch name. */
    method PublishStaged(rec: Record) returns (f: Flow)
      requires Inv(disk) && ValidRecord(rec, rec.key) && Backed(disk, rec)
      requires Published(rec.key) !in disk.names && Staged(rec.key) in disk.names
      requires disk.inodes[disk.names[Staged(rec.key)]] == Whole(rec)
      modifies this
      ensures Kept(old(disk), disk) && clock >= old(clock)
      ensures disk.attempts == old(disk).attempts
      ensures f.Done? ==> HasRecord(disk, rec.key) && RecordAt(disk, rec.key) == rec
      ensures AddsOnly(old(disk), disk, rec)
      ensures Smooth(old(clock)) ==> f.Done?
    {
      hide Inv, Advances;
      ghost var before := disk;
      KeptSame(before);
      var e := Call();
      if e == Stop { return Halted; }
      if e == Fail { f := AbandonStaged(rec.key); return; }
      LinkStagedOk(disk, rec.key, rec);
      disk := LinkStaged(disk, rec.key);
      ghost var linked := disk;
      e := Call();
      if e != Ok { return FlowOf(e); }
      RemoveStagedOk(disk, rec.key);
      disk := disk.(names := disk.names - {Staged(rec.key)});
      KeptTransitive(before, linked, disk);
      e := Call();
      return FlowOf(e);
    }

    /**
     resumePendingAdmission: admit a journalled candidate after rechecking it. None means there is no journal to resume.
     */
    method ResumePending(req: Request, world: World) returns (f: Flow, r: Option<Record>)
      requires Inv(disk)
      modifies this
      ensures Kept(old(disk), disk) && clock >= old(clock)
      ensures f.Done? && r.Some? ==>
                && r.value.key == req.key && HasRecord(disk, req.key) && RecordAt(disk, req.key) == r.value
                && Backed(disk, r.value) && disk.attempts[r.value.dir].journal.value.phase == Admitted
      ensures AddsFrom(old(disk), disk, req)
      ensures f.Done? && r.None? ==>
          disk == old(disk) && (req.dir !in disk.attempts || disk.attempts[req.dir].journal.None?)
      ensures Smooth(old(clock)) && req.dir !in old(disk).attempts ==> f.Done? && r.None?
      ensures Smooth(old(clock)) && Resumable(old(disk), req, world) && Published(req.key) !in old(disk).names ==>
                f.Done? && r == Some(RecordOf(old(disk).attempts[req.dir].journal.value, req.dir))
    {
      hide AddsOnly, AddsFrom, Advances, Inv;
      r := None;
      KeptSame(disk);
      PublishesNothing(disk, req);
      PendingFacts(disk, req.dir);
      var e := Call();
      if e != Ok { f := FlowOf(e); return; }
      if req.dir !in disk.attempts || disk.attempts[req.dir].journal.None? { f := Done; return; }
      var j := disk.attempts[req.dir].journal.value;
      if j.phase != AdmissionPending || j.key != req.key || j.candidate != req.candidate || j.receipt.None? {
        f := Error;
        return;
      }
      var rec := RecordOf(j, req.dir);
      if !HexDigest(rec.identity) || !ValidReceipt(rec.receipt, req.key, rec.candidate) { f := Error; return; }
      e := Call();
      if e != Ok { f := FlowOf(e); return; }
      if world.identity(rec.candidate) != rec.identity { f := Error; return; }
      ghost var before := disk;
      f := StorePrepared(rec);
      AddsOwn(before, disk, disk, rec, req);
      if !f.Done? { return; }
      ghost var stored := disk;
      f := CompleteAdmission(rec);
      AddsOwn(before, stored, disk, rec, req);
      KeptTransitive(before, stored, disk);
      AdvancesRecord(stored, disk, req.key);
      if f.Done? { r := Some(rec); }
    }

    /** The deferred failure path: record a failed journal before admission was pending. */
    method FailAttempt(dir: bytes) returns (f: Flow)
      requires Inv(disk) && dir in disk.attempts && disk.attempts[dir].journal.Some?
      requires Rank(disk.attempts[dir].journal.value.phase) < Rank(AdmissionPending)
      modifies this
      ensures Kept(old(disk), disk) && clock >= old(clock)
      ensures dir in disk.attempts && disk == SetAttempt(old(disk), dir, disk.attempts[dir])
      ensures !f.Done?
      ensures Smooth(old(clock)) && old(disk).attempts[dir].scratch == Absent ==>
                disk.attempts[dir] == Attempt(Some(old(disk).attempts[dir].journal.value.(phase := FailedPhase)), Absent)
    {
      f := WriteAttempt(dir, disk.attempts[dir].journal.value.(phase := FailedPhase));
      if f.Done? { f := Error; }
    }

    /** Build: reserve a fresh attempt directory and carry the candidate through every phase to stopped. */
    method Build(req: Request) returns (f: Flow)
      requires Inv(disk)
      modifies this
      ensures Kept(old(disk), disk) && clock >= old(clock)
      ensures disk.names == old(disk).names && disk.inodes == old(disk).inodes
      ensures disk.attempts.Keys <= old(disk).attempts.Keys + {req.dir}
      ensures f.Done? ==> req.dir !in old(disk).attempts && req.dir in disk.attempts
      ensures f.Done? ==> disk.attempts[req.dir] == InPhase(req, CandidateStopped)
      ensures Smooth(old(clock)) ==> (f.Done? <==> req.dir !in old(disk).attempts)
    {
      hide Inv, Advances, JournalOk;
      ghost var before := disk;
      KeptSame(before);
      var e := Call();
      if e != Ok { return FlowOf(e); }
      if req.dir in disk.attempts { return Error; }
      SetAttemptOk(disk, req.dir, Attempt(None, Absent));
      disk := SetAttempt(disk, req.dir, Attempt(None, Absent));
      ghost var reserved := disk;
      EarlyOk(req, Reserved);
      f := WriteAttempt(req.dir, InPhase(req, Reserved).journal.value);
      KeptTransitive(before, reserved, disk);
      if !f.Done? { return; }
      ghost var here := disk;
      f := RunPhases(req);
      KeptTransitive(before, here, disk);
    }

    /** The phases of a reserved attempt; a failure in any of them is journalled. */
    method RunPhases(req: Request) returns (f: Flow)
      requires Inv(disk) && req.dir in disk.attempts && disk.attempts[req.dir] == InPhase(req, Reserved)
      modifies this
      ensures Kept(old(disk), disk) && clock >= old(clock)
      ensures req.dir in disk.attempts && disk == SetAttempt(old(disk), req.dir, disk.attempts[req.dir])
      ensures f.Done? ==> disk.attempts[req.dir] == InPhase(req, CandidateStopped)
      ensures Smooth(old(clock)) ==> f.Done?
    {
      hide Inv, Advances, JournalOk, JournalForward;
      ghost var before := disk;
      KeptSame(before);
      var i := 0;
      while i < |BUILD_PHASES|
        invariant 0 <= i <= |BUILD_PHASES|
        invariant Kept(before, disk) && clock >= old(clock) && req.dir in disk.attempts
        invariant disk == SetAttempt(before, req.dir, disk.attempts[req.dir])
        invariant disk.attempts[req.dir] == InPhase(req, if i == 0 then Reserved else BUILD_PHASES[i - 1])
      {
        ghost var here := disk;
        EarlyOk(req, BUILD_PHASES[i]);
        PhaseAfter(req, i);
        f := RunPhase(req, BUILD_PHASES[i]);
        KeptTransitive(before, here, disk);
        if !f.Done? { return; }
        i := i + 1;
      }
      // The deferred removal of the temporary verifier may still fail the attempt.
      var e := Call();
      if e == Stop { return Halted; }
      if e == Fail {
        ghost var here := disk;
        f := FailAttempt(req.dir);
        KeptTransitive(before, here, disk);
        return;
      }
      return Done;
    }

    /** The work of one phase, then its journal entry. */
    method RunPhase(req: Request, phase: Phase) returns (f: Flow)
      requires Inv(disk) && req.dir in disk.attempts && disk.attempts[req.dir].scratch == Absent
      requires var j := disk.attempts[req.dir].journal;
        j.Some? && j == InPhase(req, j.value.phase).journal && Rank(j.value.phase) < Rank(AdmissionPending)
      requires Rank(phase) < Rank(AdmissionPending) && MayFollow(disk, req.dir, InPhase(req, phase).journal.value)
      modifies this
      ensures Kept(old(disk), disk) && clock >= old(clock)
      ensures req.dir in disk.attempts && disk == SetAttempt(old(disk), req.dir, disk.attempts[req.dir])
      ensures f.Done? ==> disk.attempts[req.dir] == InPhase(req, phase)
      ensures Smooth(old(clock)) ==> f.Done?
    {
      hide Inv, Advances, MayFollow;
      ghost var before := disk;
      KeptSame(before);
      assert disk == SetAttempt(disk, req.dir, disk.attempts[req.dir]);
      var e := Call();
      if e == Stop { return Halted; }
      if e == Fail {
        f := FailAttempt(req.dir);
        return;
      }
      f := WriteAttempt(req.dir, InPhase(req, phase).journal.value);
      if f.Error? {
        ghost var here := disk;
        f := FailAttempt(req.dir);
        KeptTransitive(before, here, disk);
      }
    }

    /** Qualification of a stopped candidate up to the durable pending journal. */
    method Qualify(req: Request, world: World) returns (f: Flow)
      requires Inv(disk) && req.dir in disk.attempts
      requires disk.attempts[req.dir] == InPhase(req, CandidateStopped)
      modifies this
      ensures Kept(old(disk), disk) && clock >= old(clock)
      ensures disk.names == old(disk).names && disk.inodes == old(disk).inodes
      ensures disk.attempts.Keys == old(disk).attempts.Keys
      ensures f.Done? ==>
                && req.dir in disk.attempts && disk.attempts[req.dir].journal ==
                   Some(Journal(req.candidate, req.key, AdmissionPending, world.identity(req.candidate), Some(world.receipt)))
                && Qualified(req, world)
      ensures Smooth(old(clock)) ==> (f.Done? <==> Qualified(req, world))
    {
      hide Inv, Advances;
      ValidReceiptExactly(world.receipt, req.key, req.candidate);
      ghost var before := disk;
      var j := disk.attempts[req.dir].journal.value;
      f := WriteAttempt(req.dir, j.(phase := Qualifying));
      if !f.Done? { return; }
      ghost var here := disk;
      var e := Call();
      if e == Stop { return Halted; }
      var identity := world.identity(req.candidate);
      if e == Fail || !ValidReceipt(world.receipt, req.key, req.candidate) || !HexDigest(identity) {
        f := FailAttempt(req.dir);
        KeptTransitive(before, here, disk);
        return;
      }
      f := WriteAttempt(req.dir, j.(phase := AdmissionPending, identity := identity, receipt := Some(world.receipt)));
      KeptTransitive(before, here, disk);
    }

    /** The cached record, verified again and admitted if its journal is still pending. */
    method Reuse(rec: Record, world: World) returns (f: Flow)
      requires Inv(disk) && HasRecord(disk, rec.key) && RecordAt(disk, rec.key) == rec
      modifies this
      ensures Kept(old(disk), disk) && clock >= old(clock)
      ensures disk.names == old(disk).names && disk.inodes == old(disk).inodes
      ensures f.Done? ==> Backed(disk, rec) && disk.attempts[rec.dir].journal.value.phase == Admitted
      ensures Smooth(old(clock)) ==> (f.Done? <==> world.identity(rec.candidate) == rec.identity)
    {
      KeptSame(disk);
      var e := Call();
      if e != Ok { return FlowOf(e); }
      if !Backed(disk, rec) { return Error; }
      e := Call();
      if e != Ok { return FlowOf(e); }
      if world.identity(rec.candidate) != rec.identity { return Error; }
      f := CompleteAdmission(rec);
    }

    /**
     Prepare: reuse the cached record of the key, resume a pending admission, or build and admit a fresh candidate.
     */
    method Prepare(req: Request, world: World) returns (a: Answer)
      requires Inv(disk)
      modifies this
      ensures Kept(old(disk), disk)
      ensures a.Prepared? ==>
                && a.rec.key == req.key && HasRecord(disk, req.key) && RecordAt(disk, req.key) == a.rec
                && Backed(disk, a.rec) && disk.attempts[a.rec.dir].journal.value.phase == Admitted
      ensures a.Prepared? ==> Digits64(a.rec.identity) && PassedFor(a.rec.receipt, req.key, a.rec.candidate)
      ensures Smooth(old(clock)) && HasRecord(old(disk), req.key) ==>
                var cached := RecordAt(old(disk), req.key);
                && (a.Prepared? <==> size(cached) <= RECORD_LIMIT && world.identity(cached.candidate) == cached.identity)
                && (a.Prepared? ==> a == Prepared(Reused, cached))
      ensures Smooth(old(clock)) && !HasRecord(old(disk), req.key) && Resumable(old(disk), req, world) ==>
                a == Prepared(Reused, RecordOf(old(disk).attempts[req.dir].journal.value, req.dir))
      ensures AddsFrom(old(disk), disk, req)
      ensures Smooth(old(clock)) && Journalled(old(disk), req, world) && Sole(old(disk), req) ==>
                var rec := JournalledRecord(old(disk), req);
                a == Prepared(Reused, rec) <==> (HasRecord(old(disk), req.key) ==> size(rec) <= RECORD_LIMIT)
      ensures Smooth(old(clock)) && !HasRecord(old(disk), req.key) && req.dir !in old(disk).attempts ==>
                a == if Qualified(req, world) then Prepared(Built, FreshRecord(req, world)) else Refused
    {
      if Journalled(disk, req, world) && Sole(disk, req) { JournalledCases(disk, req, world); }
      hide Inv, Advances, Backed, ValidReceipt, HexDigest, SamePublished, AddsFrom, PassedFor, Digits64, Qualified;
      ghost var before := disk;
      var f, found := LoadPrepared(req.key);
      AdvancesRecord(before, disk, req.key);
      PublishesNothing(disk, req);
      AddsLater(before, disk, disk, req);
      if !f.Done? { return Refused; }
      ghost var loaded := disk;
      if found.Some? {
        RecordKey(disk, req.key);
        f := Reuse(found.value, world);
        SameNames(loaded, disk, req);
        AddsLater(before, loaded, disk, req);
        KeptTransitive(before, loaded, disk);
        AdvancesRecord(loaded, disk, req.key);
        PublishedIsQualified(disk, req.key);
        return if f.Done? then Prepared(Reused, found.value) else Refused;
      }
      var resumed;
      f, resumed := ResumePending(req, world);
      AddsLater(before, loaded, disk, req);
      KeptTransitive(before, loaded, disk);
      if !f.Done? { return Refused; }
      if resumed.Some? {
        PublishedIsQualified(disk, req.key);
        return Prepared(Reused, resumed.value);
      }
      a := BuildAndAdmit(req, world);
      AddsLater(before, loaded, disk, req);
      KeptTransitive(before, loaded, disk);
      if a.Prepared? { PublishedIsQualified(disk, req.key); }
    }

    method BuildAndAdmit(req: Request, world: World) returns (a: Answer)
      requires Inv(disk)
      modifies this
      ensures Kept(old(disk), disk)
      ensures a.Prepared? ==>
                && a.rec.key == req.key && HasRecord(disk, req.key) && RecordAt(disk, req.key) == a.rec
                && Backed(disk, a.rec) && disk.attempts[a.rec.dir].journal.value.phase == Admitted
      ensures AddsFrom(old(disk), disk, req)
      ensures Smooth(old(clock)) && !HasRecord(old(disk), req.key) && req.dir !in old(disk).attempts ==>
                a == if Qualified(req, world) then Prepared(Built, FreshRecord(req, world)) else Refused
    {
      hide Inv, Advances, ValidReceipt, HexDigest, AddsOnly, AddsFrom, Qualified, ValidRecord;
      ghost var before := disk;
      var f := Build(req);
      SameNames(before, disk, req);
      if !f.Done? { return Refused; }
      ghost var built := disk;
      f := Qualify(req, world);
      KeptTransitive(before, built, disk);
      SameNames(before, disk, req);
      if !f.Done? { return Refused; }
      ghost var pending := disk;
      var rec := FreshRecord(req, world);
      FreshOk(req, world);
      a := Publish(req, rec);
      KeptTransitive(before, pending, disk);
      AddsAfterSame(before, pending, disk, req);
    }

    /** Stores the record of a pending journal and admits it. */
    method Publish(req: Request, rec: Record) returns (a: Answer)
      requires Inv(disk) && ValidRecord(rec, rec.key) && Backed(disk, rec) && rec.key == req.key && rec.dir == req.dir
      modifies this
      ensures Kept(old(disk), disk) && AddsFrom(old(disk), disk, req)
      ensures a.Prepared? ==>
                && a == Prepared(Built, rec) && HasRecord(disk, req.key) && RecordAt(disk, req.key) == rec
                && Backed(disk, rec) && disk.attempts[rec.dir].journal.value.phase == Admitted
      ensures Smooth(old(clock)) && !HasRecord(old(disk), req.key) ==> a == Prepared(Built, rec)
    {
      hide Inv, Advances, ValidRecord, AddsOnly, AddsFrom;
      ghost var before := disk;
      var f := StorePrepared(rec);
      AddsOwn(before, disk, disk, rec, req);
      if !f.Done? { return Refused; }
      ghost var stored := disk;
      f := CompleteAdmission(rec);
      AddsOwn(before, stored, disk, rec, req);
      KeptTransitive(before, stored, disk);
      AdvancesRecord(stored, disk, req.key);
      return if f.Done? then Prepared(Built, rec) else Refused;
    }
  }

  /** What qualification reports about the candidate is acceptable. */
  predicate Qualified(req: Request, world: World) {
    Digits64(world.identity(req.candidate)) && PassedFor(world.receipt, req.key, req.candidate)
  }

  lemma FreshOk(req: Request, world: World)
    requires Qualified(req, world)
    ensures ValidRecord(FreshRecord(req, world), req.key)
  {
    ValidReceiptExactly(world.receipt, req.key, req.candidate);
  }

  function FreshRecord(req: Request, world: World): Record {
    Record(req.key, req.candidate, world.identity(req.candidate), req.dir, world.receipt)
  }

  /** The attempt of the request has a pending or admitted journal for it, and the candidate is unchanged. */
  predicate Journalled(d: Disk, req: Request, world: World) {
    && req.dir in d.attempts && d.attempts[req.dir].journal.Some?
    && var j := d.attempts[req.dir].journal.value;
       && Pending(j) && j.receipt.Some? && j.key == req.key && j.candidate == req.candidate
       && world.identity(j.candidate) == j.identity
  }

  function JournalledRecord(d: Disk, req: Request): Record
    requires req.dir in d.attempts && d.attempts[req.dir].journal.Some? && d.attempts[req.dir].journal.value.receipt.Some?
  {
    RecordOf(d.attempts[req.dir].journal.value, req.dir)
  }

  /** No other attempt has published a record for the request's key. */
  predicate Sole(d: Disk, req: Request) {
    HasRecord(d, req.key) ==> RecordAt(d, req.key).dir == req.dir
  }

  lemma JournalledCases(d: Disk, req: Request, world: World)
    requires Inv(d) && Journalled(d, req, world) && Sole(d, req)
    ensures HasRecord(d, req.key) ==> RecordAt(d, req.key) == JournalledRecord(d, req)
    ensures !HasRecord(d, req.key) ==> Resumable(d, req, world)
  {
    if HasRecord(d, req.key) { assert Backed(d, RecordAt(d, req.key)); }
  }

  lemma SoleKept(d: Disk, e: Disk, call: Request, req: Request)
    requires Inv(d) && Kept(d, e) && AddsFrom(d, e, call) && Sole(d, req) && (call.key == req.key ==>
        call.dir == req.dir)
    ensures Sole(e, req)
  {
    if Published(req.key) in d.names { assert HasRecord(d, req.key); }
  }

  lemma PublishesNothing(d: Disk, req: Request)
    ensures AddsFrom(d, d, req)
  {
  }

  lemma SameNames(d: Disk, e: Disk, req: Request)
    requires d.names == e.names
    ensures AddsFrom(d, e, req) && SamePublished(d, e)
  {
  }

  lemma AddsLater(d: Disk, e: Disk, f: Disk, req: Request)
    requires SamePublished(d, e) && AddsFrom(e, f, req)
    ensures AddsFrom(d, f, req)
  {
  }

  lemma AddsAfterSame(d: Disk, e: Disk, f: Disk, req: Request)
    requires d.names == e.names && AddsFrom(e, f, req)
    ensures AddsFrom(d, f, req)
  {
  }

  lemma AddsOwn(d: Disk, e: Disk, f: Disk, rec: Record, req: Request)
    requires AddsOnly(d, e, rec) && rec.key == req.key && rec.dir == req.dir && f.names == e.names
    requires f.inodes == e.inodes
    ensures AddsFrom(d, f, req)
  {
  }

  /** What the invariant says about a pending journal. */
  lemma PendingFacts(d: Disk, dir: bytes)
    requires Inv(d)
    ensures dir in d.attempts && d.attempts[dir].journal.Some? && Pending(d.attempts[dir].journal.value) ==>
            var j := d.attempts[dir].journal.value;
            && j.receipt.Some? && HexDigest(j.identity) && ValidReceipt(j.receipt.value, j.key, j.candidate)
            && ValidRecord(RecordOf(j, dir), j.key) && Backed(d, RecordOf(j, dir))
  {
    if dir in d.attempts && d.attempts[dir].journal.Some? { assert JournalOk(d.attempts[dir].journal.value); }
  }

  lemma RecordKey(d: Disk, k: Key)
    requires Inv(d) && HasRecord(d, k)
    ensures RecordAt(d, k).key == k
  {
  }

  /** A returned record is for the request's key and of a passed qualification. */
  predicate Sound(a: Answer, req: Request) {
    a.Prepared? ==>
      a.rec.key == req.key && Digits64(a.rec.identity) && PassedFor(a.rec.receipt, req.key, a.rec.candidate)
  }

  /**
   Any history of Prepare calls on one machine, each stopped or failing wherever the script says, starting from an empty
   disk.
   */
  method History(script: nat -> Event, size: Record -> nat, reqs: seq<Request>, worlds: seq<World>)
    returns (answers: seq<Answer>)
    requires |reqs| == |worlds|
    ensures |answers| == |reqs|
    ensures forall i, j :: 0 <= i < |reqs| && 0 <= j < |reqs| && reqs[i].key == reqs[j].key ==>
              answers[i].Prepared? && answers[j].Prepared? ==> answers[i].rec == answers[j].rec
    ensures forall i :: 0 <= i < |reqs| && answers[i].Prepared? ==>
              && answers[i].rec.key == reqs[i].key && Digits64(answers[i].rec.identity)
              && PassedFor(answers[i].rec.receipt, reqs[i].key, answers[i].rec.candidate)
  {
    var m := new Machine(script, size);
    answers := [];
    while |answers| < |reqs|
      invariant |answers| <= |reqs| && Inv(m.disk)
      invariant forall i :: 0 <= i < |answers| ==> Recorded(m.disk, answers[i], reqs[i]) && Sound(answers[i], reqs[i])
    {
      hide Inv, Advances, Recorded, Sound;
      ghost var here := m.disk;
      var n := |answers|;
      var a := Once(m, reqs[n], worlds[n]);
      forall i | 0 <= i < n ensures Recorded(m.disk, answers[i], reqs[i]) {
        RecordedKept(here, m.disk, answers[i], reqs[i]);
      }
      answers := answers + [a];
    }
  }

  /** A returned record is the published one. */
  predicate Recorded(d: Disk, a: Answer, req: Request) {
    a.Prepared? ==> HasRecord(d, req.key) && RecordAt(d, req.key) == a.rec
  }

  method Once(m: Machine, req: Request, world: World) returns (a: Answer)
    requires Inv(m.disk)
    modifies m
    ensures Kept(old(m.disk), m.disk) && Recorded(m.disk, a, req) && Sound(a, req)
  {
    hide Inv, Advances, PassedFor, Digits64, AddsFrom, Qualified, Backed;
    a := m.Prepare(req, world);
  }

  lemma RecordedKept(d: Disk, e: Disk, a: Answer, req: Request)
    requires Advances(d, e) && Recorded(d, a, req)
    ensures Recorded(e, a, req)
  {
    hide Advances;
    AdvancesRecord(d, e, req.key);
  }

  /**
   Recovery: on a machine where no other attempt has published for the key of req, after any calls, stopped or
   failing wherever the script says, of which those for that key use the attempt of req, one call begun when
   nothing goes wrong any more returns exactly the record that was or has been journalled, unless that record is
   already published and too long to be loaded. left is the disk which that call finds.
   */
  method Recovery(m: Machine, reqs: seq<Request>, worlds: seq<World>, req: Request, world: World, from: nat)
    returns (a: Answer, left: Disk)
    requires Inv(m.disk) && Sole(m.disk, req)
    requires |reqs| == |worlds| && forall t: nat :: t >= from ==> m.script(t) == Ok
    requires forall i :: 0 <= i < |reqs| && reqs[i].key == req.key ==> reqs[i].dir == req.dir
    modifies m
    ensures Kept(old(m.disk), left) && Kept(left, m.disk)
    ensures Journalled(old(m.disk), req, world) ==>
              Journalled(left, req, world) && JournalledRecord(left, req) == JournalledRecord(old(m.disk), req)
    ensures Journalled(left, req, world) ==>
              var rec := JournalledRecord(left, req);
              a == Prepared(Reused, rec) <==> (HasRecord(left, req.key) ==> m.size(rec) <= 4096)
    ensures Journalled(left, req, world) && HasRecord(left, req.key) ==>
              RecordAt(left, req.key) == JournalledRecord(left, req)
  {
    ghost var start := m.disk;
    KeptSame(start);
    var n := 0;
    while n < |reqs|
      invariant n <= |reqs| && Kept(start, m.disk) && Sole(m.disk, req)
    {
      hide Inv, Advances, AddsFrom, Sole;
      ghost var here := m.disk;
      var answer := m.Prepare(reqs[n], worlds[n]);
      SoleKept(here, m.disk, reqs[n], req);
      KeptTransitive(start, here, m.disk);
      n := n + 1;
    }
    left := m.disk;
    if Journalled(start, req, world) { JournalledKept(start, left, req, world); }
    if Journalled(left, req, world) { JournalledCases(left, req, world); }
    if m.clock < from { m.clock := from; }
    hide Inv, Advances, AddsFrom, Sole;
    a := m.Prepare(req, world);
  }

  lemma JournalledKept(d: Disk, e: Disk, req: Request, world: World)
    requires Inv(d) && Advances(d, e) && Journalled(d, req, world)
    ensures Journalled(e, req, world) && JournalledRecord(e, req) == JournalledRecord(d, req)
  {
    PendingStays(d, e, req.dir);
  }

  /**
   Why those calls must use the same attempt: here attempt a is left with a pending journal, attempt b then
   publishes for the same key, and a's next undisturbed call returns b's record.
   */
  method RivalAttempt(size: Record -> nat, a: Request, b: Request, world: World, rival: World) returns (m: Machine,
        answer: Answer)
    requires a.key == b.key && a.dir != b.dir && Qualified(a, world) && Qualified(b, rival)
    requires size(FreshRecord(b, rival)) <= RECORD_LIMIT && world.identity(b.candidate) == rival.identity(b.candidate)
    ensures answer == Prepared(Reused, FreshRecord(b, rival)) && answer.rec != FreshRecord(a, world)
    ensures Inv(m.disk) && Journalled(m.disk, a, world) && JournalledRecord(m.disk, a) == FreshRecord(a, world)
  {
    hide Inv, Advances, AddsFrom, Qualified, PassedFor, Digits64, Backed;
    m := new Machine(_ => Ok, size);
    assert m.Smooth(0);
    var f := m.Build(a);
    f := m.Qualify(a, world);
    ghost var pending := m.disk;
    NothingPublished(pending, a.key);
    var first := m.Prepare(b, rival);
    ghost var published := m.disk;
    answer := m.Prepare(a, world);
    PendingStays(pending, published, a.dir);
    PendingStays(published, m.disk, a.dir);
  }

  lemma NothingPublished(d: Disk, k: Key)
    requires d.names == map[]
    ensures !HasRecord(d, k)
  {
  }

  /** A pending journal stays pending or admitted, with its candidate, identity and receipt. */
  lemma PendingStays(d: Disk, e: Disk, dir: bytes)
    requires Advances(d, e) && Inv(d) && dir in d.attempts && d.attempts[dir].journal.Some?
    requires Pending(d.attempts[dir].journal.value)
    ensures dir in e.attempts && e.attempts[dir].journal.Some?
    ensures var j := d.attempts[dir].journal.value; var j' := e.attempts[dir].journal.value;
            && Pending(j') && j'.candidate == j.candidate && j'.key == j.key
            && j'.identity == j.identity && j'.receipt == j.receipt
  {
  }

  /** dir holds a pending journal for exactly this request, and the candidate is unchanged. */
  predicate Resumable(d: Disk, req: Request, world: World) {
    && req.dir in d.attempts && d.attempts[req.dir].journal.Some?
    && var j := d.attempts[req.dir].journal.value;
       j.phase == AdmissionPending && j.key == req.key && j.candidate == req.candidate
       && world.identity(j.candidate) == j.identity
  }

  lemma AdvancesRecord(d: Disk, e: Disk, k: Key)
    requires Advances(d, e)
    ensures HasRecord(d, k) ==> HasRecord(e, k) && RecordAt(e, k) == RecordAt(d, k)
  {
  }

  lemma BackedSame(d: Disk, e: Disk, rec: Record)
    requires Backed(d, rec) && e.attempts == d.attempts
    ensures Backed(e, rec)
  {
  }

  /** Both names are the only two links of one file. */
  predicate LinkedPair(d: Disk, a: Name, b: Name)
    requires a in d.names && b in d.names
  {
    d.names[a] == d.names[b] && forall n :: n in d.names && d.names[n] == d.names[a] ==> n == a || n == b
  }
}
