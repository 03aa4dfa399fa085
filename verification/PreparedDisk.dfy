/** What the prepared-base cache keeps on disk: attempt journals, the records directory, and their invariant. */
module PreparedDisk {
  import opened Bytes
  import opened Paths

  datatype Phase =
    | Reserved | Rendered | Created | Running | Preparing | Finalizing | Stopping | CandidateStopped
    | Qualifying | AdmissionPending | Admitted | FailedPhase

  function Rank(p: Phase): nat {
    match p
    case Reserved => 0 case Rendered => 1 case Created => 2 case Running => 3 case Preparing => 4
    case Finalizing => 5 case Stopping => 6 case CandidateStopped => 7 case Qualifying => 8
    case AdmissionPending => 9 case Admitted => 10 case FailedPhase => 11
  }

  /**
   Phases only move forward; failed is entered only before admission is pending, and nothing leaves failed or admitted.
   */
  predicate PhaseForward(a: Phase, b: Phase) {
    || a == b
    || (b == FailedPhase && Rank(a) < Rank(AdmissionPending))
    || (b != FailedPhase && Rank(a) < Rank(b))
  }

  type Key = bytes

  datatype Receipt = Receipt(candidate: bytes, key: Key, clone: bytes, evidence: bytes, bom: bytes, passed: bool)

  /** backend.ValidateObjectID. */
  predicate ValidObjectId(id: bytes) {
    && 0 < |id| <= 127 && Alphanumeric(id[0])
    && forall i :: 1 <= i < |id| ==> Alphanumeric(id[i]) || id[i] == 45
  }

  predicate ValidReceipt(r: Receipt, key: Key, candidate: bytes) {
    && r.passed && r.candidate == candidate && r.key == key && ValidObjectId(r.clone) && r.clone != candidate
    && HexDigest(r.evidence) && HexDigest(r.bom)
  }

  /** 64 lower-case hexadecimal digits. */
  predicate Digits64(d: bytes) {
    |d| == 64 && forall i :: 0 <= i < 64 ==> 48 <= d[i] <= 57 || 97 <= d[i] <= 102
  }

  /** One to 127 letters, digits and hyphens, the first no hyphen. */
  predicate LiteralId(id: bytes) {
    && 1 <= |id| <= 127 && id[0] != 45
    && forall i :: 0 <= i < |id| ==> 48 <= id[i] <= 57 || 65 <= id[i] <= 90 || 97 <= id[i] <= 122 || id[i] == 45
  }

  /** A qualification that passed, for this key and candidate, on a clone, with both digests written out. */
  predicate PassedFor(r: Receipt, key: Key, candidate: bytes) {
    && r.passed == true
    && r.candidate == candidate
    && r.key == key
    && LiteralId(r.clone) && r.clone != candidate
    && Digits64(r.evidence)
    && Digits64(r.bom)
  }

  lemma ValidReceiptExactly(r: Receipt, key: Key, candidate: bytes)
    ensures ValidReceipt(r, key, candidate) <==> PassedFor(r, key, candidate)
  {
  }

  datatype Journal = Journal(candidate: bytes, key: Key, phase: Phase, identity: bytes, receipt: Option<Receipt>)

  /** One journal may replace another in place. */
  predicate JournalForward(a: Journal, b: Journal) {
    && a.candidate == b.candidate && a.key == b.key && PhaseForward(a.phase, b.phase)
    && (Rank(a.phase) >= Rank(AdmissionPending) ==> a.identity == b.identity && a.receipt == b.receipt)
  }

  /** The scratch file attempt.json.next: absent, partly written, or complete. */
  datatype Scratch = Absent | Torn | Ready(j: Journal)

  datatype Attempt = Attempt(journal: Option<Journal>, scratch: Scratch)

  datatype Record = Record(key: Key, candidate: bytes, identity: bytes, dir: bytes, receipt: Receipt)

  /** A record file's bytes: a proper prefix of an encoding, or one whole record. */
  datatype Content = Prefix | Whole(rec: Record)

  datatype Name = Published(key: Key) | Staged(key: Key)

  /** level counts how many of the directories prepared and prepared/records exist. */
  datatype Disk = Disk(attempts: map<bytes, Attempt>, level: nat, names: map<Name, nat>, inodes: map<nat, Content>, next: nat)

  predicate ValidRecord(rec: Record, key: Key) {
    rec.key == key && HexDigest(rec.identity) && ValidReceipt(rec.receipt, key, rec.candidate)
  }

  predicate Pending(j: Journal) {
    j.phase == AdmissionPending || j.phase == Admitted
  }

  /** The attempt journal in the record's directory admits exactly this record. */
  predicate Backed(d: Disk, rec: Record) {
    && rec.dir in d.attempts && d.attempts[rec.dir].journal.Some?
    && Matches(d.attempts[rec.dir].journal.value, rec)
  }

  predicate Matches(j: Journal, rec: Record) {
    && Pending(j) && j.candidate == rec.candidate && j.identity == rec.identity && j.key == rec.key
    && j.receipt == Some(rec.receipt)
  }

  /** The record a pending journal in dir stands for. */
  function RecordOf(j: Journal, dir: bytes): Record
    requires j.receipt.Some?
  {
    Record(j.key, j.candidate, j.identity, dir, j.receipt.value)
  }

  predicate JournalOk(j: Journal) {
    Pending(j) ==> j.receipt.Some? && HexDigest(j.identity) && ValidReceipt(j.receipt.value, j.key, j.candidate)
  }

  ghost predicate AttemptsOk(d: Disk) {
    forall dir :: dir in d.attempts && d.attempts[dir].journal.Some? ==> JournalOk(d.attempts[dir].journal.value)
  }

  ghost predicate LinksOk(d: Disk) {
    && (forall n :: n in d.names ==> d.names[n] in d.inodes)
    && (forall i :: i in d.inodes ==> i < d.next)
    && (forall m, n :: m in d.names && n in d.names && d.names[m] == d.names[n] ==> m.key == n.key)
    && (forall k :: Published(k) in d.names && Staged(k) in d.names ==> d.names[Published(k)] == d.names[Staged(k)])
    && (d.names != map[] ==> d.level == 2)
  }

  predicate HasRecord(d: Disk, k: Key) {
    Published(k) in d.names && d.names[Published(k)] in d.inodes && d.inodes[d.names[Published(k)]].Whole?
  }

  function RecordAt(d: Disk, k: Key): Record
    requires HasRecord(d, k)
  {
    d.inodes[d.names[Published(k)]].rec
  }

  /** Every published record is whole, valid, and backed by its journal. */
  ghost predicate RecordsOk(d: Disk) {
    forall k :: Published(k) in d.names ==> HasRecord(d, k) && ValidRecord(RecordAt(d, k), k) && Backed(d, RecordAt(d, k))
  }

  /** A journal is admitted only once the cache holds its record. */
  ghost predicate AdmittedOk(d: Disk) {
    forall dir :: dir in d.attempts && d.attempts[dir].journal.Some? && d.attempts[dir].journal.value.phase == Admitted ==>
      var j := d.attempts[dir].journal.value;
      j.receipt.Some? && HasRecord(d, j.key) && RecordAt(d, j.key) == RecordOf(j, dir)
  }

  ghost predicate Inv(d: Disk) {
    d.level <= 2 && AttemptsOk(d) && LinksOk(d) && RecordsOk(d) && AdmittedOk(d)
  }

  /** Every published record passed its qualification, and the journal beside it is pending or admitted with the same contents. */
  lemma PublishedIsQualified(d: Disk, k: Key)
    requires Inv(d) && HasRecord(d, k)
    ensures var rec := RecordAt(d, k);
      && rec.key == k && Digits64(rec.identity) && PassedFor(rec.receipt, k, rec.candidate)
      && rec.dir in d.attempts && d.attempts[rec.dir].journal.Some?
      && var j := d.attempts[rec.dir].journal.value;
         && (j.phase == AdmissionPending || j.phase == Admitted)
         && j.candidate == rec.candidate && j.identity == rec.identity && j.key == k && j.receipt == Some(rec.receipt)
  {
    ValidReceiptExactly(RecordAt(d, k).receipt, k, RecordAt(d, k).candidate);
  }

  /** The phases in their order. */
  const PHASES: seq<Phase> :=
    [Reserved, Rendered, Created, Running, Preparing, Finalizing, Stopping, CandidateStopped, Qualifying,
     AdmissionPending, Admitted]

  /** Forward means later in that order, or failed from a phase before pending admission. */
  lemma ForwardExactly(a: Phase, b: Phase)
    ensures PhaseForward(a, b) <==>
      || a == b
      || (exists i, j :: 0 <= i < j < |PHASES| && PHASES[i] == a && PHASES[j] == b)
      || (b == FailedPhase && exists i :: 0 <= i < 9 && PHASES[i] == a)
  {
    RankAt(a);
    RankAt(b);
    forall i | 0 <= i < |PHASES| ensures Rank(PHASES[i]) == i { PhaseAt(i); }
    hide Rank;
  }

  lemma RankAt(p: Phase)
    ensures if p == FailedPhase then Rank(p) == 11 else Rank(p) < 11 && PHASES[Rank(p)] == p
    ensures Rank(AdmissionPending) == 9
  {
    match p
    case Reserved => case Rendered => case Created => case Running => case Preparing => case Finalizing =>
    case Stopping => case CandidateStopped => case Qualifying => case AdmissionPending => case Admitted =>
    case FailedPhase =>
  }

  lemma PhaseAt(i: nat)
    requires i < |PHASES|
    ensures Rank(PHASES[i]) == i
  {
  }

  /** Over any execution a pending journal stays pending or becomes admitted, and an admitted one stays as it is. */
  lemma AdmissionIsFinal(d: Disk, e: Disk, dir: bytes)
    requires Advances(d, e) && dir in d.attempts && d.attempts[dir].journal.Some?
    ensures dir in e.attempts && e.attempts[dir].journal.Some?
    ensures var j := d.attempts[dir].journal.value; var j' := e.attempts[dir].journal.value;
      && j'.candidate == j.candidate && j'.key == j.key
      && (j.phase == AdmissionPending ==>
            (j'.phase == AdmissionPending || j'.phase == Admitted) && j'.identity == j.identity && j'.receipt == j.receipt)
      && (j.phase == Admitted ==> j' == j)
      && (j.phase == FailedPhase ==> j'.phase == FailedPhase)
  {
  }

  /** What every execution keeps: journals only move forward and published records stay as they are. */
  ghost predicate Advances(d: Disk, e: Disk) {
    && (forall dir :: dir in d.attempts && d.attempts[dir].journal.Some? ==>
          && dir in e.attempts && e.attempts[dir].journal.Some?
          && JournalForward(d.attempts[dir].journal.value, e.attempts[dir].journal.value))
    && (forall k :: HasRecord(d, k) ==> HasRecord(e, k) && RecordAt(e, k) == RecordAt(d, k))
  }

  lemma AdvancesTransitive(d: Disk, e: Disk, f: Disk)
    requires Advances(d, e) && Advances(e, f)
    ensures Advances(d, f)
  {
  }

  /** Backing survives, because a pending or admitted journal keeps its candidate, identity and receipt. */
  lemma BackedKept(d: Disk, e: Disk, rec: Record)
    requires Backed(d, rec) && Advances(d, e)
    ensures Backed(e, rec)
  {
  }

  function SetAttempt(d: Disk, dir: bytes, a: Attempt): Disk {
    d.(attempts := d.attempts[dir := a])
  }

  /** Changing one attempt directory keeps the invariant when its journal moves forward. */
  lemma SetAttemptOk(d: Disk, dir: bytes, a: Attempt)
    requires Inv(d)
    requires dir in d.attempts && d.attempts[dir].journal.Some? ==>
               a.journal.Some? && JournalForward(d.attempts[dir].journal.value, a.journal.value)
    requires a.journal.Some? ==> JournalOk(a.journal.value)
    requires a.journal.Some? && a.journal.value.phase == Admitted ==>
               HasRecord(d, a.journal.value.key) && RecordAt(d, a.journal.value.key) == RecordOf(a.journal.value, dir)
    ensures Inv(SetAttempt(d, dir, a)) && Advances(d, SetAttempt(d, dir, a))
  {
    var e := SetAttempt(d, dir, a);
    assert Advances(d, e);
    forall k | Published(k) in e.names
      ensures HasRecord(e, k) && ValidRecord(RecordAt(e, k), k) && Backed(e, RecordAt(e, k))
    {
      assert HasRecord(d, k);
      BackedKept(d, e, RecordAt(d, k));
    }
  }

  /** Removing a staged name keeps the invariant. */
  lemma RemoveStagedOk(d: Disk, key: Key)
    requires Inv(d)
    ensures var e := d.(names := d.names - {Staged(key)}); Inv(e) && Advances(d, e)
  {
    var e := d.(names := d.names - {Staged(key)});
    assert forall k :: Published(k) in e.names ==> HasRecord(d, k) && RecordAt(e, k) == RecordAt(d, k);
  }

  function CreateStaged(d: Disk, key: Key): Disk {
    d.(names := d.names[Staged(key) := d.next], inodes := d.inodes[d.next := Prefix], next := d.next + 1)
  }

  lemma CreateStagedOk(d: Disk, key: Key)
    requires Inv(d) && d.level == 2 && Published(key) !in d.names && Staged(key) !in d.names
    ensures var e := CreateStaged(d, key); Inv(e) && Advances(d, e)
  {
    var e := CreateStaged(d, key);
    assert forall k :: Published(k) in e.names ==> HasRecord(d, k) && HasRecord(e, k) && RecordAt(e, k) == RecordAt(d, k);
  }

  function FillStaged(d: Disk, key: Key, c: Content): Disk
    requires Staged(key) in d.names
  {
    d.(inodes := d.inodes[d.names[Staged(key)] := c])
  }

  lemma FillStagedOk(d: Disk, key: Key, c: Content)
    requires Inv(d) && Published(key) !in d.names && Staged(key) in d.names
    ensures var e := FillStaged(d, key, c); Inv(e) && Advances(d, e)
  {
    var e := FillStaged(d, key, c);
    assert forall k :: Published(k) in e.names ==> HasRecord(d, k) && HasRecord(e, k) && RecordAt(e, k) == RecordAt(d, k);
  }

  function LinkStaged(d: Disk, key: Key): Disk
    requires Staged(key) in d.names
  {
    d.(names := d.names[Published(key) := d.names[Staged(key)]])
  }

  lemma LinkStagedOk(d: Disk, key: Key, rec: Record)
    requires Inv(d) && Published(key) !in d.names && Staged(key) in d.names
    requires d.inodes[d.names[Staged(key)]] == Whole(rec) && ValidRecord(rec, key) && Backed(d, rec)
    ensures var e := LinkStaged(d, key); Inv(e) && Advances(d, e) && HasRecord(e, key) && RecordAt(e, key) == rec
  {
    var e := LinkStaged(d, key);
    forall k | Published(k) in e.names
      ensures HasRecord(e, k) && ValidRecord(RecordAt(e, k), k) && Backed(e, RecordAt(e, k))
    {
      if k != key { assert HasRecord(d, k) && RecordAt(e, k) == RecordAt(d, k); }
    }
  }
}
