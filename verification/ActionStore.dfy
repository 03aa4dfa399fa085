/**
 The guest action protocol: concurrent helpers claim an attempt by exclusive
 creation, run its command and publish a receipt by link. One helper action is
 one filesystem call; any helper may stop between two calls, and power may fail.
 The model is of one session directory, below the directory of all attempts, and
 of one attempt ID.
 */
module ActionStore {
  import opened Bytes

  /** meta stands for every field the receipt repeats; argv for the rest of the request. */
  datatype Request = Request(meta: bytes, argv: seq<bytes>)

  /** The SHA-256 of the canonical request encoding. */
  type RequestHash = Request -> digest

  function ClaimBytes(hash: RequestHash, q: Request): bytes {
    hash(q)
  }

  /** The canonical receipt of a succeeded request; it ends in a closing brace, never in a newline. */
  function ReceiptBytes(hash: RequestHash, q: Request): bytes {
    q.meta + hash(q) + [125]
  }

  predicate ReceiptDecodes(hash: RequestHash, q: Request, raw: bytes) {
    raw == ReceiptBytes(hash, q) || raw == ReceiptBytes(hash, q) + [10]
  }

  datatype Name = Claim | Receipt | Temp(nonce: nat)

  datatype Inode = Inode(data: bytes, synced: bool)

  /**
   parent is the directory action-attempts and dir the session's directory in it; each is synced once its entry has
   been made persistent. names is the live session directory, durable what its last sync made persistent.
   */
  datatype Store = Store(
    parent: bool, parentSynced: bool, dir: bool, dirSynced: bool,
    names: map<Name, nat>, durable: map<Name, nat>, inodes: map<nat, Inode>, next: nat)

  /** Both directory entries on the way to the files would survive a power loss. */
  predicate DirDurable(f: Store) {
    f.parentSynced && f.dirSynced
  }

  datatype Pc =
    | OpenParent | MakeParent | SyncBase | OpenStore | MakeStore | SyncStoreParent
    | LookClaim | LookReceipt | CreateClaim | WriteClaim(ino: nat) | SyncClaim(ino: nat) | SyncClaimEntry
    | RunCommand
    | StatClaim | ReadClaim(ino: nat) | StatReceipt | ReadReceipt(ino: nat)
    | PublishOpen | PublishStatClaim | PublishReadClaim(ino: nat) | PublishStatReceipt | PublishReadReceipt(ino: nat)
    | CreateTemp | WriteTemp(nonce: nat, ino: nat) | SyncTemp(nonce: nat, ino: nat) | LinkTemp(nonce: nat, ino: nat)
    | StatLinked(nonce: nat) | ReadLinked(nonce: nat, ino: nat)
    | RemoveTemp(nonce: nat) | SyncReceiptEntry | CleanTemp(nonce: nat)
    | Succeeded | Indeterminate | Failed | Stopped

  datatype Helper = Helper(q: Request, pc: Pc)

  /**
   runs lists the commands started; success is the request whose command succeeded; returned the receipts given out.
   */
  datatype Sys = Sys(
    store: Store, helpers: map<nat, Helper>, runs: seq<Request>, success: Option<Request>, returned: set<Request>)

  /**
   How the environment resolves one call: an I/O error, the bytes a write takes, the command's result, the random nonce.
   */
  datatype Choice = Choice(fail: bool, amount: nat, succeeds: bool, nonce: nat)

  predicate OneLink(f: Store, name: Name)
    requires name in f.names
  {
    forall n :: n in f.names && f.names[n] == f.names[name] ==> n == name
  }

  /** The inode that lstat of a readable action file yields: it exists and has one link. */
  function Readable(f: Store, name: Name): Option<nat> {
    if f.dir && name in f.names && OneLink(f, name) then Some(f.names[name]) else None
  }

  function Create(f: Store, name: Name): Store {
    f.(names := f.names[name := f.next], inodes := f.inodes[f.next := Inode([], false)], next := f.next + 1)
  }

  /** A write that has taken the first n bytes of data. */
  function WriteTo(f: Store, ino: nat, data: bytes, n: nat): Store {
    f.(inodes := f.inodes[ino := Inode(if n <= |data| then data[..n] else data, false)])
  }

  function SyncFile(f: Store, ino: nat): Store {
    if ino in f.inodes then f.(inodes := f.inodes[ino := f.inodes[ino].(synced := true)]) else f
  }

  function SyncEntries(f: Store): Store {
    f.(durable := f.names)
  }

  function At(s: Sys, h: nat, pc: Pc): Sys
    requires h in s.helpers
  {
    s.(helpers := s.helpers[h := s.helpers[h].(pc := pc)])
  }

  function DataOf(f: Store, ino: nat): bytes {
    if ino in f.inodes then f.inodes[ino].data else []
  }

  /** Opening the store, claiming, and running: ClaimAction up to a fresh claim, then the command. */
  function ClaimStep(hash: RequestHash, s: Sys, h: nat, c: Choice): Sys
    requires h in s.helpers
  {
    var q, f := s.helpers[h].q, s.store;
    match s.helpers[h].pc
    case OpenParent => if f.parent then At(s, h, OpenStore) else At(s, h, MakeParent)
    case MakeParent => At(s.(store := f.(parent := true)), h, SyncBase)
    case SyncBase => At(s.(store := f.(parentSynced := f.parent)), h, OpenStore)
    case OpenStore => if f.dir then At(s, h, LookClaim) else At(s, h, MakeStore)
    case MakeStore => if f.parent then At(s.(store := f.(dir := true)), h, SyncStoreParent) else At(s, h, Failed)
    case SyncStoreParent => At(s.(store := f.(dirSynced := f.dir)), h, LookClaim)
    case LookClaim => if Claim in f.names then At(s, h, StatClaim) else At(s, h, LookReceipt)
    case LookReceipt => if Receipt in f.names then At(s, h, Failed) else At(s, h, CreateClaim)
    case CreateClaim =>
      if Claim in f.names then At(s, h, StatClaim)
      else if !f.dir then At(s, h, Failed)
      else At(s.(store := Create(f, Claim)), h, WriteClaim(f.next))
    case WriteClaim(ino) =>
      At(s.(store := WriteTo(f, ino, ClaimBytes(hash, q), c.amount)), h,
         if c.amount >= |ClaimBytes(hash, q)| then SyncClaim(ino) else WriteClaim(ino))
    case SyncClaim(ino) => At(s.(store := SyncFile(f, ino)), h, SyncClaimEntry)
    case SyncClaimEntry => At(s.(store := SyncEntries(f)), h, RunCommand)
    case RunCommand =>
      if c.succeeds then At(s.(runs := s.runs + [q], success := Some(q)), h, PublishOpen)
      else At(s.(runs := s.runs + [q]), h, Failed)
    case _ => s
  }

  /** An attempt already claimed: compare the claim, then read back a receipt. */
  function ReadBackStep(hash: RequestHash, s: Sys, h: nat): Sys
    requires h in s.helpers
  {
    var q, f := s.helpers[h].q, s.store;
    match s.helpers[h].pc
    case StatClaim => if Readable(f, Claim).Some? then At(s, h, ReadClaim(Readable(f, Claim).value)) else At(s, h, Failed)
    case ReadClaim(ino) => if DataOf(f, ino) == ClaimBytes(hash, q) then At(s, h, StatReceipt) else At(s, h, Failed)
    case StatReceipt =>
      if Receipt !in f.names then At(s, h, Indeterminate)
      else if Readable(f, Receipt).Some? then At(s, h, ReadReceipt(Readable(f, Receipt).value))
      else At(s, h, Failed)
    case ReadReceipt(ino) =>
      if ReceiptDecodes(hash, q, DataOf(f, ino)) then At(s.(returned := s.returned + {q}), h, Succeeded)
      else At(s, h, Failed)
    case _ => s
  }

  /** PublishActionSuccess. */
  function PublishStep(hash: RequestHash, s: Sys, h: nat, c: Choice): Sys
    requires h in s.helpers
  {
    var q, f := s.helpers[h].q, s.store;
    match s.helpers[h].pc
    case PublishOpen => if f.dir then At(s, h, PublishStatClaim) else At(s, h, Failed)
    case PublishStatClaim =>
      if Readable(f, Claim).Some? then At(s, h, PublishReadClaim(Readable(f, Claim).value)) else At(s, h, Failed)
    case PublishReadClaim(ino) =>
      if DataOf(f, ino) == ClaimBytes(hash, q) then At(s, h, PublishStatReceipt) else At(s, h, Failed)
    case PublishStatReceipt =>
      if Receipt !in f.names then At(s, h, CreateTemp)
      else if Readable(f, Receipt).Some? then At(s, h, PublishReadReceipt(Readable(f, Receipt).value))
      else At(s, h, Failed)
    case PublishReadReceipt(ino) =>
      if DataOf(f, ino) == ReceiptBytes(hash, q) then At(s, h, SyncReceiptEntry) else At(s, h, Failed)
    case CreateTemp =>
      if Temp(c.nonce) in f.names then At(s, h, Failed)
      else At(s.(store := Create(f, Temp(c.nonce))), h, WriteTemp(c.nonce, f.next))
    case WriteTemp(nonce, ino) =>
      At(s.(store := WriteTo(f, ino, ReceiptBytes(hash, q), c.amount)), h,
         if c.amount >= |ReceiptBytes(hash, q)| then SyncTemp(nonce, ino) else WriteTemp(nonce, ino))
    case SyncTemp(nonce, ino) => At(s.(store := SyncFile(f, ino)), h, LinkTemp(nonce, ino))
    case LinkTemp(nonce, ino) =>
      if Receipt in f.names then At(s, h, StatLinked(nonce))
      else At(s.(store := f.(names := f.names[Receipt := ino])), h, RemoveTemp(nonce))
    case StatLinked(nonce) =>
      if Readable(f, Receipt).Some? then At(s, h, ReadLinked(nonce, Readable(f, Receipt).value))
      else At(s, h, CleanTemp(nonce))
    case ReadLinked(nonce, ino) =>
      if DataOf(f, ino) == ReceiptBytes(hash, q) then At(s, h, RemoveTemp(nonce)) else At(s, h, CleanTemp(nonce))
    case RemoveTemp(nonce) => At(s.(store := f.(names := f.names - {Temp(nonce)})), h, SyncReceiptEntry)
    case SyncReceiptEntry => At(s.(store := SyncEntries(f), returned := s.returned + {q}), h, Succeeded)
    case CleanTemp(nonce) => At(s.(store := f.(names := f.names - {Temp(nonce)})), h, Failed)
    case _ => s
  }

  predicate Publishing(pc: Pc) {
    || pc.PublishOpen? || pc.PublishStatClaim? || pc.PublishReadClaim? || pc.PublishStatReceipt? || pc.PublishReadReceipt?
    || pc.CreateTemp? || pc.WriteTemp? || pc.SyncTemp? || pc.LinkTemp? || pc.StatLinked? || pc.ReadLinked?
    || pc.RemoveTemp? || pc.SyncReceiptEntry? || pc.CleanTemp?
  }

  predicate ReadingBack(pc: Pc) {
    pc.StatClaim? || pc.ReadClaim? || pc.StatReceipt? || pc.ReadReceipt?
  }

  predicate Ended(pc: Pc) {
    pc.Succeeded? || pc.Indeterminate? || pc.Failed? || pc.Stopped?
  }

  /** A call that fails: the deferred removal still runs once a temporary file exists. */
  function FailedCall(pc: Pc): Pc {
    if pc.WriteTemp? || pc.SyncTemp? || pc.LinkTemp? || pc.StatLinked? || pc.ReadLinked? then CleanTemp(pc.nonce)
    else Failed
  }

  /** One call of helper h. */
  function Step(hash: RequestHash, s: Sys, h: nat, c: Choice): Sys
    requires h in s.helpers
  {
    var pc := s.helpers[h].pc;
    if Ended(pc) then s
    else if c.fail then At(s, h, FailedCall(pc))
    else if Publishing(pc) then PublishStep(hash, s, h, c)
    else if ReadingBack(pc) then ReadBackStep(hash, s, h)
    else ClaimStep(hash, s, h, c)
  }

  /**
   The directory after power loss: every entry that the last sync and the live directory agree on survives; any other
   may have either state.
   */
  predicate Survives(f: Store, g: Store) {
    && g.parent && g.dir && DirDurable(g) && g.durable == g.names && g.next == f.next && g.inodes.Keys == f.inodes.Keys
    && (forall n :: n in g.names ==> (n in f.names && g.names[n] == f.names[n]) || (n in f.durable && g.names[n] == f.durable[n]))
    && (forall n :: n in f.names && n in f.durable && f.names[n] == f.durable[n] ==> n in g.names)
    && (forall i :: i in f.inodes && f.inodes[i].synced ==> g.inodes[i] == f.inodes[i])
  }

  /** A directory whose entry was never synced may vanish, with all that is in it. */
  predicate Vanishes(f: Store, g: Store) {
    || (!f.parentSynced && g == Store(false, false, false, false, map[], map[], f.inodes, f.next))
    || (f.parent && !f.dirSynced && g == Store(true, true, false, false, map[], map[], f.inodes, f.next))
  }

  function AllStopped(helpers: map<nat, Helper>): map<nat, Helper> {
    map h | h in helpers :: helpers[h].(pc := if Ended(helpers[h].pc) then helpers[h].pc else Stopped)
  }

  predicate PowerLoss(s: Sys, t: Sys) {
    && t == s.(store := t.store, helpers := AllStopped(s.helpers))
    && ((s.store.dir && Survives(s.store, t.store)) || (!s.store.parent && t.store == s.store) || Vanishes(s.store, t.store))
  }

  /** A helper starts, makes one call, or stops. */
  ghost predicate Acts(hash: RequestHash, s: Sys, t: Sys) {
    || (exists h: nat, q :: h !in s.helpers && t == s.(helpers := s.helpers[h := Helper(q, OpenParent)]))
    || (exists h: nat, c :: h in s.helpers && t == Step(hash, s, h, c))
    || (exists h: nat :: h in s.helpers && !Ended(s.helpers[h].pc) && t == At(s, h, Stopped))
  }

  ghost predicate Next(hash: RequestHash, s: Sys, t: Sys) {
    Acts(hash, s, t) || PowerLoss(s, t)
  }

  /** A step in which power does not fail after a command has started under directories that are not yet durable. */
  ghost predicate DurableStep(hash: RequestHash, s: Sys, t: Sys) {
    Acts(hash, s, t) || (PowerLoss(s, t) && (s.runs != [] ==> DirDurable(s.store)))
  }

  const EMPTY: Sys := Sys(Store(false, false, false, false, map[], map[], map[], 0), map[], [], None, {})

  /** A run from an empty machine. Without power loss every run is one; with it, both directories must be durable. */
  ghost predicate DurableRun(hash: RequestHash, tr: seq<Sys>) {
    && |tr| > 0 && tr[0] == EMPTY
    && (forall i :: 0 <= i < |tr| - 1 ==> DurableStep(hash, tr[i], tr[i + 1]))
  }
}
