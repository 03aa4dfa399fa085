/** Undisturbed helpers: the first one runs its command and leaves a receipt, later ones only read it back. */
module ActionReplay {
  import opened Bytes
  import opened ActionStore

  /** Every call succeeds, every write is whole, and the command succeeds. */
  function Smooth(hash: RequestHash, q: Request): Choice {
    Choice(false, 33 + |ReceiptBytes(hash, q)|, true, 0)
  }

  /** n undisturbed calls of helper h. */
  function Drive(hash: RequestHash, s: Sys, h: nat, n: nat): (t: Sys)
    requires h in s.helpers
    ensures h in t.helpers
    decreases n
  {
    if n == 0 then s
    else
      var m := Step(hash, s, h, Smooth(hash, s.helpers[h].q));
      if h in m.helpers then Drive(hash, m, h, n - 1) else s
  }

  lemma {:induction false} DriveThen(hash: RequestHash, s: Sys, h: nat, a: nat, b: nat)
    requires h in s.helpers
    ensures Drive(hash, s, h, a + b) == Drive(hash, Drive(hash, s, h, a), h, b)
    decreases a
  {
    hide Step;
    if a > 0 {
      var m := Step(hash, s, h, Smooth(hash, s.helpers[h].q));
      StepStays(hash, s, h, Smooth(hash, s.helpers[h].q));
      DriveThen(hash, m, h, a - 1, b);
    }
  }

  lemma StepStays(hash: RequestHash, s: Sys, h: nat, c: Choice)
    requires h in s.helpers
    ensures h in Step(hash, s, h, c).helpers && Step(hash, s, h, c).helpers[h].q == s.helpers[h].q
  {
    hide Readable, ReceiptBytes, ClaimBytes, ReceiptDecodes, DataOf, Create, WriteTo, SyncFile, SyncEntries;
  }

  /** The store holds done's claim, with its one link. */
  ghost predicate ClaimedBy(hash: RequestHash, f: Store, done: Request) {
    && f.parent && f.dir && Claim in f.names && OneLink(f, Claim)
    && DataOf(f, f.names[Claim]) == ClaimBytes(hash, done)
  }

  /** The store holds done's claim and receipt, each with its one link. */
  ghost predicate Settled(hash: RequestHash, f: Store, done: Request) {
    && ClaimedBy(hash, f, done) && Receipt in f.names && OneLink(f, Receipt)
    && DataOf(f, f.names[Receipt]) == ReceiptBytes(hash, done)
  }

  /** Helper h has moved, and nothing else that matters has changed. */
  predicate Same(s: Sys, t: Sys, h: nat) {
    && h in s.helpers && h in t.helpers && t.helpers[h].q == s.helpers[h].q
    && t.store == s.store && t.runs == s.runs
  }

  /** Where a helper that finds a claim goes next. */
  function Ahead(hash: RequestHash, f: Store, q: Request, done: Request, pc: Pc): Pc
    requires Claim in f.names
  {
    if pc == OpenParent then OpenStore
    else if pc == OpenStore then LookClaim
    else if pc == LookClaim then StatClaim
    else if pc == StatClaim then ReadClaim(f.names[Claim])
    else if pc == ReadClaim(f.names[Claim]) then (if hash(q) == hash(done) then StatReceipt else Failed)
    else if pc == StatReceipt then
      if Receipt !in f.names then Indeterminate
      else if OneLink(f, Receipt) then ReadReceipt(f.names[Receipt])
      else Failed
    else if pc.ReadReceipt? then
      (if ReceiptDecodes(hash, q, DataOf(f, pc.ino)) then Succeeded else Failed)
    else pc
  }

  predicate Looking(f: Store, pc: Pc)
    requires Claim in f.names
  {
    || pc == OpenParent || pc == OpenStore || pc == LookClaim || pc == StatClaim || pc == ReadClaim(f.names[Claim])
    || pc == StatReceipt || pc.ReadReceipt? || pc == Failed || pc == Succeeded || pc == Indeterminate
  }

  lemma LookStep(hash: RequestHash, s: Sys, h: nat, c: Choice, done: Request)
    requires h in s.helpers && !c.fail && ClaimedBy(hash, s.store, done) && Looking(s.store, s.helpers[h].pc)
    ensures Same(s, Step(hash, s, h, c), h)
    ensures Step(hash, s, h, c).helpers[h].pc == Ahead(hash, s.store, s.helpers[h].q, done, s.helpers[h].pc)
  {
    hide ReceiptBytes, ReceiptDecodes, OneLink, DataOf;
  }

  function AheadBy(hash: RequestHash, f: Store, q: Request, done: Request, pc: Pc, n: nat): Pc
    requires Claim in f.names
    decreases n
  {
    if n == 0 then pc else AheadBy(hash, f, q, done, Ahead(hash, f, q, done, pc), n - 1)
  }

  lemma {:induction false} LookMany(hash: RequestHash, s: Sys, h: nat, done: Request, n: nat)
    requires h in s.helpers && ClaimedBy(hash, s.store, done) && Looking(s.store, s.helpers[h].pc)
    ensures Same(s, Drive(hash, s, h, n), h)
    ensures Drive(hash, s, h, n).helpers[h].pc == AheadBy(hash, s.store, s.helpers[h].q, done, s.helpers[h].pc, n)
    decreases n
  {
    hide Step, ReceiptDecodes, OneLink, DataOf;
    if n > 0 {
      var c := Smooth(hash, s.helpers[h].q);
      LookStep(hash, s, h, c, done);
      LookMany(hash, Step(hash, s, h, c), h, done, n - 1);
    }
  }

  /** How a helper that finds a claim ends. */
  function Ending(hash: RequestHash, f: Store, q: Request, done: Request): Pc {
    if hash(q) != hash(done) then Failed
    else if Receipt !in f.names then Indeterminate
    else if OneLink(f, Receipt) && ReceiptDecodes(hash, q, DataOf(f, f.names[Receipt])) then Succeeded
    else Failed
  }

  lemma AheadOnce(hash: RequestHash, f: Store, q: Request, done: Request, pc: Pc, n: nat)
    requires Claim in f.names && n > 0
    ensures AheadBy(hash, f, q, done, pc, n) == AheadBy(hash, f, q, done, Ahead(hash, f, q, done, pc), n - 1)
  {
  }

  lemma {:induction false} AheadEnded(hash: RequestHash, f: Store, q: Request, done: Request, pc: Pc, n: nat)
    requires Claim in f.names && (pc == Failed || pc == Succeeded || pc == Indeterminate)
    ensures AheadBy(hash, f, q, done, pc, n) == pc
    decreases n
  {
    if n > 0 { AheadEnded(hash, f, q, done, pc, n - 1); }
  }

  lemma SevenAhead(hash: RequestHash, f: Store, q: Request, done: Request)
    requires Claim in f.names
    ensures AheadBy(hash, f, q, done, OpenParent, 7) == Ending(hash, f, q, done)
  {
    hide ReceiptDecodes, AheadBy, OneLink, DataOf;
    var read := ReadClaim(f.names[Claim]);
    AheadOnce(hash, f, q, done, OpenParent, 7);
    AheadOnce(hash, f, q, done, OpenStore, 6);
    AheadOnce(hash, f, q, done, LookClaim, 5);
    AheadOnce(hash, f, q, done, StatClaim, 4);
    AheadOnce(hash, f, q, done, read, 3);
    if hash(q) == hash(done) { LastTwo(hash, f, q, done); }
    AheadEnded(hash, f, q, done, Failed, 2);
  }

  lemma LastTwo(hash: RequestHash, f: Store, q: Request, done: Request)
    requires Claim in f.names && hash(q) == hash(done)
    ensures AheadBy(hash, f, q, done, StatReceipt, 2) == Ending(hash, f, q, done)
  {
    hide ReceiptDecodes, AheadBy, OneLink, DataOf;
    var pc := Ahead(hash, f, q, done, StatReceipt);
    AheadOnce(hash, f, q, done, StatReceipt, 2);
    AheadOnce(hash, f, q, done, pc, 1);
    AheadEnded(hash, f, q, done, Ahead(hash, f, q, done, pc), 0);
  }

  /** A helper that finds a claim runs nothing and changes nothing, and ends as the claim and receipt say. */
  lemma FindsClaim(hash: RequestHash, s: Sys, h: nat, done: Request)
    requires h in s.helpers && s.helpers[h].pc == OpenParent && ClaimedBy(hash, s.store, done)
    ensures var t := Drive(hash, s, h, 7);
      Same(s, t, h) && t.helpers[h].pc == Ending(hash, s.store, s.helpers[h].q, done)
  {
    hide Drive, AheadBy, Same, Ending, DataOf, OneLink;
    LookMany(hash, s, h, done, 7);
    SevenAhead(hash, s.store, s.helpers[h].q, done);
  }

  /** Its own claim without a receipt is indeterminate, and a receipt that still has a second link is refused. */
  lemma ClaimWithoutReceipt(hash: RequestHash, s: Sys, h: nat, done: Request)
    requires h in s.helpers && s.helpers[h].pc == OpenParent && ClaimedBy(hash, s.store, done)
    ensures var q := s.helpers[h].q; var t := Drive(hash, s, h, 7);
      && Same(s, t, h)
      && (hash(q) != hash(done) ==> t.helpers[h].pc == Failed)
      && (hash(q) == hash(done) && Receipt !in s.store.names ==> t.helpers[h].pc == Indeterminate)
      && (Receipt in s.store.names && TwoLinks(s.store) ==> t.helpers[h].pc == Failed)
  {
    hide Drive;
    FindsClaim(hash, s, h, done);
  }

  /** Another name still links the receipt's file. */
  predicate TwoLinks(f: Store)
    requires Receipt in f.names
  {
    exists n :: n in f.names && n != Receipt && f.names[n] == f.names[Receipt]
  }

  /** A later helper returns the receipt exactly if its request has that claim and receipt. */
  lemma Replays(hash: RequestHash, s: Sys, h: nat, done: Request)
    requires h in s.helpers && s.helpers[h].pc == OpenParent && Settled(hash, s.store, done)
    ensures var q := s.helpers[h].q; var t := Drive(hash, s, h, 7);
      && Same(s, t, h)
      && (t.helpers[h].pc == Succeeded <==> hash(q) == hash(done) && q.meta == done.meta)
      && (t.helpers[h].pc == Succeeded || t.helpers[h].pc == Failed)
  {
    hide Drive, ReceiptBytes, ReceiptDecodes, Same;
    FindsClaim(hash, s, h, done);
    if hash(s.helpers[h].q) == hash(done) { ReceiptMatches(hash, s.helpers[h].q, done); }
  }

  /** A receipt is read back byte for byte, with or without a newline at its end. */
  lemma ReadsBack(hash: RequestHash, s: Sys, h: nat)
    requires h in s.helpers && s.helpers[h].pc == OpenParent && ClaimedBy(hash, s.store, s.helpers[h].q)
    requires Receipt in s.store.names && OneLink(s.store, Receipt)
    ensures var q := s.helpers[h].q; var data := DataOf(s.store, s.store.names[Receipt]);
      Drive(hash, s, h, 7).helpers[h].pc ==
      if data == q.meta + hash(q) + [125] || data == q.meta + hash(q) + [125] + [10] then Succeeded else Failed
  {
    hide Drive, Same, OneLink, DataOf;
    FindsClaim(hash, s, h, s.helpers[h].q);
  }

  /** A receipt without a claim is refused before anything is created. */
  lemma ReceiptWithoutClaim(hash: RequestHash, s: Sys, h: nat)
    requires h in s.helpers && s.helpers[h].pc == LookClaim && Claim !in s.store.names && Receipt in s.store.names
    ensures var t := Drive(hash, s, h, 2); Same(s, t, h) && t.helpers[h].pc == Failed
  {
    hide Step, Drive;
    var a := At(s, h, LookReceipt);
    var b := At(a, h, Failed);
    LooksOnce(hash, s, h, Smooth(hash, s.helpers[h].q));
    LooksOnce(hash, a, h, Smooth(hash, s.helpers[h].q));
    DriveOnce(hash, s, h, 1);
    DriveOnce(hash, a, h, 0);
    DriveNothing(hash, b, h);
  }

  lemma LooksOnce(hash: RequestHash, s: Sys, h: nat, c: Choice)
    requires h in s.helpers && !c.fail && Claim !in s.store.names && Receipt in s.store.names
    ensures s.helpers[h].pc == LookClaim ==> Step(hash, s, h, c) == At(s, h, LookReceipt)
    ensures s.helpers[h].pc == LookReceipt ==> Step(hash, s, h, c) == At(s, h, Failed)
  {
    hide PublishStep, ReadBackStep, Create, WriteTo, SyncFile, SyncEntries, ClaimBytes;
  }

  lemma DriveOnce(hash: RequestHash, s: Sys, h: nat, n: nat)
    requires h in s.helpers
    ensures var m := Step(hash, s, h, Smooth(hash, s.helpers[h].q));
      h in m.helpers && Drive(hash, s, h, n + 1) == Drive(hash, m, h, n)
  {
    StepStays(hash, s, h, Smooth(hash, s.helpers[h].q));
    hide Step;
  }

  lemma ReceiptMatches(hash: RequestHash, q: Request, done: Request)
    requires hash(q) == hash(done)
    ensures ReceiptDecodes(hash, q, ReceiptBytes(hash, done)) <==> q.meta == done.meta
  {
    var a, b := ReceiptBytes(hash, q), ReceiptBytes(hash, done);
    assert a[|a| - 1] == 125 && b[|b| - 1] == 125 && (a + [10])[|a|] == 10;
    if a == b {
      assert |q.meta| == |done.meta|;
      assert q.meta == a[..|q.meta|] && done.meta == b[..|done.meta|];
    }
  }

  // ---- the first helper ----

  /** In store f, a helper at pc is not turned aside. */
  predicate Clear(hash: RequestHash, q: Request, f: Store, pc: Pc) {
    match pc
    case OpenParent => true
    case MakeParent => true
    case SyncBase => f.parent
    case OpenStore => true
    case MakeStore => f.parent
    case SyncStoreParent => f.dir
    case LookClaim => Claim !in f.names
    case LookReceipt => Receipt !in f.names
    case CreateClaim => Claim !in f.names && f.dir
    case WriteClaim(_) => true
    case SyncClaim(_) => true
    case SyncClaimEntry => true
    case RunCommand => true
    case PublishOpen => f.dir
    case PublishStatClaim => Readable(f, Claim).Some?
    case PublishReadClaim(ino) => DataOf(f, ino) == ClaimBytes(hash, q)
    case PublishStatReceipt => Receipt !in f.names
    case CreateTemp => Temp(0) !in f.names
    case WriteTemp(nonce, _) => nonce == 0
    case SyncTemp(nonce, _) => nonce == 0
    case LinkTemp(nonce, _) => nonce == 0 && Receipt !in f.names
    case RemoveTemp(nonce) => nonce == 0
    case SyncReceiptEntry => true
    case _ => false
  }

  /** The store and the place after an undisturbed call that is not turned aside. */
  function Onward(hash: RequestHash, q: Request, f: Store, pc: Pc): (Store, Pc) {
    match pc
    case OpenParent => (f, if f.parent then OpenStore else MakeParent)
    case MakeParent => (f.(parent := true), SyncBase)
    case SyncBase => (f.(parentSynced := true), OpenStore)
    case OpenStore => (f, if f.dir then LookClaim else MakeStore)
    case MakeStore => (f.(dir := true), SyncStoreParent)
    case SyncStoreParent => (f.(dirSynced := true), LookClaim)
    case LookClaim => (f, LookReceipt)
    case LookReceipt => (f, CreateClaim)
    case CreateClaim => (Create(f, Claim), WriteClaim(f.next))
    case WriteClaim(ino) => (f.(inodes := f.inodes[ino := Inode(ClaimBytes(hash, q), false)]), SyncClaim(ino))
    case SyncClaim(ino) => (SyncFile(f, ino), SyncClaimEntry)
    case SyncClaimEntry => (SyncEntries(f), RunCommand)
    case RunCommand => (f, PublishOpen)
    case PublishOpen => (f, PublishStatClaim)
    case PublishStatClaim => (f, if Readable(f, Claim).Some? then PublishReadClaim(Readable(f, Claim).value) else Failed)
    case PublishReadClaim(_) => (f, PublishStatReceipt)
    case PublishStatReceipt => (f, CreateTemp)
    case CreateTemp => (Create(f, Temp(0)), WriteTemp(0, f.next))
    case WriteTemp(nonce, ino) => (f.(inodes := f.inodes[ino := Inode(ReceiptBytes(hash, q), false)]), SyncTemp(nonce, ino))
    case SyncTemp(nonce, ino) => (SyncFile(f, ino), LinkTemp(nonce, ino))
    case LinkTemp(nonce, ino) => (f.(names := f.names[Receipt := ino]), RemoveTemp(nonce))
    case RemoveTemp(nonce) => (f.(names := f.names - {Temp(nonce)}), SyncReceiptEntry)
    case SyncReceiptEntry => (SyncEntries(f), Succeeded)
    case _ => (f, pc)
  }

  lemma WriteWhole(f: Store, ino: nat, data: bytes, n: nat)
    requires n >= |data|
    ensures WriteTo(f, ino, data, n) == f.(inodes := f.inodes[ino := Inode(data, false)])
  {
    if n == |data| { assert data[..n] == data; }
  }

  predicate Arrived(s: Sys, t: Sys, h: nat, f: Store, pc: Pc) {
    && h in s.helpers && h in t.helpers && t.helpers[h] == Helper(s.helpers[h].q, pc) && t.store == f
    && t.runs == s.runs + (if s.helpers[h].pc == RunCommand then [s.helpers[h].q] else [])
    && (s.helpers[h].pc == SyncReceiptEntry ==> s.helpers[h].q in t.returned)
  }

  lemma ClaimOnward(hash: RequestHash, s: Sys, h: nat)
    requires h in s.helpers && Clear(hash, s.helpers[h].q, s.store, s.helpers[h].pc) && !Publishing(s.helpers[h].pc)
    ensures var q := s.helpers[h].q; var next := Onward(hash, q, s.store, s.helpers[h].pc);
      Arrived(s, Step(hash, s, h, Smooth(hash, q)), h, next.0, next.1)
  {
    hide Readable, ReceiptBytes, SyncFile, Create, WriteTo;
    var q := s.helpers[h].q;
    if s.helpers[h].pc.WriteClaim? { WriteWhole(s.store, s.helpers[h].pc.ino, ClaimBytes(hash, q), Smooth(hash, q).amount); }
  }

  lemma PublishOnward(hash: RequestHash, s: Sys, h: nat)
    requires h in s.helpers && Clear(hash, s.helpers[h].q, s.store, s.helpers[h].pc) && Publishing(s.helpers[h].pc)
    ensures var q := s.helpers[h].q; var next := Onward(hash, q, s.store, s.helpers[h].pc);
      Arrived(s, Step(hash, s, h, Smooth(hash, q)), h, next.0, next.1)
  {
    hide Readable, ClaimBytes, ReceiptBytes, SyncFile, Create, WriteTo;
    var q := s.helpers[h].q;
    if s.helpers[h].pc.WriteTemp? { WriteWhole(s.store, s.helpers[h].pc.ino, ReceiptBytes(hash, q), Smooth(hash, q).amount); }
  }

  /** One call onward, seen from the n calls that remain. */
  lemma Hop(hash: RequestHash, s: Sys, h: nat, n: nat, f: Store, pc: Pc) returns (t: Sys)
    requires h in s.helpers && Clear(hash, s.helpers[h].q, s.store, s.helpers[h].pc)
    requires (f, pc) == Onward(hash, s.helpers[h].q, s.store, s.helpers[h].pc)
    ensures Arrived(s, t, h, f, pc) && Drive(hash, s, h, n + 1) == Drive(hash, t, h, n)
  {
    hide Step, Onward, Clear;
    t := Step(hash, s, h, Smooth(hash, s.helpers[h].q));
    if Publishing(s.helpers[h].pc) { PublishOnward(hash, s, h); } else { ClaimOnward(hash, s, h); }
  }

  /** How many calls opening the path takes: one for a directory that exists, three for one that does not. */
  function UpperCalls(f: Store): nat {
    if f.parent then 1 else 3
  }

  function SessionCalls(f: Store): nat {
    if f.dir then 1 else 3
  }

  lemma OpensUpper(hash: RequestHash, s: Sys, h: nat, n: nat) returns (t: Sys)
    requires h in s.helpers && s.helpers[h].pc == OpenParent
    ensures h in t.helpers && t.helpers[h] == Helper(s.helpers[h].q, OpenStore) && t.runs == s.runs
    ensures t.store.parent && t.store.dir == s.store.dir && t.store.names == s.store.names && t.store.next == s.store.next
    ensures t.store.dirSynced == s.store.dirSynced && (s.store.parent || t.store.parentSynced)
    ensures Drive(hash, s, h, n + UpperCalls(s.store)) == Drive(hash, t, h, n)
  {
    hide Drive, Step;
    var f := s.store;
    if f.parent {
      t := Hop(hash, s, h, n, f, OpenStore);
    } else {
      var a := Hop(hash, s, h, n + 2, f, MakeParent);
      var b := Hop(hash, a, h, n + 1, f.(parent := true), SyncBase);
      t := Hop(hash, b, h, n, f.(parent := true, parentSynced := true), OpenStore);
    }
  }

  lemma OpensSession(hash: RequestHash, s: Sys, h: nat, n: nat) returns (t: Sys)
    requires h in s.helpers && s.helpers[h].pc == OpenStore && s.store.parent
    ensures h in t.helpers && t.helpers[h] == Helper(s.helpers[h].q, LookClaim) && t.runs == s.runs
    ensures t.store.parent && t.store.dir && t.store.names == s.store.names && t.store.next == s.store.next
    ensures t.store.parentSynced == s.store.parentSynced && (s.store.dir || t.store.dirSynced)
    ensures Drive(hash, s, h, n + SessionCalls(s.store)) == Drive(hash, t, h, n)
  {
    hide Drive, Step;
    var f := s.store;
    if f.dir {
      t := Hop(hash, s, h, n, f, LookClaim);
    } else {
      var a := Hop(hash, s, h, n + 2, f, MakeStore);
      var b := Hop(hash, a, h, n + 1, f.(dir := true), SyncStoreParent);
      t := Hop(hash, b, h, n, f.(dir := true, dirSynced := true), LookClaim);
    }
  }

  lemma Claims(hash: RequestHash, s: Sys, h: nat, n: nat) returns (t: Sys)
    requires h in s.helpers && s.helpers[h].pc == LookClaim && s.store.parent && s.store.dir && s.store.names == map[]
    ensures h in t.helpers && t.helpers[h] == Helper(s.helpers[h].q, RunCommand) && t.runs == s.runs
    ensures t.store.parent && t.store.dir && t.store.names == map[Claim := s.store.next] && t.store.next == s.store.next + 1
    ensures DataOf(t.store, s.store.next) == ClaimBytes(hash, s.helpers[h].q)
    ensures Drive(hash, s, h, n + 6) == Drive(hash, t, h, n)
  {
    hide Drive, Step, ClaimBytes, ReceiptBytes, Readable, DataOf, SyncFile, Onward, Clear;
    var c := Creates(hash, s, h, n + 3);
    t := Persists(hash, c, h, n, s.store.next);
  }

  lemma Creates(hash: RequestHash, s: Sys, h: nat, n: nat) returns (t: Sys)
    requires h in s.helpers && s.helpers[h].pc == LookClaim && s.store.dir && s.store.names == map[]
    ensures h in t.helpers && t.helpers[h] == Helper(s.helpers[h].q, WriteClaim(s.store.next)) && t.runs == s.runs
    ensures t.store == Create(s.store, Claim)
    ensures Drive(hash, s, h, n + 3) == Drive(hash, t, h, n)
  {
    hide Drive, Step, ClaimBytes, ReceiptBytes, Readable, DataOf, SyncFile, WriteTo;
    var f := s.store;
    var a := Hop(hash, s, h, n + 2, f, LookReceipt);
    var b := Hop(hash, a, h, n + 1, f, CreateClaim);
    t := Hop(hash, b, h, n, Create(f, Claim), WriteClaim(f.next));
  }

  lemma Persists(hash: RequestHash, s: Sys, h: nat, n: nat, ino: nat) returns (t: Sys)
    requires h in s.helpers && s.helpers[h].pc == WriteClaim(ino)
    ensures h in t.helpers && t.helpers[h] == Helper(s.helpers[h].q, RunCommand) && t.runs == s.runs
    ensures t.store.parent == s.store.parent && t.store.dir == s.store.dir
    ensures t.store.names == s.store.names && t.store.next == s.store.next
    ensures DataOf(t.store, ino) == ClaimBytes(hash, s.helpers[h].q)
    ensures Drive(hash, s, h, n + 3) == Drive(hash, t, h, n)
  {
    hide Drive, Step, ClaimBytes, ReceiptBytes, Readable, Create;
    var q, f := s.helpers[h].q, s.store;
    var g := f.(inodes := f.inodes[ino := Inode(ClaimBytes(hash, q), false)]);
    var d := Hop(hash, s, h, n + 2, g, SyncClaim(ino));
    var e := Hop(hash, d, h, n + 1, SyncFile(g, ino), SyncClaimEntry);
    t := Hop(hash, e, h, n, SyncEntries(SyncFile(g, ino)), RunCommand);
  }

  lemma Runs(hash: RequestHash, s: Sys, h: nat, n: nat, ino: nat) returns (t: Sys)
    requires h in s.helpers && s.helpers[h].pc == RunCommand && s.store.parent && s.store.dir
    requires s.store.names == map[Claim := ino] && DataOf(s.store, ino) == ClaimBytes(hash, s.helpers[h].q)
    ensures h in t.helpers && t.helpers[h] == Helper(s.helpers[h].q, CreateTemp) && t.runs == s.runs + [s.helpers[h].q]
    ensures t.store == s.store
    ensures Drive(hash, s, h, n + 5) == Drive(hash, t, h, n)
  {
    hide Drive, Step, ClaimBytes, ReceiptBytes, DataOf, SyncFile, Create;
    var f := s.store;
    var a := Hop(hash, s, h, n + 4, f, PublishOpen);
    var b := Hop(hash, a, h, n + 3, f, PublishStatClaim);
    t := Rechecks(hash, b, h, n, ino);
  }

  lemma Rechecks(hash: RequestHash, s: Sys, h: nat, n: nat, ino: nat) returns (t: Sys)
    requires h in s.helpers && s.helpers[h].pc == PublishStatClaim && s.store.dir
    requires s.store.names == map[Claim := ino] && DataOf(s.store, ino) == ClaimBytes(hash, s.helpers[h].q)
    ensures h in t.helpers && t.helpers[h] == Helper(s.helpers[h].q, CreateTemp) && t.runs == s.runs
    ensures t.store == s.store
    ensures Drive(hash, s, h, n + 3) == Drive(hash, t, h, n)
  {
    hide Drive, Step, ClaimBytes, ReceiptBytes, DataOf, SyncFile, Create;
    var f := s.store;
    assert OneLink(f, Claim);
    var c := Hop(hash, s, h, n + 2, f, PublishReadClaim(ino));
    var d := Hop(hash, c, h, n + 1, f, PublishStatReceipt);
    t := Hop(hash, d, h, n, f, CreateTemp);
  }

  /** The store once the temporary receipt is written and synced. */
  function StagedStore(hash: RequestHash, f: Store, q: Request): Store {
    SyncFile(Create(f, Temp(0)).(inodes := Create(f, Temp(0)).inodes[f.next := Inode(ReceiptBytes(hash, q), false)]), f.next)
  }

  lemma StagedFacts(hash: RequestHash, f: Store, q: Request)
    ensures var g := StagedStore(hash, f, q);
      && g.parent == f.parent && g.dir == f.dir && g.names == f.names[Temp(0) := f.next]
      && DataOf(g, f.next) == ReceiptBytes(hash, q)
      && forall i :: i != f.next ==> DataOf(g, i) == DataOf(f, i)
  {
    hide ReceiptBytes;
  }

  lemma Stages(hash: RequestHash, s: Sys, h: nat, n: nat) returns (t: Sys)
    requires h in s.helpers && s.helpers[h].pc == CreateTemp && s.store.names.Keys == {Claim}
    ensures h in t.helpers && t.helpers[h] == Helper(s.helpers[h].q, LinkTemp(0, s.store.next)) && t.runs == s.runs
    ensures t.store == StagedStore(hash, s.store, s.helpers[h].q)
    ensures Drive(hash, s, h, n + 3) == Drive(hash, t, h, n)
  {
    hide Drive, Step, ReceiptBytes, ClaimBytes, Readable, DataOf, SyncFile, Create;
    var q, f := s.helpers[h].q, s.store;
    var a := Hop(hash, s, h, n + 2, Create(f, Temp(0)), WriteTemp(0, f.next));
    t := StagesTemp(hash, a, h, n, f.next);
  }

  lemma StagesTemp(hash: RequestHash, s: Sys, h: nat, n: nat, ino: nat) returns (t: Sys)
    requires h in s.helpers && s.helpers[h].pc == WriteTemp(0, ino)
    ensures h in t.helpers && t.helpers[h] == Helper(s.helpers[h].q, LinkTemp(0, ino)) && t.runs == s.runs
    ensures t.store ==
            SyncFile(s.store.(inodes := s.store.inodes[ino := Inode(ReceiptBytes(hash, s.helpers[h].q), false)]), ino)
    ensures Drive(hash, s, h, n + 2) == Drive(hash, t, h, n)
  {
    hide Drive, Step, ReceiptBytes, ClaimBytes, Readable, DataOf, SyncFile, Create;
    var g := s.store.(inodes := s.store.inodes[ino := Inode(ReceiptBytes(hash, s.helpers[h].q), false)]);
    var b := Hop(hash, s, h, n + 1, g, SyncTemp(0, ino));
    t := Hop(hash, b, h, n, SyncFile(g, ino), LinkTemp(0, ino));
  }

  lemma Links(hash: RequestHash, s: Sys, h: nat, n: nat, ino: nat) returns (t: Sys)
    requires h in s.helpers && s.helpers[h].pc == LinkTemp(0, ino) && s.store.names.Keys == {Claim, Temp(0)}
    ensures h in t.helpers && t.helpers[h] == Helper(s.helpers[h].q, Succeeded) && t.runs == s.runs
    ensures s.helpers[h].q in t.returned
    ensures t.store.parent == s.store.parent && t.store.dir == s.store.dir && t.store.inodes == s.store.inodes
    ensures t.store.names == map[Claim := s.store.names[Claim], Receipt := ino]
    ensures Drive(hash, s, h, n + 3) == Drive(hash, t, h, n)
  {
    hide Drive, Step, SyncFile, Create, Readable, DataOf, ClaimBytes, ReceiptBytes;
    var f := s.store;
    var linked := f.(names := f.names[Receipt := ino]);
    var a := Hop(hash, s, h, n + 2, linked, RemoveTemp(0));
    LinkedNames(f.names, ino);
    t := Finishes(hash, a, h, n);
  }

  lemma Finishes(hash: RequestHash, s: Sys, h: nat, n: nat) returns (t: Sys)
    requires h in s.helpers && s.helpers[h].pc == RemoveTemp(0)
    ensures h in t.helpers && t.helpers[h] == Helper(s.helpers[h].q, Succeeded) && t.runs == s.runs
    ensures s.helpers[h].q in t.returned
    ensures t.store.parent == s.store.parent && t.store.dir == s.store.dir && t.store.inodes == s.store.inodes
    ensures t.store.names == s.store.names - {Temp(0)}
    ensures Drive(hash, s, h, n + 2) == Drive(hash, t, h, n)
  {
    hide Drive, Step, SyncFile, Create, Readable, DataOf, ClaimBytes, ReceiptBytes;
    var g := s.store.(names := s.store.names - {Temp(0)});
    var b := Hop(hash, s, h, n + 1, g, SyncReceiptEntry);
    t := Hop(hash, b, h, n, SyncEntries(g), Succeeded);
  }

  lemma LinkedNames(names: map<Name, nat>, ino: nat)
    requires names.Keys == {Claim, Temp(0)}
    ensures names[Receipt := ino] - {Temp(0)} == map[Claim := names[Claim], Receipt := ino]
  {
  }

  lemma SettledNow(hash: RequestHash, f: Store, q: Request, ino: nat)
    requires f.parent && f.dir && f.names == map[Claim := ino, Receipt := ino + 1]
    requires DataOf(f, ino) == ClaimBytes(hash, q) && DataOf(f, ino + 1) == ReceiptBytes(hash, q)
    ensures Settled(hash, f, q)
  {
    hide DataOf, ClaimBytes, ReceiptBytes;
    assert OneLink(f, Claim) && OneLink(f, Receipt);
  }

  lemma Publishes(hash: RequestHash, s: Sys, h: nat, ino: nat)
    requires h in s.helpers && s.helpers[h].pc == CreateTemp && s.store.parent && s.store.dir
    requires s.store.names == map[Claim := ino] && s.store.next == ino + 1
    requires DataOf(s.store, ino) == ClaimBytes(hash, s.helpers[h].q)
    ensures var q := s.helpers[h].q; var t := Drive(hash, s, h, 6);
      t.helpers[h] == Helper(q, Succeeded) && q in t.returned && t.runs == s.runs && Settled(hash, t.store, q)
  {
    hide Drive, ClaimBytes, ReceiptBytes, Step, DataOf, Settled, StagedStore, Onward, Clear;
    var d := Stages(hash, s, h, 3);
    StagedFacts(hash, s.store, s.helpers[h].q);
    LinksSettled(hash, d, h, ino);
  }

  lemma LinksSettled(hash: RequestHash, s: Sys, h: nat, ino: nat)
    requires h in s.helpers && s.helpers[h].pc == LinkTemp(0, ino + 1) && s.store.parent && s.store.dir
    requires s.store.names.Keys == {Claim, Temp(0)} && s.store.names[Claim] == ino
    requires DataOf(s.store, ino) == ClaimBytes(hash, s.helpers[h].q)
    requires DataOf(s.store, ino + 1) == ReceiptBytes(hash, s.helpers[h].q)
    ensures var q := s.helpers[h].q; var t := Drive(hash, s, h, 3);
      t.helpers[h] == Helper(q, Succeeded) && q in t.returned && t.runs == s.runs && Settled(hash, t.store, q)
  {
    hide Drive, ClaimBytes, ReceiptBytes, Step, DataOf, Settled, Onward, Clear;
    var t := Links(hash, s, h, 0, ino + 1);
    DriveNothing(hash, t, h);
    SameData(s.store, t.store, ino);
    SameData(s.store, t.store, ino + 1);
    SettledNow(hash, t.store, s.helpers[h].q, ino);
  }

  /**
   Undisturbed, and with no file of its attempt yet, a helper runs its command once, returns the receipt and
   leaves the store settled, whichever directories existed before.
   */
  lemma Completes(hash: RequestHash, s: Sys, h: nat)
    requires h in s.helpers && s.helpers[h].pc == OpenParent && s.store.names == map[]
    ensures var q := s.helpers[h].q; var t := Drive(hash, s, h, 23);
      && t.helpers[h] == Helper(q, Succeeded) && q in t.returned
      && t.runs == s.runs + [q] && Settled(hash, t.store, q)
  {
    hide Drive, ClaimBytes, ReceiptBytes, Step, DataOf, Settled;
    var f := s.store;
    var spare := 6 - UpperCalls(f) - SessionCalls(f);
    var a := OpensUpper(hash, s, h, SessionCalls(f) + (17 + spare));
    var b := OpensSession(hash, a, h, 17 + spare);
    CompletesInside(hash, b, h);
    DriveThen(hash, b, h, 17, spare);
    DriveEnded(hash, Drive(hash, b, h, 17), h, spare);
  }

  lemma {:induction false} DriveEnded(hash: RequestHash, s: Sys, h: nat, n: nat)
    requires h in s.helpers && Ended(s.helpers[h].pc)
    ensures Drive(hash, s, h, n) == s
    decreases n
  {
    if n > 0 { DriveEnded(hash, s, h, n - 1); }
  }

  lemma CompletesInside(hash: RequestHash, s: Sys, h: nat)
    requires h in s.helpers && s.helpers[h].pc == LookClaim && s.store.parent && s.store.dir && s.store.names == map[]
    ensures var q := s.helpers[h].q; var t := Drive(hash, s, h, 17);
      t.helpers[h] == Helper(q, Succeeded) && q in t.returned && t.runs == s.runs + [q] && Settled(hash, t.store, q)
  {
    hide Drive, ClaimBytes, ReceiptBytes, Step, DataOf, Settled;
    var b := Claims(hash, s, h, 11);
    RunsAndPublishes(hash, b, h, s.store.next);
  }

  lemma RunsAndPublishes(hash: RequestHash, s: Sys, h: nat, ino: nat)
    requires h in s.helpers && s.helpers[h].pc == RunCommand && s.store.parent && s.store.dir
    requires s.store.names == map[Claim := ino] && s.store.next == ino + 1
    requires DataOf(s.store, ino) == ClaimBytes(hash, s.helpers[h].q)
    ensures var q := s.helpers[h].q; var t := Drive(hash, s, h, 11);
      t.helpers[h] == Helper(q, Succeeded) && q in t.returned && t.runs == s.runs + [q] && Settled(hash, t.store, q)
  {
    hide Drive, ClaimBytes, ReceiptBytes, Step, DataOf, Settled;
    var c := Runs(hash, s, h, 6, ino);
    Publishes(hash, c, h, ino);
  }

  lemma SameData(f: Store, g: Store, ino: nat)
    requires f.inodes == g.inodes
    ensures DataOf(f, ino) == DataOf(g, ino)
  {
  }

  lemma DriveNothing(hash: RequestHash, s: Sys, h: nat)
    requires h in s.helpers
    ensures Drive(hash, s, h, 0) == s
  {
  }
}
