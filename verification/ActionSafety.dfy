/** At-most-once execution and exact receipts, over every run of the action protocol. */
module ActionSafety {
  import opened Bytes
  import opened ActionStore

  /** Holds a fresh claim whose command has not started. */
  predicate Owning(pc: Pc) {
    pc.WriteClaim? || pc.SyncClaim? || pc.SyncClaimEntry? || pc.RunCommand?
  }

  predicate Acting(pc: Pc) {
    Owning(pc) || Publishing(pc)
  }

  predicate BeforeLink(pc: Pc) {
    || pc.PublishOpen? || pc.PublishStatClaim? || pc.PublishReadClaim? || pc.PublishStatReceipt?
    || pc.CreateTemp? || pc.WriteTemp? || pc.SyncTemp? || pc.LinkTemp?
  }

  predicate StoreOk(f: Store) {
    && (forall n :: n in f.names ==> f.names[n] in f.inodes)
    && (forall n :: n in f.durable ==> f.durable[n] in f.inodes)
    && (forall i :: i in f.inodes ==> i < f.next)
    && (!f.dir ==> f.names == map[] && f.durable == map[])
    && PathOk(f)
  }

  predicate PathOk(f: Store) {
    (f.dir ==> f.parent) && (f.parentSynced ==> f.parent) && (f.dirSynced ==> f.dir)
  }

  predicate ClaimDurable(f: Store) {
    f.dir && Claim in f.names && Claim in f.durable && f.names[Claim] == f.durable[Claim]
  }

  predicate RunsOk(s: Sys) {
    && |s.runs| <= 1
    && (s.runs != [] ==> ClaimDurable(s.store))
    && (s.success.Some? ==> s.runs == [s.success.value])
  }

  /** A receipt that is or may become visible is the synced receipt of the successful request. */
  predicate ReceiptOk(hash: RequestHash, s: Sys) {
    && (Receipt in s.store.names ==>
          s.success.Some? && IsReceipt(hash, s.store, s.store.names[Receipt], s.success.value))
    && (Receipt in s.store.durable ==>
          s.success.Some? && IsReceipt(hash, s.store, s.store.durable[Receipt], s.success.value))
    && (forall q :: q in s.returned ==> s.success.Some? && SameReceipt(hash, q, s.success.value))
  }

  predicate IsReceipt(hash: RequestHash, f: Store, ino: nat, q: Request) {
    ino in f.inodes && f.inodes[ino] == Inode(ReceiptBytes(hash, q), true)
  }

  predicate SameReceipt(hash: RequestHash, a: Request, b: Request) {
    a.meta == b.meta && hash(a) == hash(b)
  }

  predicate Private(f: Store, nonce: nat, ino: nat) {
    && ino in f.inodes
    && (forall n :: n in f.names && f.names[n] == ino ==> n == Temp(nonce))
    && (forall n :: n in f.durable && f.durable[n] == ino ==> n == Temp(nonce))
  }

  predicate HelperOk(hash: RequestHash, s: Sys, p: Helper) {
    var f := s.store;
    && (Owning(p.pc) ==> s.runs == [] && f.dir && Claim in f.names)
    && (p.pc.WriteClaim? || p.pc.SyncClaim? ==> p.pc.ino in f.inodes)
    && (p.pc.RunCommand? ==> ClaimDurable(f))
    && (Publishing(p.pc) ==> s.success == Some(p.q))
    && (BeforeLink(p.pc) ==> Receipt !in f.names && Receipt !in f.durable)
    && (p.pc.WriteTemp? || p.pc.SyncTemp? || p.pc.LinkTemp? ==> Private(f, p.pc.nonce, p.pc.ino))
    && (p.pc.SyncTemp? ==> f.inodes[p.pc.ino].data == ReceiptBytes(hash, p.q))
    && (p.pc.LinkTemp? ==> IsReceipt(hash, f, p.pc.ino, p.q))
    && (p.pc.ReadReceipt? ==> Receipt in f.names && f.names[Receipt] == p.pc.ino)
    && (p.pc.Succeeded? ==> p.q in s.returned)
  }

  predicate HelpersOk(hash: RequestHash, s: Sys) {
    && (forall h :: h in s.helpers ==> HelperOk(hash, s, s.helpers[h]))
    && (forall g, h :: g in s.helpers && h in s.helpers && Acting(s.helpers[g].pc) && Acting(s.helpers[h].pc) ==> g == h)
  }

  predicate Inv(hash: RequestHash, s: Sys) {
    StoreOk(s.store) && RunsOk(s) && ReceiptOk(hash, s) && HelpersOk(hash, s)
  }

  /** Every other helper keeps its facts when only h acts and the receipt entry stays. */
  predicate OthersKept(hash: RequestHash, s: Sys, t: Sys, h: nat) {
    && s.helpers.Keys == t.helpers.Keys
    && (forall g :: g in s.helpers && g != h ==> t.helpers[g] == s.helpers[g])
    && (Receipt in s.store.names ==> Receipt in t.store.names && t.store.names[Receipt] == s.store.names[Receipt])
    && s.returned <= t.returned
  }

  lemma OthersOk(hash: RequestHash, s: Sys, t: Sys, h: nat)
    requires Inv(hash, s) && h in s.helpers && OthersKept(hash, s, t, h)
    requires Acting(s.helpers[h].pc) || (s.store.durable == t.store.durable && s.store.inodes == t.store.inodes
               && s.runs == t.runs && s.success == t.success && s.store.names == t.store.names && t.store.dir == s.store.dir)
    requires HelperOk(hash, t, t.helpers[h])
    requires Acting(t.helpers[h].pc) ==> Acting(s.helpers[h].pc)
    ensures HelpersOk(hash, t)
  {
    forall g | g in t.helpers ensures HelperOk(hash, t, t.helpers[g]) {
      if g != h { assert HelperOk(hash, s, s.helpers[g]); }
    }
  }

  /** Making or syncing a directory on the way changes nothing a helper relies on. */
  lemma PathKeeps(hash: RequestHash, s: Sys, h: nat, f: Store, pc: Pc)
    requires Inv(hash, s) && h in s.helpers && !Acting(pc) && !pc.ReadReceipt? && !pc.Succeeded?
    requires f == s.store.(parent := f.parent, parentSynced := f.parentSynced, dir := f.dir, dirSynced := f.dirSynced)
    requires PathOk(f) && (s.store.dir ==> f.dir)
    ensures Inv(hash, At(s.(store := f), h, pc))
  {
    var t := At(s.(store := f), h, pc);
    forall g | g in t.helpers ensures HelperOk(hash, t, t.helpers[g]) {
      assert HelperOk(hash, s, s.helpers[g]);
    }
  }

  lemma PathStepKeeps(hash: RequestHash, s: Sys, h: nat, c: Choice)
    requires Inv(hash, s) && h in s.helpers
    requires var pc := s.helpers[h].pc; pc.MakeParent? || pc.SyncBase? || pc.MakeStore? || pc.SyncStoreParent?
    ensures Inv(hash, ClaimStep(hash, s, h, c))
  {
    var f := s.store;
    hide HelpersOk, RunsOk, ReceiptOk;
    match s.helpers[h].pc
    case MakeParent => PathKeeps(hash, s, h, f.(parent := true), SyncBase);
    case SyncBase => PathKeeps(hash, s, h, f.(parentSynced := f.parent), OpenStore);
    case MakeStore =>
      PathKeeps(hash, s, h, f, Failed);
      if f.parent { PathKeeps(hash, s, h, f.(dir := true), SyncStoreParent); }
    case SyncStoreParent => PathKeeps(hash, s, h, f.(dirSynced := f.dir), LookClaim);
  }

  lemma LookKeeps(hash: RequestHash, s: Sys, h: nat, pc: Pc)
    requires Inv(hash, s) && h in s.helpers && !Acting(pc) && !pc.ReadReceipt?
    requires pc.Succeeded? ==> s.helpers[h].q in s.returned
    ensures Inv(hash, At(s, h, pc))
  {
    var t := At(s, h, pc);
    forall g | g in t.helpers ensures HelperOk(hash, t, t.helpers[g]) {
      assert HelperOk(hash, s, s.helpers[g]);
    }
  }

  lemma CreateClaimKeeps(hash: RequestHash, s: Sys, h: nat)
    requires Inv(hash, s) && h in s.helpers && s.helpers[h].pc.CreateClaim?
    requires Claim !in s.store.names && s.store.dir
    ensures Inv(hash, At(s.(store := Create(s.store, Claim)), h, WriteClaim(s.store.next)))
  {
    var t := At(s.(store := Create(s.store, Claim)), h, WriteClaim(s.store.next));
    assert s.runs == [] && s.success.None?;
    forall g | g in t.helpers ensures HelperOk(hash, t, t.helpers[g]) && (g != h ==> !Acting(t.helpers[g].pc)) {
      assert HelperOk(hash, s, s.helpers[g]);
    }
  }

  lemma WriteClaimKeeps(hash: RequestHash, s: Sys, h: nat, ino: nat, n: nat)
    requires Inv(hash, s) && h in s.helpers && s.helpers[h].pc == WriteClaim(ino)
    ensures var data := ClaimBytes(hash, s.helpers[h].q);
      var pc := if n >= |data| then SyncClaim(ino) else WriteClaim(ino);
      Inv(hash, At(s.(store := WriteTo(s.store, ino, data, n)), h, pc))
  {
    hide ReceiptBytes, ClaimBytes;
    var data := ClaimBytes(hash, s.helpers[h].q);
    var pc := if n >= |data| then SyncClaim(ino) else WriteClaim(ino);
    var t := At(s.(store := WriteTo(s.store, ino, data, n)), h, pc);
    assert HelperOk(hash, s, s.helpers[h]);
    assert HelperOk(hash, t, t.helpers[h]);
    OthersOk(hash, s, t, h);
  }

  lemma SyncClaimKeeps(hash: RequestHash, s: Sys, h: nat, ino: nat)
    requires Inv(hash, s) && h in s.helpers && s.helpers[h].pc == SyncClaim(ino)
    ensures Inv(hash, At(s.(store := SyncFile(s.store, ino)), h, SyncClaimEntry))
  {
    hide ReceiptBytes;
    var t := At(s.(store := SyncFile(s.store, ino)), h, SyncClaimEntry);
    assert HelperOk(hash, s, s.helpers[h]);
    assert HelperOk(hash, t, t.helpers[h]);
    OthersOk(hash, s, t, h);
  }

  lemma SyncClaimEntryKeeps(hash: RequestHash, s: Sys, h: nat)
    requires Inv(hash, s) && h in s.helpers && s.helpers[h].pc == SyncClaimEntry
    ensures Inv(hash, At(s.(store := SyncEntries(s.store)), h, RunCommand))
  {
    hide ReceiptBytes;
    var t := At(s.(store := SyncEntries(s.store)), h, RunCommand);
    assert HelperOk(hash, s, s.helpers[h]);
    assert HelperOk(hash, t, t.helpers[h]);
    OthersOk(hash, s, t, h);
  }

  lemma RunKeeps(hash: RequestHash, s: Sys, h: nat, c: Choice)
    requires Inv(hash, s) && h in s.helpers && s.helpers[h].pc.RunCommand?
    ensures Inv(hash, ClaimStep(hash, s, h, c))
    ensures s.runs == []
  {
    var t := ClaimStep(hash, s, h, c);
    assert HelperOk(hash, s, s.helpers[h]);
    assert HelperOk(hash, t, t.helpers[h]);
    OthersOk(hash, s, t, h);
  }

  lemma ClaimStepKeeps(hash: RequestHash, s: Sys, h: nat, c: Choice)
    requires Inv(hash, s) && h in s.helpers
    ensures Inv(hash, ClaimStep(hash, s, h, c))
  {
    hide Inv;
    match s.helpers[h].pc
    case OpenParent => LookKeeps(hash, s, h, OpenStore); LookKeeps(hash, s, h, MakeParent);
    case MakeParent => PathStepKeeps(hash, s, h, c);
    case SyncBase => PathStepKeeps(hash, s, h, c);
    case OpenStore => LookKeeps(hash, s, h, LookClaim); LookKeeps(hash, s, h, MakeStore);
    case MakeStore => PathStepKeeps(hash, s, h, c);
    case SyncStoreParent => PathStepKeeps(hash, s, h, c);
    case LookClaim => LookKeeps(hash, s, h, StatClaim); LookKeeps(hash, s, h, LookReceipt);
    case LookReceipt => LookKeeps(hash, s, h, Failed); LookKeeps(hash, s, h, CreateClaim);
    case CreateClaim =>
      LookKeeps(hash, s, h, StatClaim);
      LookKeeps(hash, s, h, Failed);
      if Claim !in s.store.names && s.store.dir { CreateClaimKeeps(hash, s, h); }
    case WriteClaim(ino) => WriteClaimKeeps(hash, s, h, ino, c.amount);
    case SyncClaim(ino) => SyncClaimKeeps(hash, s, h, ino);
    case SyncClaimEntry => SyncClaimEntryKeeps(hash, s, h);
    case RunCommand => RunKeeps(hash, s, h, c);
    case _ =>
  }

  lemma SameReceiptFromBytes(hash: RequestHash, a: Request, b: Request)
    requires ReceiptDecodes(hash, a, ReceiptBytes(hash, b))
    ensures SameReceipt(hash, a, b)
  {
    var x, y := ReceiptBytes(hash, a), ReceiptBytes(hash, b);
    assert y[|y| - 1] == 125;
    assert (x + [10])[|x|] == 10;
    assert x == y;
    assert x[..|x| - 33] == a.meta && y[..|y| - 33] == b.meta;
    assert x[|x| - 33..|x| - 1] == hash(a) && y[|y| - 33..|y| - 1] == hash(b);
  }

  lemma StatReceiptKeeps(hash: RequestHash, s: Sys, h: nat)
    requires Inv(hash, s) && h in s.helpers && Receipt in s.store.names
    ensures Inv(hash, At(s, h, ReadReceipt(s.store.names[Receipt])))
  {
    var t := At(s, h, ReadReceipt(s.store.names[Receipt]));
    forall g | g in t.helpers ensures HelperOk(hash, t, t.helpers[g]) {
      assert HelperOk(hash, s, s.helpers[g]);
    }
  }

  lemma ReturnKeeps(hash: RequestHash, s: Sys, q: Request)
    requires Inv(hash, s) && s.success.Some? && SameReceipt(hash, q, s.success.value)
    ensures Inv(hash, s.(returned := s.returned + {q}))
  {
    var t := s.(returned := s.returned + {q});
    forall g | g in t.helpers ensures HelperOk(hash, t, t.helpers[g]) {
      assert HelperOk(hash, s, s.helpers[g]);
    }
  }

  lemma ReadReceiptKeeps(hash: RequestHash, s: Sys, h: nat)
    requires Inv(hash, s) && h in s.helpers && s.helpers[h].pc.ReadReceipt?
    ensures Inv(hash, ReadBackStep(hash, s, h))
  {
    var q := s.helpers[h].q;
    assert HelperOk(hash, s, s.helpers[h]);
    if ReceiptDecodes(hash, q, DataOf(s.store, s.helpers[h].pc.ino)) {
      SameReceiptFromBytes(hash, q, s.success.value);
      ReturnKeeps(hash, s, q);
      LookKeeps(hash, s.(returned := s.returned + {q}), h, Succeeded);
    } else {
      LookKeeps(hash, s, h, Failed);
    }
  }

  lemma ReadBackKeeps(hash: RequestHash, s: Sys, h: nat)
    requires Inv(hash, s) && h in s.helpers
    ensures Inv(hash, ReadBackStep(hash, s, h))
  {
    hide Inv;
    LookKeeps(hash, s, h, Failed);
    match s.helpers[h].pc
    case StatClaim =>
      if Readable(s.store, Claim).Some? { LookKeeps(hash, s, h, ReadClaim(Readable(s.store, Claim).value)); }
    case ReadClaim(_) => LookKeeps(hash, s, h, StatReceipt);
    case StatReceipt =>
      LookKeeps(hash, s, h, Indeterminate);
      if Receipt in s.store.names { StatReceiptKeeps(hash, s, h); }
    case ReadReceipt(_) => ReadReceiptKeeps(hash, s, h);
    case _ =>
  }

  lemma CreateTempKeeps(hash: RequestHash, s: Sys, h: nat, nonce: nat)
    requires Inv(hash, s) && h in s.helpers && s.helpers[h].pc.CreateTemp? && Temp(nonce) !in s.store.names
    ensures Inv(hash, At(s.(store := Create(s.store, Temp(nonce))), h, WriteTemp(nonce, s.store.next)))
  {
    var t := At(s.(store := Create(s.store, Temp(nonce))), h, WriteTemp(nonce, s.store.next));
    assert HelperOk(hash, s, s.helpers[h]);
    assert HelperOk(hash, t, t.helpers[h]);
    OthersOk(hash, s, t, h);
  }

  lemma WriteTempKeeps(hash: RequestHash, s: Sys, h: nat, nonce: nat, ino: nat, n: nat)
    requires Inv(hash, s) && h in s.helpers && s.helpers[h].pc == WriteTemp(nonce, ino)
    ensures var data := ReceiptBytes(hash, s.helpers[h].q);
      var pc := if n >= |data| then SyncTemp(nonce, ino) else WriteTemp(nonce, ino);
      Inv(hash, At(s.(store := WriteTo(s.store, ino, data, n)), h, pc))
  {
    hide ReceiptBytes;
    var data := ReceiptBytes(hash, s.helpers[h].q);
    var pc := if n >= |data| then SyncTemp(nonce, ino) else WriteTemp(nonce, ino);
    var t := At(s.(store := WriteTo(s.store, ino, data, n)), h, pc);
    assert HelperOk(hash, s, s.helpers[h]);
    assert n == |data| ==> data[..n] == data;
    assert HelperOk(hash, t, t.helpers[h]);
    OthersOk(hash, s, t, h);
  }

  lemma SyncTempKeeps(hash: RequestHash, s: Sys, h: nat, nonce: nat, ino: nat)
    requires Inv(hash, s) && h in s.helpers && s.helpers[h].pc == SyncTemp(nonce, ino)
    ensures Inv(hash, At(s.(store := SyncFile(s.store, ino)), h, LinkTemp(nonce, ino)))
  {
    hide ReceiptBytes;
    var t := At(s.(store := SyncFile(s.store, ino)), h, LinkTemp(nonce, ino));
    assert HelperOk(hash, s, s.helpers[h]);
    assert HelperOk(hash, t, t.helpers[h]);
    OthersOk(hash, s, t, h);
  }

  lemma LinkTempKeeps(hash: RequestHash, s: Sys, h: nat, nonce: nat, ino: nat)
    requires Inv(hash, s) && h in s.helpers && s.helpers[h].pc == LinkTemp(nonce, ino)
    ensures Inv(hash, At(s.(store := s.store.(names := s.store.names[Receipt := ino])), h, RemoveTemp(nonce)))
  {
    hide ReceiptBytes;
    var t := At(s.(store := s.store.(names := s.store.names[Receipt := ino])), h, RemoveTemp(nonce));
    assert HelperOk(hash, s, s.helpers[h]);
    assert HelperOk(hash, t, t.helpers[h]);
    OthersOk(hash, s, t, h);
  }

  /** A publishing call that only looks. */
  lemma PublishMoveKeeps(hash: RequestHash, s: Sys, h: nat, pc: Pc)
    requires Inv(hash, s) && h in s.helpers && Publishing(s.helpers[h].pc)
    requires Publishing(pc) && !pc.WriteTemp? && !pc.SyncTemp? && !pc.LinkTemp?
    requires BeforeLink(pc) ==> Receipt !in s.store.names && Receipt !in s.store.durable
    ensures Inv(hash, At(s, h, pc))
  {
    var t := At(s, h, pc);
    assert HelperOk(hash, s, s.helpers[h]);
    assert HelperOk(hash, t, t.helpers[h]);
    OthersOk(hash, s, t, h);
  }

  lemma RemoveKeeps(hash: RequestHash, s: Sys, h: nat, nonce: nat)
    requires Inv(hash, s) && h in s.helpers && Publishing(s.helpers[h].pc) && !BeforeLink(s.helpers[h].pc)
    ensures Inv(hash, s.(store := s.store.(names := s.store.names - {Temp(nonce)})))
  {
    var t := s.(store := s.store.(names := s.store.names - {Temp(nonce)}));
    assert HelperOk(hash, s, s.helpers[h]);
    assert HelperOk(hash, t, t.helpers[h]);
    OthersOk(hash, s, t, h);
  }

  lemma SyncEntriesKeeps(hash: RequestHash, s: Sys, h: nat)
    requires Inv(hash, s) && h in s.helpers && s.helpers[h].pc.SyncReceiptEntry?
    ensures Inv(hash, s.(store := SyncEntries(s.store)))
  {
    var t := s.(store := SyncEntries(s.store));
    assert HelperOk(hash, s, s.helpers[h]);
    assert HelperOk(hash, t, t.helpers[h]);
    OthersOk(hash, s, t, h);
  }

  lemma HelperAt(hash: RequestHash, s: Sys, h: nat)
    requires Inv(hash, s) && h in s.helpers
    ensures BeforeLink(s.helpers[h].pc) ==> Receipt !in s.store.names && Receipt !in s.store.durable
  {
    assert HelperOk(hash, s, s.helpers[h]);
  }

  lemma PublishEarlyKeeps(hash: RequestHash, s: Sys, h: nat, c: Choice)
    requires Inv(hash, s) && h in s.helpers && BeforeLink(s.helpers[h].pc)
    ensures Inv(hash, PublishStep(hash, s, h, c))
  {
    hide Inv, WriteTo, SyncFile, Create, ReceiptBytes, ClaimBytes;
    LookKeeps(hash, s, h, Failed);
    HelperAt(hash, s, h);
    match s.helpers[h].pc
    case PublishOpen => PublishMoveKeeps(hash, s, h, PublishStatClaim);
    case PublishStatClaim =>
      if Readable(s.store, Claim).Some? { PublishMoveKeeps(hash, s, h, PublishReadClaim(Readable(s.store, Claim).value)); }
    case PublishReadClaim(_) => PublishMoveKeeps(hash, s, h, PublishStatReceipt);
    case PublishStatReceipt => PublishMoveKeeps(hash, s, h, CreateTemp);
    case CreateTemp => if Temp(c.nonce) !in s.store.names { CreateTempKeeps(hash, s, h, c.nonce); }
    case WriteTemp(nonce, ino) => WriteTempKeeps(hash, s, h, nonce, ino, c.amount);
    case SyncTemp(nonce, ino) => SyncTempKeeps(hash, s, h, nonce, ino);
    case LinkTemp(nonce, ino) => LinkTempKeeps(hash, s, h, nonce, ino);
  }

  lemma PublishLateKeeps(hash: RequestHash, s: Sys, h: nat, c: Choice)
    requires Inv(hash, s) && h in s.helpers && Publishing(s.helpers[h].pc) && !BeforeLink(s.helpers[h].pc)
    ensures Inv(hash, PublishStep(hash, s, h, c))
  {
    hide Inv, WriteTo, SyncFile, Create, ReceiptBytes, ClaimBytes;
    LookKeeps(hash, s, h, Failed);
    match s.helpers[h].pc
    case PublishReadReceipt(_) => PublishMoveKeeps(hash, s, h, SyncReceiptEntry);
    case StatLinked(nonce) =>
      PublishMoveKeeps(hash, s, h, CleanTemp(nonce));
      if Readable(s.store, Receipt).Some? {
        PublishMoveKeeps(hash, s, h, ReadLinked(nonce, Readable(s.store, Receipt).value));
      }
    case ReadLinked(nonce, _) =>
      PublishMoveKeeps(hash, s, h, CleanTemp(nonce));
      PublishMoveKeeps(hash, s, h, RemoveTemp(nonce));
    case RemoveTemp(nonce) =>
      RemoveKeeps(hash, s, h, nonce);
      PublishMoveKeeps(hash, s.(store := s.store.(names := s.store.names - {Temp(nonce)})), h, SyncReceiptEntry);
    case SyncReceiptEntry =>
      SyncEntriesKeeps(hash, s, h);
      var mid := s.(store := SyncEntries(s.store));
      PublisherSucceeded(hash, mid, h);
      ReturnKeeps(hash, mid, s.helpers[h].q);
      LookKeeps(hash, mid.(returned := s.returned + {s.helpers[h].q}), h, Succeeded);
    case CleanTemp(nonce) =>
      RemoveKeeps(hash, s, h, nonce);
      LookKeeps(hash, s.(store := s.store.(names := s.store.names - {Temp(nonce)})), h, Failed);
  }

  lemma PublisherSucceeded(hash: RequestHash, s: Sys, h: nat)
    requires Inv(hash, s) && h in s.helpers && Publishing(s.helpers[h].pc)
    ensures s.success == Some(s.helpers[h].q)
  {
    assert HelperOk(hash, s, s.helpers[h]);
  }

  lemma PublishStepKeeps(hash: RequestHash, s: Sys, h: nat, c: Choice)
    requires Inv(hash, s) && h in s.helpers && Publishing(s.helpers[h].pc)
    ensures Inv(hash, PublishStep(hash, s, h, c))
  {
    hide Inv, PublishStep;
    if BeforeLink(s.helpers[h].pc) { PublishEarlyKeeps(hash, s, h, c); } else { PublishLateKeeps(hash, s, h, c); }
  }

  lemma MoveKeeps(hash: RequestHash, s: Sys, h: nat, pc: Pc)
    requires Inv(hash, s) && h in s.helpers
    requires pc == Stopped || pc == FailedCall(s.helpers[h].pc)
    ensures Inv(hash, At(s, h, pc))
  {
    var t := At(s, h, pc);
    forall g | g in t.helpers ensures HelperOk(hash, t, t.helpers[g]) {
      assert HelperOk(hash, s, s.helpers[g]);
    }
  }

  lemma StepKeeps(hash: RequestHash, s: Sys, h: nat, c: Choice)
    requires Inv(hash, s) && h in s.helpers
    ensures Inv(hash, Step(hash, s, h, c))
  {
    var pc := s.helpers[h].pc;
    if Ended(pc) {
    } else if c.fail {
      MoveKeeps(hash, s, h, FailedCall(pc));
    } else if Publishing(pc) {
      PublishStepKeeps(hash, s, h, c);
    } else if ReadingBack(pc) {
      ReadBackKeeps(hash, s, h);
    } else {
      ClaimStepKeeps(hash, s, h, c);
    }
  }

  lemma SpawnKeeps(hash: RequestHash, s: Sys, h: nat, q: Request)
    requires Inv(hash, s) && h !in s.helpers
    ensures Inv(hash, s.(helpers := s.helpers[h := Helper(q, OpenParent)]))
  {
    var t := s.(helpers := s.helpers[h := Helper(q, OpenParent)]);
    forall g | g in t.helpers ensures HelperOk(hash, t, t.helpers[g]) {
      if g != h { assert HelperOk(hash, s, s.helpers[g]); }
    }
  }

  lemma StoppedHelpersOk(hash: RequestHash, s: Sys)
    requires forall h :: h in s.helpers ==> Ended(s.helpers[h].pc)
    requires forall h :: h in s.helpers && s.helpers[h].pc.Succeeded? ==> s.helpers[h].q in s.returned
    ensures HelpersOk(hash, s)
  {
    forall h | h in s.helpers ensures HelperOk(hash, s, s.helpers[h]) && !Acting(s.helpers[h].pc) {
    }
  }

  lemma SurvivesKeeps(hash: RequestHash, s: Sys, g: Store)
    requires StoreOk(s.store) && RunsOk(s) && ReceiptOk(hash, s) && Survives(s.store, g)
    ensures var t := s.(store := g); StoreOk(t.store) && RunsOk(t) && ReceiptOk(hash, t)
  {
    var t := s.(store := g);
    assert StoreOk(g);
    assert RunsOk(t);
    if Receipt in g.names {
      assert IsReceipt(hash, s.store, g.names[Receipt], s.success.value);
    }
  }

  lemma PowerLossKeeps(hash: RequestHash, s: Sys, t: Sys)
    requires Inv(hash, s) && PowerLoss(s, t)
    requires s.runs != [] ==> DirDurable(s.store)
    ensures Inv(hash, t)
  {
    forall h | h in t.helpers && t.helpers[h].pc.Succeeded? ensures t.helpers[h].q in t.returned {
      assert HelperOk(hash, s, s.helpers[h]);
    }
    StoppedHelpersOk(hash, t);
    if s.store.dir && Survives(s.store, t.store) {
      SurvivesKeeps(hash, s, t.store);
    } else {
      assert s.runs == [];
    }
  }

  lemma NextKeeps(hash: RequestHash, s: Sys, t: Sys)
    requires Inv(hash, s) && DurableStep(hash, s, t)
    ensures Inv(hash, t)
  {
    if h: nat, q :| h !in s.helpers && t == s.(helpers := s.helpers[h := Helper(q, OpenParent)]) {
      SpawnKeeps(hash, s, h, q);
    } else if h: nat, c :| h in s.helpers && t == Step(hash, s, h, c) {
      StepKeeps(hash, s, h, c);
    } else if h: nat :| h in s.helpers && !Ended(s.helpers[h].pc) && t == At(s, h, Stopped) {
      MoveKeeps(hash, s, h, Stopped);
    } else {
      PowerLossKeeps(hash, s, t);
    }
  }

  lemma {:induction false} DurableRunKeeps(hash: RequestHash, tr: seq<Sys>, i: nat)
    requires DurableRun(hash, tr) && i < |tr|
    ensures Inv(hash, tr[i])
  {
    if i > 0 {
      DurableRunKeeps(hash, tr, i - 1);
      assert DurableStep(hash, tr[i - 1], tr[i - 1 + 1]);
      NextKeeps(hash, tr[i - 1], tr[i]);
    }
  }

  /** Whatever helpers stop, and whatever power losses durable directories suffer, the command starts at most once. */
  lemma AtMostOnce(hash: RequestHash, tr: seq<Sys>, i: nat)
    requires DurableRun(hash, tr) && i < |tr|
    ensures |tr[i].runs| <= 1
  {
    DurableRunKeeps(hash, tr, i);
  }

  /** A helper that answers with success has been handed a receipt, so the one started command succeeded. */
  lemma AnswerSound(hash: RequestHash, tr: seq<Sys>, i: nat, h: nat)
    requires DurableRun(hash, tr) && i < |tr| && h in tr[i].helpers && tr[i].helpers[h].pc.Succeeded?
    ensures tr[i].helpers[h].q in tr[i].returned
    ensures tr[i].success.Some? && tr[i].runs == [tr[i].success.value]
    ensures hash(tr[i].helpers[h].q) == hash(tr[i].success.value) && tr[i].helpers[h].q.meta == tr[i].success.value.meta
  {
    DurableRunKeeps(hash, tr, i);
    assert HelperOk(hash, tr[i], tr[i].helpers[h]);
  }

  /** A receipt is handed out only for the request whose command succeeded, up to a digest collision. */
  lemma ReceiptOnlyForSuccess(hash: RequestHash, tr: seq<Sys>, i: nat, q: Request)
    requires DurableRun(hash, tr) && i < |tr| && q in tr[i].returned
    ensures tr[i].success.Some? && tr[i].runs == [tr[i].success.value]
    ensures tr[i].success.value == q || (tr[i].success.value != q && hash(tr[i].success.value) == hash(q))
    ensures tr[i].success.value.meta == q.meta
  {
    DurableRunKeeps(hash, tr, i);
  }
}
