/** Receipts under power loss: which answers are lasting, and how an answer can be forgotten. */
module ActionReceipts {
  import opened Bytes
  import opened ActionStore
  import opened ActionSafety
  import opened ActionDurability
  import R = ActionReplay

  // ---- what is known of the claim and the receipt in every reachable state ----

  /** No other name links, or after a power loss could link, the file of this one. */
  predicate Sole(f: Store, name: Name) {
    && name in f.names
    && (forall n :: n in f.names && f.names[n] == f.names[name] ==> n == name)
    && (forall n :: n in f.durable && f.durable[n] == f.names[name] ==> n == name)
  }

  predicate ClaimWhole(hash: RequestHash, f: Store, q: Request) {
    Sole(f, Claim) && f.names[Claim] in f.inodes && f.inodes[f.names[Claim]] == Inode(ClaimBytes(hash, q), true)
  }

  /** What the one acting helper relies on. Its receipt never meets another, so three places are never reached. */
  predicate HeldBy(hash: RequestHash, f: Store, p: Helper) {
    && (p.pc.WriteClaim? || p.pc.SyncClaim? ==> Sole(f, Claim) && f.names[Claim] == p.pc.ino)
    && (p.pc.SyncClaim? ==> DataOf(f, p.pc.ino) == ClaimBytes(hash, p.q))
    && (p.pc.SyncClaimEntry? || p.pc.RunCommand? ==> ClaimWhole(hash, f, p.q))
    && !p.pc.PublishReadReceipt? && !p.pc.StatLinked? && !p.pc.ReadLinked?
    && (p.pc.RemoveTemp? ==>
          && Receipt in f.names
          && forall n :: n in f.names && f.names[n] == f.names[Receipt] ==> n == Receipt || n == Temp(p.pc.nonce))
    && (p.pc.SyncReceiptEntry? ==> Receipt in f.names && OneLink(f, Receipt))
  }

  predicate Held(hash: RequestHash, s: Sys) {
    && (s.success.Some? ==> ClaimWhole(hash, s.store, s.success.value))
    && (Receipt in s.store.durable ==> Receipt in s.store.names && s.store.names[Receipt] == s.store.durable[Receipt])
    && (forall h :: h in s.helpers ==> HeldBy(hash, s.store, s.helpers[h]))
  }

  /** The files and their names are as before. */
  predicate SameFiles(f: Store, g: Store) {
    g.names == f.names && g.durable == f.durable && g.inodes == f.inodes && g.next == f.next
  }

  lemma SameFilesHeld(hash: RequestHash, s: Sys, t: Sys, h: nat)
    requires Held(hash, s) && SameFiles(s.store, t.store) && s.success == t.success
    requires t.helpers.Keys == s.helpers.Keys + {h} && forall g :: g in s.helpers && g != h ==> t.helpers[g] == s.helpers[g]
    requires HeldBy(hash, t.store, t.helpers[h])
    ensures Held(hash, t)
  {
    forall g | g in t.helpers ensures HeldBy(hash, t.store, t.helpers[g]) {
      if g != h { assert HeldBy(hash, s.store, s.helpers[g]); }
    }
  }

  /** A helper at such a place relies on nothing here. */
  predicate Free(pc: Pc) {
    (!Owning(pc) && !Publishing(pc)) || BeforeLink(pc) || pc.CleanTemp?
  }

  lemma FreeHeld(hash: RequestHash, f: Store, p: Helper)
    requires Free(p.pc)
    ensures HeldBy(hash, f, p)
  {
  }

  /** Where helper h alone has moved and every other is free, its own facts are all there is to show. */
  lemma AloneHeld(hash: RequestHash, s: Sys, t: Sys, h: nat)
    requires Inv(hash, s) && h in s.helpers && (Acting(s.helpers[h].pc) || Claim !in s.store.names)
    requires t.helpers.Keys == s.helpers.Keys && forall g :: g in s.helpers && g != h ==> t.helpers[g] == s.helpers[g]
    requires HeldBy(hash, t.store, t.helpers[h])
    requires s.success.Some? ==> ClaimWhole(hash, t.store, s.success.value)
    requires t.success == s.success || (t.success.Some? && ClaimWhole(hash, t.store, t.success.value))
    requires Receipt in t.store.durable ==> Receipt in t.store.names && t.store.names[Receipt] == t.store.durable[Receipt]
    ensures Held(hash, t)
  {
    forall g | g in t.helpers ensures HeldBy(hash, t.store, t.helpers[g]) {
      if g != h {
        assert HelperOk(hash, s, s.helpers[g]);
        assert !Acting(s.helpers[g].pc);
        FreeHeld(hash, t.store, t.helpers[g]);
      }
    }
  }

  lemma CreatesHeld(hash: RequestHash, s: Sys, h: nat, name: Name, pc: Pc)
    requires Inv(hash, s) && Held(hash, s) && h in s.helpers
    requires (name == Claim && Claim !in s.store.names && pc == WriteClaim(s.store.next)) ||
             (name.Temp? && Acting(s.helpers[h].pc) && pc == WriteTemp(name.nonce, s.store.next))
    ensures Held(hash, At(s.(store := Create(s.store, name)), h, pc))
  {
    hide ClaimBytes, HelpersOk, ReceiptOk;
    AloneHeld(hash, s, At(s.(store := Create(s.store, name)), h, pc), h);
  }

  lemma WriterHeld(hash: RequestHash, s: Sys, h: nat, ino: nat, n: nat)
    requires Inv(hash, s) && Held(hash, s) && h in s.helpers && s.helpers[h].pc == WriteClaim(ino)
    ensures var data := ClaimBytes(hash, s.helpers[h].q);
      var pc := if n >= |data| then SyncClaim(ino) else WriteClaim(ino);
      Held(hash, At(s.(store := WriteTo(s.store, ino, data, n)), h, pc))
  {
    var p, data := s.helpers[h], ClaimBytes(hash, s.helpers[h].q);
    var t := At(s.(store := WriteTo(s.store, ino, data, n)), h, if n >= |data| then SyncClaim(ino) else WriteClaim(ino));
    hide ClaimBytes, ReceiptOk, StoreOk;
    assert HelperOk(hash, s, p) && HeldBy(hash, s.store, p);
    assert s.success.None?;
    assert n == |data| ==> data[..n] == data;
    AloneHeld(hash, s, t, h);
  }

  lemma SyncerHeld(hash: RequestHash, s: Sys, h: nat, ino: nat)
    requires Inv(hash, s) && Held(hash, s) && h in s.helpers && s.helpers[h].pc == SyncClaim(ino)
    ensures Held(hash, At(s.(store := SyncFile(s.store, ino)), h, SyncClaimEntry))
  {
    hide ClaimBytes, ReceiptOk, StoreOk;
    assert HelperOk(hash, s, s.helpers[h]) && HeldBy(hash, s.store, s.helpers[h]);
    assert s.success.None?;
    AloneHeld(hash, s, At(s.(store := SyncFile(s.store, ino)), h, SyncClaimEntry), h);
  }

  lemma EntrySyncerHeld(hash: RequestHash, s: Sys, h: nat)
    requires Inv(hash, s) && Held(hash, s) && h in s.helpers && s.helpers[h].pc == SyncClaimEntry
    ensures Held(hash, At(s.(store := SyncEntries(s.store)), h, RunCommand))
  {
    hide ClaimBytes, ReceiptOk, StoreOk;
    assert HelperOk(hash, s, s.helpers[h]) && HeldBy(hash, s.store, s.helpers[h]);
    assert s.success.None?;
    AloneHeld(hash, s, At(s.(store := SyncEntries(s.store)), h, RunCommand), h);
  }

  lemma RunnerHeld(hash: RequestHash, s: Sys, h: nat, c: Choice)
    requires Inv(hash, s) && Held(hash, s) && h in s.helpers && s.helpers[h].pc == RunCommand
    ensures Held(hash, ClaimStep(hash, s, h, c))
  {
    hide ClaimBytes, ReceiptOk, StoreOk;
    var t := ClaimStep(hash, s, h, c);
    assert HelperOk(hash, s, s.helpers[h]) && HeldBy(hash, s.store, s.helpers[h]);
    assert s.success.None?;
    FreeHeld(hash, t.store, t.helpers[h]);
    AloneHeld(hash, s, t, h);
  }

  lemma OwnerHeld(hash: RequestHash, s: Sys, h: nat, c: Choice)
    requires Inv(hash, s) && Held(hash, s) && h in s.helpers && Owning(s.helpers[h].pc)
    ensures Held(hash, ClaimStep(hash, s, h, c))
  {
    hide Inv, Held, ClaimBytes, WriteTo, SyncFile;
    match s.helpers[h].pc
    case WriteClaim(ino) => WriterHeld(hash, s, h, ino, c.amount);
    case SyncClaim(ino) => SyncerHeld(hash, s, h, ino);
    case SyncClaimEntry => EntrySyncerHeld(hash, s, h);
    case RunCommand => RunnerHeld(hash, s, h, c);
  }

  lemma LookerHeld(hash: RequestHash, s: Sys, h: nat, c: Choice)
    requires Inv(hash, s) && Held(hash, s) && h in s.helpers
    requires var pc := s.helpers[h].pc; !Acting(pc) && !Ended(pc) && !ReadingBack(pc)
    ensures Held(hash, ClaimStep(hash, s, h, c))
  {
    hide Inv, Held, HeldBy, Create;
    var t := ClaimStep(hash, s, h, c);
    if s.helpers[h].pc.CreateClaim? && Claim !in s.store.names && s.store.dir {
      CreatesHeld(hash, s, h, Claim, WriteClaim(s.store.next));
    } else {
      FreeHeld(hash, t.store, t.helpers[h]);
      SameFilesHeld(hash, s, t, h);
    }
  }

  lemma ReaderHeld(hash: RequestHash, s: Sys, h: nat)
    requires Held(hash, s) && h in s.helpers && ReadingBack(s.helpers[h].pc)
    ensures Held(hash, ReadBackStep(hash, s, h))
  {
    hide Held, HeldBy, Readable, ReceiptDecodes, DataOf;
    var t := ReadBackStep(hash, s, h);
    FreeHeld(hash, t.store, t.helpers[h]);
    SameFilesHeld(hash, s, t, h);
  }

  /** A temporary file is not the claim. */
  lemma TempIsNotClaim(hash: RequestHash, s: Sys, h: nat)
    requires Inv(hash, s) && Held(hash, s) && h in s.helpers
    requires var pc := s.helpers[h].pc; pc.WriteTemp? || pc.SyncTemp? || pc.LinkTemp?
    ensures s.success == Some(s.helpers[h].q) && ClaimWhole(hash, s.store, s.helpers[h].q)
    ensures s.store.names[Claim] != s.helpers[h].pc.ino && Private(s.store, s.helpers[h].pc.nonce, s.helpers[h].pc.ino)
    ensures Receipt !in s.store.durable
  {
    hide ClaimBytes, ReceiptBytes, StoreOk, RunsOk, ReceiptOk;
    assert HelperOk(hash, s, s.helpers[h]);
  }

  lemma TempWriterHeld(hash: RequestHash, s: Sys, h: nat, f: Store, pc: Pc)
    requires Inv(hash, s) && Held(hash, s) && h in s.helpers && (s.helpers[h].pc.WriteTemp? || s.helpers[h].pc.SyncTemp?)
    requires OneFile(s.store, f, s.helpers[h].pc.ino) && BeforeLink(pc)
    ensures Held(hash, At(s.(store := f), h, pc))
  {
    TempIsNotClaim(hash, s, h);
    hide ClaimBytes, HelperOk, StoreOk, RunsOk, ReceiptOk, Private;
    FreeHeld(hash, f, s.helpers[h].(pc := pc));
    AloneHeld(hash, s, At(s.(store := f), h, pc), h);
  }

  lemma LinkerHeld(hash: RequestHash, s: Sys, h: nat, nonce: nat, ino: nat)
    requires Inv(hash, s) && Held(hash, s) && h in s.helpers && s.helpers[h].pc == LinkTemp(nonce, ino)
    requires Receipt !in s.store.names
    ensures Held(hash, At(s.(store := s.store.(names := s.store.names[Receipt := ino])), h, RemoveTemp(nonce)))
  {
    TempIsNotClaim(hash, s, h);
    hide ClaimBytes, HelperOk, StoreOk, RunsOk, ReceiptOk;
    AloneHeld(hash, s, At(s.(store := s.store.(names := s.store.names[Receipt := ino])), h, RemoveTemp(nonce)), h);
  }

  lemma TempHeld(hash: RequestHash, s: Sys, h: nat, c: Choice)
    requires Inv(hash, s) && Held(hash, s) && h in s.helpers
    requires var pc := s.helpers[h].pc; pc.WriteTemp? || pc.SyncTemp? || pc.LinkTemp?
    ensures Held(hash, PublishStep(hash, s, h, c))
  {
    HelperAt(hash, s, h);
    hide Inv, Held, ReceiptBytes, WriteTo, SyncFile;
    var p, f, data := s.helpers[h], s.store, ReceiptBytes(hash, s.helpers[h].q);
    if p.pc.LinkTemp? {
      LinkerHeld(hash, s, h, p.pc.nonce, p.pc.ino);
    } else {
      WritesOneFile(f, p.pc.ino, data, c.amount);
      hide OneFile;
      var t := PublishStep(hash, s, h, c);
      TempWriterHeld(hash, s, h, t.store, t.helpers[h].pc);
    }
  }

  /** Nothing but one file's contents differs. */
  predicate OneFile(f: Store, g: Store, ino: nat) {
    && g == f.(inodes := g.inodes) && f.inodes.Keys <= g.inodes.Keys
    && forall i :: i in f.inodes && i != ino ==> g.inodes[i] == f.inodes[i]
  }

  lemma WritesOneFile(f: Store, ino: nat, data: bytes, n: nat)
    ensures OneFile(f, WriteTo(f, ino, data, n), ino) && OneFile(f, SyncFile(f, ino), ino)
  {
  }

  lemma PublisherClaim(hash: RequestHash, s: Sys, h: nat)
    requires Inv(hash, s) && Held(hash, s) && h in s.helpers && Publishing(s.helpers[h].pc)
    ensures s.success == Some(s.helpers[h].q) && ClaimWhole(hash, s.store, s.helpers[h].q)
  {
    hide ClaimBytes, ReceiptBytes, StoreOk, RunsOk, ReceiptOk;
    assert HelperOk(hash, s, s.helpers[h]);
  }

  lemma RemoverHeld(hash: RequestHash, s: Sys, h: nat, nonce: nat, pc: Pc)
    requires Inv(hash, s) && Held(hash, s) && h in s.helpers
    requires (s.helpers[h].pc == RemoveTemp(nonce) && pc == SyncReceiptEntry) ||
             (s.helpers[h].pc == CleanTemp(nonce) && pc == Failed)
    ensures Held(hash, At(s.(store := s.store.(names := s.store.names - {Temp(nonce)})), h, pc))
  {
    PublisherClaim(hash, s, h);
    hide ClaimBytes, HelperOk, StoreOk, RunsOk, ReceiptOk;
    assert HeldBy(hash, s.store, s.helpers[h]);
    AloneHeld(hash, s, At(s.(store := s.store.(names := s.store.names - {Temp(nonce)})), h, pc), h);
  }

  lemma FinisherHeld(hash: RequestHash, s: Sys, h: nat)
    requires Inv(hash, s) && Held(hash, s) && h in s.helpers && s.helpers[h].pc == SyncReceiptEntry
    ensures Held(hash, At(s.(store := SyncEntries(s.store), returned := s.returned + {s.helpers[h].q}), h, Succeeded))
  {
    PublisherClaim(hash, s, h);
    hide ClaimBytes, HelperOk, StoreOk, RunsOk, ReceiptOk;
    AloneHeld(hash, s, At(s.(store := SyncEntries(s.store), returned := s.returned + {s.helpers[h].q}), h, Succeeded), h);
  }

  /** The publisher's looks change nothing and lead to places before the link. */
  lemma LooksOnly(hash: RequestHash, s: Sys, h: nat, c: Choice)
    requires h in s.helpers && (BeforeLink(s.helpers[h].pc) ==> Receipt !in s.store.names)
    requires var pc := s.helpers[h].pc;
      pc.PublishOpen? || pc.PublishStatClaim? || pc.PublishReadClaim? || pc.PublishStatReceipt? ||
      (pc.CreateTemp? && Temp(c.nonce) in s.store.names)
    ensures var t := PublishStep(hash, s, h, c); t == At(s, h, t.helpers[h].pc) && Free(t.helpers[h].pc)
  {
    hide Create, DataOf, ClaimBytes, ReceiptBytes, WriteTo, SyncFile, OneLink;
  }

  lemma OpenerHeld(hash: RequestHash, s: Sys, h: nat, c: Choice)
    requires Inv(hash, s) && Held(hash, s) && h in s.helpers
    requires var pc := s.helpers[h].pc;
      pc.PublishOpen? || pc.PublishStatClaim? || pc.PublishReadClaim? || pc.PublishStatReceipt? ||
      (pc.CreateTemp? && Temp(c.nonce) in s.store.names)
    ensures Held(hash, PublishStep(hash, s, h, c))
  {
    HelperAt(hash, s, h);
    LooksOnly(hash, s, h, c);
    hide Inv, Held, HeldBy, PublishStep, Free;
    var t := PublishStep(hash, s, h, c);
    FreeHeld(hash, t.store, t.helpers[h]);
    SameFilesHeld(hash, s, t, h);
  }

  lemma EarlyHeld(hash: RequestHash, s: Sys, h: nat, c: Choice)
    requires Inv(hash, s) && Held(hash, s) && h in s.helpers && BeforeLink(s.helpers[h].pc)
    ensures Held(hash, PublishStep(hash, s, h, c))
  {
    hide Inv, Held, PublishStep;
    var pc := s.helpers[h].pc;
    if pc.WriteTemp? || pc.SyncTemp? || pc.LinkTemp? {
      TempHeld(hash, s, h, c);
    } else if pc.CreateTemp? && Temp(c.nonce) !in s.store.names {
      StagerHeld(hash, s, h, c);
    } else {
      OpenerHeld(hash, s, h, c);
    }
  }

  lemma StagerHeld(hash: RequestHash, s: Sys, h: nat, c: Choice)
    requires Inv(hash, s) && Held(hash, s) && h in s.helpers && s.helpers[h].pc.CreateTemp? && Temp(c.nonce) !in s.store.names
    ensures Held(hash, PublishStep(hash, s, h, c))
  {
    hide Inv, Held, Create;
    CreatesHeld(hash, s, h, Temp(c.nonce), WriteTemp(c.nonce, s.store.next));
  }

  lemma LateHeld(hash: RequestHash, s: Sys, h: nat, c: Choice)
    requires Inv(hash, s) && Held(hash, s) && h in s.helpers
    requires var pc := s.helpers[h].pc; pc.RemoveTemp? || pc.SyncReceiptEntry? || pc.CleanTemp?
    ensures Held(hash, PublishStep(hash, s, h, c))
  {
    hide Inv, Held, ReceiptBytes, WriteTo, SyncFile, Create, Readable, DataOf, ClaimBytes;
    match s.helpers[h].pc
    case RemoveTemp(nonce) => RemoverHeld(hash, s, h, nonce, SyncReceiptEntry);
    case CleanTemp(nonce) => RemoverHeld(hash, s, h, nonce, Failed);
    case SyncReceiptEntry => FinisherHeld(hash, s, h);
  }

  lemma PublisherHeld(hash: RequestHash, s: Sys, h: nat, c: Choice)
    requires Inv(hash, s) && Held(hash, s) && h in s.helpers && Publishing(s.helpers[h].pc)
    ensures Held(hash, PublishStep(hash, s, h, c))
  {
    assert HeldBy(hash, s.store, s.helpers[h]);
    hide Inv, Held, PublishStep;
    if BeforeLink(s.helpers[h].pc) { EarlyHeld(hash, s, h, c); } else { LateHeld(hash, s, h, c); }
  }

  lemma EndsHeld(hash: RequestHash, s: Sys, h: nat, pc: Pc)
    requires Held(hash, s) && h in s.helpers && (pc == Stopped || pc == FailedCall(s.helpers[h].pc))
    ensures Held(hash, At(s, h, pc))
  {
    hide Held, HeldBy;
    FreeHeld(hash, s.store, s.helpers[h].(pc := pc));
    SameFilesHeld(hash, s, At(s, h, pc), h);
  }

  lemma StepHeld(hash: RequestHash, s: Sys, h: nat, c: Choice)
    requires Inv(hash, s) && Held(hash, s) && h in s.helpers
    ensures Held(hash, Step(hash, s, h, c))
  {
    hide Inv, Held, PublishStep, ReadBackStep, ClaimStep;
    var pc := s.helpers[h].pc;
    if Ended(pc) {
    } else if c.fail {
      EndsHeld(hash, s, h, FailedCall(pc));
    } else if Publishing(pc) {
      PublisherHeld(hash, s, h, c);
    } else if ReadingBack(pc) {
      ReaderHeld(hash, s, h);
    } else if Owning(pc) {
      OwnerHeld(hash, s, h, c);
    } else {
      LookerHeld(hash, s, h, c);
    }
  }

  lemma LossHeld(hash: RequestHash, s: Sys, t: Sys)
    requires Inv(hash, s) && Held(hash, s) && PowerLoss(s, t) && (s.runs != [] ==> DirDurable(s.store))
    ensures Held(hash, t)
  {
    hide ClaimBytes, HelpersOk, ReceiptOk;
    forall h | h in t.helpers ensures HeldBy(hash, t.store, t.helpers[h]) {
      FreeHeld(hash, t.store, t.helpers[h]);
    }
  }

  lemma NextHeld(hash: RequestHash, s: Sys, t: Sys)
    requires Inv(hash, s) && Held(hash, s) && DurableStep(hash, s, t)
    ensures Held(hash, t)
  {
    hide Inv, Held, HeldBy, Step, PowerLoss;
    if h: nat, q :| h !in s.helpers && t == s.(helpers := s.helpers[h := Helper(q, OpenParent)]) {
      FreeHeld(hash, t.store, t.helpers[h]);
      SameFilesHeld(hash, s, t, h);
    } else if h: nat, c :| h in s.helpers && t == Step(hash, s, h, c) {
      StepHeld(hash, s, h, c);
    } else if h: nat :| h in s.helpers && !Ended(s.helpers[h].pc) && t == At(s, h, Stopped) {
      EndsHeld(hash, s, h, Stopped);
    } else {
      LossHeld(hash, s, t);
    }
  }

  lemma {:induction false} DurableRunHeld(hash: RequestHash, tr: seq<Sys>, i: nat)
    requires DurableRun(hash, tr) && i < |tr|
    ensures Inv(hash, tr[i]) && Held(hash, tr[i])
  {
    hide DurableStep;
    DurableRunKeeps(hash, tr, i);
    if i > 0 {
      DurableRunHeld(hash, tr, i - 1);
      hide Inv, Held;
      assert DurableStep(hash, tr[i - 1], tr[i - 1 + 1]);
      NextHeld(hash, tr[i - 1], tr[i]);
    }
  }

  // ---- lasting receipts ----

  /** Claim and receipt of q are whole, and power loss can take neither. */
  predicate Lasting(hash: RequestHash, f: Store, q: Request) {
    && f.parent && f.dir && ClaimWhole(hash, f, q)
    && Sole(f, Receipt) && IsReceipt(hash, f, f.names[Receipt], q)
    && Claim in f.durable && f.durable[Claim] == f.names[Claim]
    && Receipt in f.durable && f.durable[Receipt] == f.names[Receipt]
  }

  lemma PublishingLasts(hash: RequestHash, s: Sys, h: nat, c: Choice)
    requires Inv(hash, s) && Held(hash, s) && h in s.helpers && s.helpers[h].pc == SyncReceiptEntry && !c.fail
    ensures var t := Step(hash, s, h, c); t.helpers[h].pc == Succeeded && Lasting(hash, t.store, s.helpers[h].q)
  {
    PublisherClaim(hash, s, h);
    hide ClaimBytes, ReceiptBytes, HelperOk;
    assert HeldBy(hash, s.store, s.helpers[h]);
    assert OneLink(s.store, Receipt);
  }

  /** The files that matter stay, whatever else changes. */
  predicate Stays(f: Store, g: Store) {
    && g.parent && g.dir
    && (forall n :: n in {Claim, Receipt} && n in f.names ==> n in g.names && g.names[n] == f.names[n])
    && (forall n :: n in g.names ==> n in f.names && g.names[n] == f.names[n])
    && (g.durable == f.durable || g.durable == g.names)
    && g.inodes == f.inodes
  }

  lemma StaysLasting(hash: RequestHash, f: Store, g: Store, q: Request)
    requires Lasting(hash, f, q) && Stays(f, g)
    ensures Lasting(hash, g, q)
  {
    hide ClaimBytes, ReceiptBytes;
  }

  lemma StepStays(hash: RequestHash, s: Sys, h: nat, c: Choice)
    requires h in s.helpers && Claim in s.store.names && s.store.parent && s.store.dir
    requires var pc := s.helpers[h].pc; !Owning(pc) && !BeforeLink(pc)
    ensures Stays(s.store, Step(hash, s, h, c).store)
  {
    hide PublishStep, ReadBackStep, ClaimStep, Stays;
    Unmoved(s.store);
    LateStays(hash, s, h, c);
    ReadStays(hash, s, h);
    PathStays(hash, s, h, c);
  }

  lemma Unmoved(f: Store)
    requires f.parent && f.dir
    ensures Stays(f, f)
  {
  }

  lemma LateStays(hash: RequestHash, s: Sys, h: nat, c: Choice)
    requires h in s.helpers && s.store.parent && s.store.dir && !BeforeLink(s.helpers[h].pc)
    ensures Stays(s.store, PublishStep(hash, s, h, c).store)
  {
    hide Readable, ReceiptBytes, ClaimBytes, DataOf, Create, WriteTo, SyncFile, SyncEntries, Stays;
    var p, f := s.helpers[h], s.store;
    Unmoved(f);
    RemovedOrSynced(f, if p.pc.RemoveTemp? || p.pc.CleanTemp? then p.pc.nonce else 0);
  }

  lemma RemovedOrSynced(f: Store, nonce: nat)
    requires f.parent && f.dir
    ensures Stays(f, f.(names := f.names - {Temp(nonce)})) && Stays(f, SyncEntries(f))
  {
  }

  lemma ReadStays(hash: RequestHash, s: Sys, h: nat)
    requires h in s.helpers && s.store.parent && s.store.dir
    ensures Stays(s.store, ReadBackStep(hash, s, h).store)
  {
    hide Readable, ReceiptBytes, ClaimBytes, ReceiptDecodes, DataOf;
  }

  lemma PathStays(hash: RequestHash, s: Sys, h: nat, c: Choice)
    requires h in s.helpers && Claim in s.store.names && s.store.parent && s.store.dir && !Owning(s.helpers[h].pc)
    ensures Stays(s.store, ClaimStep(hash, s, h, c).store)
  {
    hide ClaimBytes, Create, WriteTo, SyncFile, SyncEntries, Stays;
    Unmoved(s.store);
    Marked(s.store);
  }

  lemma Marked(f: Store)
    requires f.parent && f.dir
    ensures Stays(f, f.(parent := true)) && Stays(f, f.(parentSynced := f.parent))
    ensures Stays(f, f.(dir := true)) && Stays(f, f.(dirSynced := f.dir))
  {
  }

  lemma NoEarlyHelper(hash: RequestHash, s: Sys, h: nat, q: Request)
    requires Inv(hash, s) && Lasting(hash, s.store, q) && h in s.helpers
    ensures s.runs != [] && !Owning(s.helpers[h].pc) && !BeforeLink(s.helpers[h].pc)
  {
    hide ClaimBytes, ReceiptBytes;
    assert HelperOk(hash, s, s.helpers[h]);
  }

  lemma SurvivesLasting(hash: RequestHash, f: Store, g: Store, q: Request)
    requires Lasting(hash, f, q) && Survives(f, g)
    ensures Lasting(hash, g, q)
  {
    hide ClaimBytes, ReceiptBytes;
  }

  lemma LastingKeeps(hash: RequestHash, s: Sys, t: Sys, q: Request)
    requires Inv(hash, s) && Lasting(hash, s.store, q) && DurableStep(hash, s, t)
    ensures Lasting(hash, t.store, q)
  {
    hide ClaimBytes, ReceiptBytes, Step, HelpersOk, Stays, Survives;
    if PowerLoss(s, t) && (s.runs != [] ==> DirDurable(s.store)) {
      assert s.runs != [];
      if Survives(s.store, t.store) { SurvivesLasting(hash, s.store, t.store, q); }
    } else if h: nat, c :| h in s.helpers && t == Step(hash, s, h, c) {
      NoEarlyHelper(hash, s, h, q);
      StepStays(hash, s, h, c);
      StaysLasting(hash, s.store, t.store, q);
    }
  }

  /** Once a publishing helper has answered, its claim and receipt are whole in every later state of the run. */
  lemma {:induction false} PublishedLasts(hash: RequestHash, tr: seq<Sys>, i: nat, h: nat, c: Choice, j: nat)
    requires DurableRun(hash, tr) && i < j < |tr| && h in tr[i].helpers && tr[i].helpers[h].pc == SyncReceiptEntry
    requires tr[i + 1] == Step(hash, tr[i], h, c) && !c.fail
    ensures Lasting(hash, tr[j].store, tr[i].helpers[h].q)
    decreases j
  {
    hide Lasting, Step, DurableStep;
    DurableRunHeld(hash, tr, j - 1);
    hide Inv, Held;
    if j == i + 1 {
      PublishingLasts(hash, tr[i], h, c);
    } else {
      PublishedLasts(hash, tr, i, h, c, j - 1);
      assert DurableStep(hash, tr[j - 1], tr[j - 1 + 1]);
      LastingKeeps(hash, tr[j - 1], tr[j], tr[i].helpers[h].q);
    }
  }

  lemma LastingAnswers(hash: RequestHash, s: Sys, g: nat, q: Request)
    requires Lasting(hash, s.store, q) && g in s.helpers && s.helpers[g].pc == OpenParent
    ensures var t := R.Drive(hash, s, g, 7);
      && t.store == s.store && t.runs == s.runs
      && (t.helpers[g].pc == Succeeded <==> hash(s.helpers[g].q) == hash(q) && s.helpers[g].q.meta == q.meta)
  {
    hide R.Drive, ClaimBytes, ReceiptBytes;
    assert R.Settled(hash, s.store, q);
    R.Replays(hash, s, g, q);
  }

  /** From then on every undisturbed helper runs nothing and is answered with success, exactly for such a request. */
  lemma AnsweredAgain(hash: RequestHash, tr: seq<Sys>, i: nat, h: nat, c: Choice, j: nat, g: nat)
    requires DurableRun(hash, tr) && i < j < |tr| && h in tr[i].helpers && tr[i].helpers[h].pc == SyncReceiptEntry
    requires tr[i + 1] == Step(hash, tr[i], h, c) && !c.fail
    requires g in tr[j].helpers && tr[j].helpers[g].pc == OpenParent
    ensures var s := tr[j]; var t := R.Drive(hash, s, g, 7); var done := tr[i].helpers[h].q;
      && t.store == s.store && t.runs == s.runs
      && (t.helpers[g].pc == Succeeded <==> hash(s.helpers[g].q) == hash(done) && s.helpers[g].q.meta == done.meta)
  {
    hide R.Drive, Lasting, Step, DurableRun;
    PublishedLasts(hash, tr, i, h, c, j);
    LastingAnswers(hash, tr[j], g, tr[i].helpers[h].q);
  }

  // ---- answers that can be forgotten ----

  /** Some continuation loses the receipt. */
  ghost predicate CanForget(hash: RequestHash, s: Sys) {
    exists t: Sys, n: nat :: Reaches(hash, s, t, n) && Receipt !in t.store.names
  }

  predicate Anchored(s: Sys) {
    Receipt in s.store.names && Receipt in s.store.durable && s.store.names[Receipt] == s.store.durable[Receipt]
  }

  lemma StepAnchored(hash: RequestHash, s: Sys, h: nat, c: Choice)
    requires h in s.helpers && Anchored(s)
    ensures Anchored(Step(hash, s, h, c))
  {
    hide PublishStep, ReadBackStep, ClaimStep;
    PublishAnchored(hash, s, h, c);
    ReadAnchored(hash, s, h);
    ClaimAnchored(hash, s, h, c);
  }

  /** The receipt keeps its file, and a directory sync takes the names as they are. */
  predicate KeepsReceipt(f: Store, g: Store) {
    && (Receipt in f.names ==> Receipt in g.names && g.names[Receipt] == f.names[Receipt])
    && (g.durable == f.durable || g.durable == g.names)
  }

  lemma FilesKeepReceipt(f: Store, name: Name, ino: nat, data: bytes, n: nat)
    ensures name != Receipt ==> KeepsReceipt(f, Create(f, name)) && KeepsReceipt(f, f.(names := f.names - {name}))
    ensures KeepsReceipt(f, WriteTo(f, ino, data, n)) && KeepsReceipt(f, SyncFile(f, ino)) && KeepsReceipt(f, SyncEntries(f))
    ensures KeepsReceipt(f, f)
  {
  }

  lemma PublishAnchored(hash: RequestHash, s: Sys, h: nat, c: Choice)
    requires h in s.helpers && Anchored(s)
    ensures Anchored(PublishStep(hash, s, h, c))
  {
    hide Readable, ReceiptBytes, ClaimBytes, DataOf, KeepsReceipt, Create, WriteTo, SyncFile, SyncEntries, Anchored;
    var p, f, t := s.helpers[h], s.store, PublishStep(hash, s, h, c);
    assert Receipt in f.names by { AnchoredNow(s); }
    FilesKeepReceipt(f, Temp(c.nonce), 0, [], 0);
    if p.pc.WriteTemp? || p.pc.SyncTemp? { FilesKeepReceipt(f, Temp(0), p.pc.ino, ReceiptBytes(hash, p.q), c.amount); }
    if p.pc.RemoveTemp? || p.pc.CleanTemp? { FilesKeepReceipt(f, Temp(p.pc.nonce), 0, [], 0); }
    KeptAnchored(s, t);
  }

  lemma AnchoredNow(s: Sys)
    requires Anchored(s)
    ensures Receipt in s.store.names
  {
  }

  lemma KeptAnchored(s: Sys, t: Sys)
    requires Anchored(s) && KeepsReceipt(s.store, t.store)
    ensures Anchored(t)
  {
  }

  lemma ReadAnchored(hash: RequestHash, s: Sys, h: nat)
    requires h in s.helpers && Anchored(s)
    ensures Anchored(ReadBackStep(hash, s, h))
  {
    hide Readable, ReceiptBytes, ClaimBytes, ReceiptDecodes, DataOf;
  }

  lemma ClaimAnchored(hash: RequestHash, s: Sys, h: nat, c: Choice)
    requires h in s.helpers && Anchored(s)
    ensures Anchored(ClaimStep(hash, s, h, c))
  {
    hide ClaimBytes, KeepsReceipt, Create, WriteTo, SyncFile, SyncEntries, Anchored;
    var p, f := s.helpers[h], s.store;
    PathKeepsReceipt(f);
    var ino := if p.pc.WriteClaim? || p.pc.SyncClaim? then p.pc.ino else 0;
    FilesKeepReceipt(f, Claim, ino, ClaimBytes(hash, p.q), c.amount);
    assert KeepsReceipt(f, ClaimStep(hash, s, h, c).store);
    hide ClaimStep;
    KeptAnchored(s, ClaimStep(hash, s, h, c));
  }

  lemma PathKeepsReceipt(f: Store)
    ensures KeepsReceipt(f, f.(parent := true)) && KeepsReceipt(f, f.(parentSynced := f.parent))
    ensures KeepsReceipt(f, f.(dir := true)) && KeepsReceipt(f, f.(dirSynced := f.dir))
  {
  }

  lemma NextAnchored(hash: RequestHash, s: Sys, t: Sys)
    requires Safe(hash, s) && Anchored(s) && Next(hash, s, t)
    ensures Anchored(t)
  {
    SafePath(hash, s);
    hide Step, Safe;
    if h: nat, c :| h in s.helpers && t == Step(hash, s, h, c) { StepAnchored(hash, s, h, c); }
  }

  lemma {:induction false} StaysAnchored(hash: RequestHash, s: Sys, t: Sys, n: nat)
    requires Safe(hash, s) && Anchored(s) && Reaches(hash, s, t, n)
    ensures Anchored(t)
    decreases n
  {
    hide Next, Safe, Anchored;
    if n > 0 {
      var m :| Next(hash, s, m) && Reaches(hash, m, t, n - 1);
      StaysSafe(hash, s, m);
      NextAnchored(hash, s, m);
      StaysAnchored(hash, m, t, n - 1);
    }
  }

  lemma SafePath(hash: RequestHash, s: Sys)
    requires Safe(hash, s)
    ensures s.store.parent && s.store.dir && DirDurable(s.store)
  {
  }

  /** What power loss leaves if only the synced entries survive. */
  function Rebooted(s: Sys): Sys {
    s.(store := Store(true, true, true, true, s.store.durable, s.store.durable, s.store.inodes, s.store.next),
       helpers := AllStopped(s.helpers))
  }

  lemma Reboots(hash: RequestHash, s: Sys)
    requires Safe(hash, s)
    ensures Reaches(hash, s, Rebooted(s), 1) && PowerLoss(s, Rebooted(s))
  {
    SafePath(hash, s);
    hide Inv;
    assert Survives(s.store, Rebooted(s).store);
    One(hash, s, Rebooted(s));
  }

  /**
   After an answer of success under durable directories, its receipt can be lost exactly if the entry of the receipt
   has not been synced yet. Then the next undisturbed helper for the request finds the claim alone.
   */
  lemma ForgetExactly(hash: RequestHash, tr: seq<Sys>, h: nat)
    requires DurableRun(hash, tr)
    requires var s := tr[|tr| - 1]; h in s.helpers && s.helpers[h].pc == Succeeded && DirDurable(s.store)
    ensures var s := tr[|tr| - 1]; CanForget(hash, s) <==> Receipt !in s.store.durable
    ensures var s := tr[|tr| - 1]; Receipt !in s.store.durable ==>
      forall g: nat, q :: g !in s.helpers && hash(q) == hash(s.helpers[h].q) ==>
        R.Drive(hash, Spawned(Rebooted(s), g, q), g, 7).helpers[g].pc == Indeterminate
  {
    var s := tr[|tr| - 1];
    DurableRunHeld(hash, tr, |tr| - 1);
    AnswerSound(hash, tr, |tr| - 1, h);
    assert Safe(hash, s);
    assert ClaimWhole(hash, s.store, s.success.value) && ClaimDurable(s.store);
    assert Receipt in s.store.durable ==> Anchored(s);
    hide Inv, Held, Reaches, R.Drive, DurableRun;
    if Receipt in s.store.durable {
      forall t: Sys, n: nat | Reaches(hash, s, t, n) ensures Receipt in t.store.names {
        StaysAnchored(hash, s, t, n);
      }
    } else {
      Reboots(hash, s);
      forall g: nat, q | g !in s.helpers && hash(q) == hash(s.helpers[h].q)
        ensures R.Drive(hash, Spawned(Rebooted(s), g, q), g, 7).helpers[g].pc == Indeterminate
      {
        FindsClaimAlone(hash, s, g, q);
      }
    }
  }

  function Spawned(s: Sys, g: nat, q: Request): (t: Sys)
    ensures g in t.helpers
  {
    s.(helpers := s.helpers[g := Helper(q, OpenParent)])
  }

  lemma FindsClaimAlone(hash: RequestHash, s: Sys, g: nat, q: Request)
    requires s.success.Some? && ClaimWhole(hash, s.store, s.success.value) && ClaimDurable(s.store)
    requires Receipt !in s.store.durable && hash(q) == hash(s.success.value)
    ensures R.Drive(hash, Spawned(Rebooted(s), g, q), g, 7).helpers[g].pc == Indeterminate
  {
    hide R.Drive;
    var b := Spawned(Rebooted(s), g, q);
    assert b.store.names == s.store.durable && OneLink(b.store, Claim);
    R.ClaimWithoutReceipt(hash, b, g, s.success.value);
  }

  // ---- such an answer is given ----

  lemma RunSnoc(hash: RequestHash, tr: seq<Sys>, t: Sys)
    requires DurableRun(hash, tr) && DurableStep(hash, tr[|tr| - 1], t)
    ensures DurableRun(hash, tr + [t])
  {
    hide DurableStep;
    var longer := tr + [t];
    forall i | 0 <= i < |longer| - 1 ensures DurableStep(hash, longer[i], longer[i + 1]) {
      if i < |tr| - 1 { assert longer[i] == tr[i] && longer[i + 1] == tr[i + 1]; }
    }
  }

  /** Undisturbed calls make a run, and durable directories stay durable. */
  lemma {:induction false} DriveRun(hash: RequestHash, tr: seq<Sys>, h: nat, n: nat) returns (longer: seq<Sys>)
    requires DurableRun(hash, tr) && h in tr[|tr| - 1].helpers
    ensures DurableRun(hash, longer) && longer[|longer| - 1] == R.Drive(hash, tr[|tr| - 1], h, n)
    ensures DirDurable(tr[|tr| - 1].store) ==> DirDurable(longer[|longer| - 1].store)
    decreases n
  {
    if n == 0 { return tr; }
    var s := tr[|tr| - 1];
    DurableRunKeeps(hash, tr, |tr| - 1);
    SafeFacts(hash, s);
    var c := R.Smooth(hash, s.helpers[h].q);
    if DirDurable(s.store) { StepStaysDurable(hash, s, h, c); }
    R.StepStays(hash, s, h, c);
    hide Step, Inv, R.Smooth;
    var m := Step(hash, s, h, c);
    assert Acts(hash, s, m);
    RunSnoc(hash, tr, m);
    longer := DriveRun(hash, tr + [m], h, n - 1);
  }

  lemma SpawnRun(hash: RequestHash, tr: seq<Sys>, g: nat, q: Request)
    requires DurableRun(hash, tr) && g !in tr[|tr| - 1].helpers
    ensures DurableRun(hash, tr + [Spawned(tr[|tr| - 1], g, q)])
  {
    assert Acts(hash, tr[|tr| - 1], Spawned(tr[|tr| - 1], g, q));
    RunSnoc(hash, tr, Spawned(tr[|tr| - 1], g, q));
  }

  /** The first helper up to its claim, and then up to the link of its receipt. */
  lemma BeforeTheLink(hash: RequestHash, s: Sys, h: nat) returns (t: Sys)
    requires h in s.helpers && s.helpers[h].pc == LookClaim && s.store.parent && s.store.dir && s.store.names == map[]
    ensures t == R.Drive(hash, s, h, 14) && h in t.helpers && t.store.parent && t.store.dir
    ensures t.helpers[h] == Helper(s.helpers[h].q, LinkTemp(0, s.store.next + 1))
    ensures t.store.names == map[Claim := s.store.next, Temp(0) := s.store.next + 1]
    ensures DataOf(t.store, s.store.next) == ClaimBytes(hash, s.helpers[h].q)
    ensures DataOf(t.store, s.store.next + 1) == ReceiptBytes(hash, s.helpers[h].q)
  {
    hide R.Drive, ClaimBytes, ReceiptBytes, Step, DataOf, R.StagedStore;
    var a := R.Claims(hash, s, h, 8);
    var b := R.Runs(hash, a, h, 3, s.store.next);
    t := R.Stages(hash, b, h, 0);
    R.StagedFacts(hash, b.store, s.helpers[h].q);
    R.DriveNothing(hash, t, h);
  }

  /** From the link to the last call but one: the receipt is there, and its entry is not synced. */
  lemma LinkedUnsynced(hash: RequestHash, s: Sys, h: nat, ino: nat) returns (t: Sys)
    requires h in s.helpers && s.helpers[h].pc == LinkTemp(0, ino + 1) && s.store.parent && s.store.dir
    requires s.store.names == map[Claim := ino, Temp(0) := ino + 1]
    requires DataOf(s.store, ino) == ClaimBytes(hash, s.helpers[h].q)
    requires DataOf(s.store, ino + 1) == ReceiptBytes(hash, s.helpers[h].q)
    ensures t == R.Drive(hash, s, h, 2) && R.Settled(hash, t.store, s.helpers[h].q) && t.store.durable == s.store.durable
  {
    hide R.Drive, ClaimBytes, ReceiptBytes, Step, DataOf, R.Settled;
    var f := s.store;
    var linked := f.(names := f.names[Receipt := ino + 1]);
    var a := R.Hop(hash, s, h, 1, linked, RemoveTemp(0));
    var removed := linked.(names := linked.names - {Temp(0)});
    t := R.Hop(hash, a, h, 0, removed, SyncReceiptEntry);
    R.DriveNothing(hash, t, h);
    R.LinkedNames(f.names, ino + 1);
    R.SameData(f, t.store, ino);
    R.SameData(f, t.store, ino + 1);
    R.SettledNow(hash, t.store, s.helpers[h].q, ino);
  }

  lemma BothDirectories(hash: RequestHash, q: Request) returns (t: Sys)
    ensures 0 in t.helpers && t == R.Drive(hash, Spawned(EMPTY, 0, q), 0, 6)
    ensures t.helpers[0] == Helper(q, LookClaim) && t.store.names == map[] && t.store.parent && t.store.dir && DirDurable(t.store)
  {
    hide R.Drive;
    var s := Spawned(EMPTY, 0, q);
    var a := R.OpensUpper(hash, s, 0, 3);
    t := R.OpensSession(hash, a, 0, 0);
    R.DriveNothing(hash, t, 0);
  }

  /** A run that ends with the first helper's receipt in place but unsynced, under durable directories. */
  lemma UnsyncedReceipt(hash: RequestHash, q: Request) returns (tr: seq<Sys>)
    ensures DurableRun(hash, tr)
    ensures var s := tr[|tr| - 1]; R.Settled(hash, s.store, q) && Receipt !in s.store.durable && DirDurable(s.store)
  {
    hide R.Drive, R.Settled, ClaimBytes, ReceiptBytes, DataOf, Inv, DurableStep;
    assert DurableRun(hash, [EMPTY]);
    SpawnRun(hash, [EMPTY], 0, q);
    hide DurableRun;
    var a := BothDirectories(hash, q);
    var tra := DriveRun(hash, [EMPTY] + [Spawned(EMPTY, 0, q)], 0, 6);
    var b := BeforeTheLink(hash, a, 0);
    var trb := DriveRun(hash, tra, 0, 14);
    DurableRunKeeps(hash, trb, |trb| - 1);
    HelperAt(hash, b, 0);
    var c := LinkedUnsynced(hash, b, 0, a.store.next);
    tr := DriveRun(hash, trb, 0, 2);
  }

  /** A second helper can be answered with success from a receipt that power loss can still take. */
  lemma EarlyAnswer(hash: RequestHash, q: Request) returns (tr: seq<Sys>, h: nat)
    ensures DurableRun(hash, tr)
    ensures var s := tr[|tr| - 1];
      && h in s.helpers && s.helpers[h] == Helper(q, Succeeded) && DirDurable(s.store)
      && Receipt !in s.store.durable && CanForget(hash, s)
  {
    var first := UnsyncedReceipt(hash, q);
    var s := first[|first| - 1];
    h := Unused(s.helpers.Keys);
    SpawnRun(hash, first, h, q);
    hide R.Drive, R.Settled, ClaimBytes, ReceiptBytes, DataOf, Inv, DurableStep, DurableRun, CanForget;
    tr := DriveRun(hash, first + [Spawned(s, h, q)], h, 7);
    R.Replays(hash, Spawned(s, h, q), h, q);
    ForgetExactly(hash, tr, h);
  }
}
