/** Durable directories are exactly what at-most-once execution needs under power loss. */
module ActionDurability {
  import opened Bytes
  import opened ActionStore
  import opened ActionSafety

  ghost predicate Reaches(hash: RequestHash, s: Sys, t: Sys, n: nat)
    decreases n
  {
    if n == 0 then s == t else exists m :: Next(hash, s, m) && Reaches(hash, m, t, n - 1)
  }

  lemma {:induction false} ReachesThen(hash: RequestHash, s: Sys, m: Sys, t: Sys, a: nat, b: nat)
    requires Reaches(hash, s, m, a) && Reaches(hash, m, t, b)
    ensures Reaches(hash, s, t, a + b)
    decreases a
  {
    hide Next;
    if a > 0 {
      var k :| Next(hash, s, k) && Reaches(hash, k, m, a - 1);
      ReachesThen(hash, k, m, t, a - 1, b);
    }
  }

  const SMOOTH: Choice := Choice(false, 32, true, 0)

  lemma One(hash: RequestHash, s: Sys, t: Sys)
    requires Next(hash, s, t)
    ensures Reaches(hash, s, t, 1)
  {
    hide Next;
    assert Reaches(hash, t, t, 0);
  }

  /** One smooth call of h, and then what its result reaches. */
  lemma Call(hash: RequestHash, s: Sys, h: nat, m: Sys)
    requires h in s.helpers && m == Step(hash, s, h, SMOOTH)
    ensures Reaches(hash, s, m, 1)
  {
    hide Step;
    assert Next(hash, s, m);
    One(hash, s, m);
  }

  predicate SamePath(f: Store, g: Store) {
    g.parent == f.parent && g.parentSynced == f.parentSynced && g.dir == f.dir && g.dirSynced == f.dirSynced
  }

  /** Helper h is about to write its fresh claim, and nothing has been run since s. */
  predicate Claimed(s: Sys, t: Sys, h: nat, q: Request) {
    && h in t.helpers && t.helpers[h].q == q && t.helpers[h].pc.WriteClaim?
    && t.runs == s.runs && SamePath(s.store, t.store)
  }

  lemma ClaimsAlone(hash: RequestHash, s: Sys, h: nat) returns (t: Sys)
    requires h in s.helpers && s.helpers[h].pc == LookClaim && s.store.dir && s.store.names == map[]
    ensures Reaches(hash, s, t, 3) && Claimed(s, t, h, s.helpers[h].q)
  {
    hide Reaches;
    var s1 := At(s, h, LookReceipt);
    Call(hash, s, h, s1);
    var s2 := At(s1, h, CreateClaim);
    Call(hash, s1, h, s2);
    t := At(s2.(store := Create(s2.store, Claim)), h, WriteClaim(s2.store.next));
    Call(hash, s2, h, t);
    ReachesThen(hash, s, s1, s2, 1, 1);
    ReachesThen(hash, s, s2, t, 2, 1);
  }

  lemma WritesAndRunsAlone(hash: RequestHash, s: Sys, h: nat) returns (t: Sys)
    requires h in s.helpers && s.helpers[h].pc.WriteClaim?
    ensures Reaches(hash, s, t, 4)
    ensures t.runs == s.runs + [s.helpers[h].q] && SamePath(s.store, t.store)
  {
    hide Reaches;
    var q, ino := s.helpers[h].q, s.helpers[h].pc.ino;
    var s1 := At(s.(store := WriteTo(s.store, ino, ClaimBytes(hash, q), 32)), h, SyncClaim(ino));
    Call(hash, s, h, s1);
    var s2 := At(s1.(store := SyncFile(s1.store, ino)), h, SyncClaimEntry);
    Call(hash, s1, h, s2);
    ReachesThen(hash, s, s1, s2, 1, 1);
    t := EntryAndRun(hash, s2, h);
    ReachesThen(hash, s, s2, t, 2, 2);
  }

  lemma EntryAndRun(hash: RequestHash, s: Sys, h: nat) returns (t: Sys)
    requires h in s.helpers && s.helpers[h].pc.SyncClaimEntry?
    ensures Reaches(hash, s, t, 2)
    ensures t.runs == s.runs + [s.helpers[h].q] && SamePath(s.store, t.store)
  {
    var q := s.helpers[h].q;
    var s1 := At(s.(store := SyncEntries(s.store)), h, RunCommand);
    Call(hash, s, h, s1);
    t := At(s1.(runs := s1.runs + [q], success := Some(q)), h, PublishOpen);
    Call(hash, s1, h, t);
    ReachesThen(hash, s, s1, t, 1, 1);
  }

  /** A helper alone in an empty store goes on to start its command. */
  lemma RunsAlone(hash: RequestHash, s: Sys, h: nat) returns (t: Sys)
    requires h in s.helpers && s.helpers[h].pc == LookClaim && s.store.dir && s.store.names == map[]
    ensures Reaches(hash, s, t, 7)
    ensures t.runs == s.runs + [s.helpers[h].q] && SamePath(s.store, t.store)
  {
    hide Reaches;
    var m := ClaimsAlone(hash, s, h);
    t := WritesAndRunsAlone(hash, m, h);
    ReachesThen(hash, s, m, t, 3, 4);
  }

  /** The session directory is made and synced; the state of its parent stays as it is. */
  lemma OpensSession(hash: RequestHash, s: Sys, h: nat) returns (t: Sys)
    requires h in s.helpers && s.helpers[h].pc == OpenStore && s.store.parent && !s.store.dir
    ensures Reaches(hash, s, t, 3)
    ensures h in t.helpers && t.helpers[h] == Helper(s.helpers[h].q, LookClaim) && t.runs == s.runs
    ensures t.store == s.store.(dir := true, dirSynced := true)
  {
    hide Reaches;
    var s1 := At(s, h, MakeStore);
    Call(hash, s, h, s1);
    var s2 := At(s1.(store := s1.store.(dir := true)), h, SyncStoreParent);
    Call(hash, s1, h, s2);
    t := At(s2.(store := s2.store.(dirSynced := true)), h, LookClaim);
    Call(hash, s2, h, t);
    ReachesThen(hash, s, s1, s2, 1, 1);
    ReachesThen(hash, s, s2, t, 2, 1);
  }

  lemma OpensParent(hash: RequestHash, s: Sys, h: nat) returns (t: Sys, n: nat)
    requires h in s.helpers && s.helpers[h].pc == OpenParent
    ensures Reaches(hash, s, t, n)
    ensures h in t.helpers && t.helpers[h] == Helper(s.helpers[h].q, OpenStore) && t.runs == s.runs
    ensures t.store.parent && t.store.dir == s.store.dir && t.store.names == s.store.names
  {
    hide Reaches;
    if s.store.parent {
      t, n := At(s, h, OpenStore), 1;
      Call(hash, s, h, t);
    } else {
      t := MakesParent(hash, s, h);
      n := 3;
    }
  }

  lemma MakesParent(hash: RequestHash, s: Sys, h: nat) returns (t: Sys)
    requires h in s.helpers && s.helpers[h].pc == OpenParent && !s.store.parent
    ensures Reaches(hash, s, t, 3)
    ensures h in t.helpers && t.helpers[h] == Helper(s.helpers[h].q, OpenStore) && t.runs == s.runs
    ensures t.store == s.store.(parent := true, parentSynced := true)
  {
    hide Reaches;
    var s1 := At(s, h, MakeParent);
    Call(hash, s, h, s1);
    var s2 := At(s1.(store := s1.store.(parent := true)), h, SyncBase);
    Call(hash, s1, h, s2);
    t := At(s2.(store := s2.store.(parentSynced := true)), h, OpenStore);
    Call(hash, s2, h, t);
    ReachesThen(hash, s, s1, s2, 1, 1);
    ReachesThen(hash, s, s2, t, 2, 1);
  }

  lemma Spawns(hash: RequestHash, s: Sys, h: nat, q: Request)
    requires h !in s.helpers
    ensures Reaches(hash, s, s.(helpers := s.helpers[h := Helper(q, OpenParent)]), 1)
  {
    One(hash, s, s.(helpers := s.helpers[h := Helper(q, OpenParent)]));
  }

  /** What a power loss may leave when one of the two directory entries was never synced. */
  function WithoutStore(s: Sys): Sys {
    var kept := s.store.parent && s.store.parentSynced;
    s.(store := Store(kept, kept, false, false, map[], map[], s.store.inodes, s.store.next), helpers := AllStopped(s.helpers))
  }

  lemma Loses(hash: RequestHash, s: Sys)
    requires !DirDurable(s.store) && (s.store.parentSynced ==> s.store.parent)
    ensures Reaches(hash, s, WithoutStore(s), 1)
  {
    assert PowerLoss(s, WithoutStore(s));
    One(hash, s, WithoutStore(s));
  }

  lemma {:induction false} Unused(names: set<nat>) returns (h: nat)
    ensures forall n :: n in names ==> n < h
    decreases names
  {
    if names == {} {
      h := 0;
    } else {
      var n :| n in names;
      h := Unused(names - {n});
      if h <= n { h := n + 1; }
      assert forall m :: m in names ==> m == n || m in names - {n};
    }
  }

  /**
   Once a command has started while an entry on its path is not synced, a power loss can let any request run as well.
   */
  lemma LostDirectoryRunsAgain(hash: RequestHash, s: Sys, q: Request) returns (t: Sys, n: nat)
    requires !DirDurable(s.store) && (s.store.parentSynced ==> s.store.parent)
    ensures Reaches(hash, s, t, n) && t.runs == s.runs + [q]
  {
    hide Reaches;
    var h := Unused(s.helpers.Keys);
    var s0 := WithoutStore(s);
    Loses(hash, s);
    var s1 := s0.(helpers := s0.helpers[h := Helper(q, OpenParent)]);
    Spawns(hash, s0, h, q);
    var s2, m := OpensParent(hash, s1, h);
    var s3 := OpensSession(hash, s2, h);
    t := RunsAlone(hash, s3, h);
    n := 2 + m + 3 + 7;
    ReachesThen(hash, s, s0, s1, 1, 1);
    ReachesThen(hash, s, s1, s2, 2, m);
    ReachesThen(hash, s, s2, s3, 2 + m, 3);
    ReachesThen(hash, s, s3, t, 2 + m + 3, 7);
  }

  /** A first helper has made the upper directory but not yet synced the base. */
  lemma HalfCreated(hash: RequestHash, q: Request) returns (t: Sys)
    ensures Reaches(hash, EMPTY, t, 3)
    ensures t.store == EMPTY.store.(parent := true) && t.helpers.Keys == {0} && t.runs == []
  {
    hide Reaches;
    var s1 := EMPTY.(helpers := EMPTY.helpers[0 := Helper(q, OpenParent)]);
    Spawns(hash, EMPTY, 0, q);
    var s2 := At(s1, 0, MakeParent);
    Call(hash, s1, 0, s2);
    t := At(s2.(store := s2.store.(parent := true)), 0, SyncBase);
    Call(hash, s2, 0, t);
    ReachesThen(hash, EMPTY, s1, s2, 1, 1);
    ReachesThen(hash, EMPTY, s2, t, 2, 1);
  }

  /**
   Such a state is reachable even by a helper that syncs the parent of the directory it made: it found the
   upper directory before its maker had synced the base.
   */
  lemma UnsyncedDirectoryReachable(hash: RequestHash, q: Request) returns (t: Sys)
    ensures Reaches(hash, EMPTY, t, 15) && t.runs == [q]
    ensures t.store.parent && t.store.dir && t.store.dirSynced && !t.store.parentSynced
  {
    hide Reaches;
    var s3 := HalfCreated(hash, q);
    var s4 := s3.(helpers := s3.helpers[1 := Helper(q, OpenParent)]);
    Spawns(hash, s3, 1, q);
    var s5 := At(s4, 1, OpenStore);
    Call(hash, s4, 1, s5);
    var s8 := OpensSession(hash, s5, 1);
    t := RunsAlone(hash, s8, 1);
    ReachesThen(hash, EMPTY, s3, s4, 3, 1);
    ReachesThen(hash, EMPTY, s4, s5, 4, 1);
    ReachesThen(hash, EMPTY, s5, s8, 5, 3);
    ReachesThen(hash, EMPTY, s8, t, 8, 7);
  }

  // ---- durability is exactly what is needed ----

  /** The invariant, with a command started under durable directories. */
  predicate Safe(hash: RequestHash, s: Sys) {
    Inv(hash, s) && s.runs != [] && DirDurable(s.store)
  }

  lemma StepStaysDurable(hash: RequestHash, s: Sys, h: nat, c: Choice)
    requires h in s.helpers && DirDurable(s.store) && PathOk(s.store)
    ensures var t := Step(hash, s, h, c); DirDurable(t.store) && (s.runs != [] ==> t.runs != [])
  {
    hide Readable, ReceiptBytes, ClaimBytes, ReceiptDecodes, DataOf;
  }

  lemma StaysSafe(hash: RequestHash, s: Sys, t: Sys)
    requires Safe(hash, s) && Next(hash, s, t)
    ensures Safe(hash, t)
  {
    hide Step, HelpersOk, RunsOk, ReceiptOk, AllStopped;
    assert PathOk(s.store);
    NextKeeps(hash, s, t);
    if h: nat, c :| h in s.helpers && t == Step(hash, s, h, c) {
      StepStaysDurable(hash, s, h, c);
    }
  }

  lemma {:induction false} ReachesSafe(hash: RequestHash, s: Sys, t: Sys, n: nat)
    requires Safe(hash, s) && Reaches(hash, s, t, n)
    ensures Safe(hash, t)
    decreases n
  {
    hide Next, Inv;
    if n > 0 {
      var m :| Next(hash, s, m) && Reaches(hash, m, t, n - 1);
      StaysSafe(hash, s, m);
      ReachesSafe(hash, m, t, n - 1);
    }
  }

  ghost predicate CanRunTwice(hash: RequestHash, s: Sys) {
    exists t: Sys, n: nat :: Reaches(hash, s, t, n) && |t.runs| > 1
  }

  lemma SafeFacts(hash: RequestHash, s: Sys)
    requires Inv(hash, s)
    ensures |s.runs| <= 1 && PathOk(s.store)
  {
  }

  /**
   After a command has started, some continuation starts another exactly if a directory on its path is not yet durable.
   */
  lemma DurableExactly(hash: RequestHash, tr: seq<Sys>)
    requires DurableRun(hash, tr) && tr[|tr| - 1].runs != []
    ensures CanRunTwice(hash, tr[|tr| - 1]) <==> !DirDurable(tr[|tr| - 1].store)
  {
    hide Inv, DurableStep, Reaches;
    var s := tr[|tr| - 1];
    DurableRunKeeps(hash, tr, |tr| - 1);
    SafeFacts(hash, s);
    if DirDurable(s.store) {
      forall t: Sys, n: nat | Reaches(hash, s, t, n) ensures |t.runs| <= 1 {
        ReachesSafe(hash, s, t, n);
        SafeFacts(hash, t);
      }
    } else {
      var t, n := LostDirectoryRunsAgain(hash, s, s.runs[0]);
    }
  }
}
