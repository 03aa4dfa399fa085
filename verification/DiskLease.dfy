/**
 Managed disk leases under concurrency. Each disk's file and lock move between
 the lease, the lifetime of a started backend, and release; set operations
 interleave between any two disks, and any check may fail.
 */
module DiskLease {

  const MAX_DISKS: nat := 4

  /** present: the lease still holds the file and the lock. claimed: they were transferred. */
  datatype Disk = Disk(present: bool, claimed: bool)

  /** The lifetime made by one take; taker is the operation that made it. */
  datatype Lifetime = Lifetime(taker: nat, open: bool)

  /** One operation. Rollback(disks, n, k) has still to close the lifetimes of disks[k..n]. */
  datatype Operation =
    | Idle
    | Validate(disks: seq<nat>, k: nat)
    | Take(disks: seq<nat>, k: nat)
    | Rollback(disks: seq<nat>, n: nat, k: nat)
    | Refused(disks: seq<nat>)
    | Took(disks: seq<nat>)
    | Sweep(disks: seq<nat>, k: nat)
    | Swept(disks: seq<nat>)

  datatype State = State(disks: seq<Disk>, lifetimes: map<nat, Lifetime>, released: seq<nat>, ops: seq<Operation>)

  predicate DistinctDisks(disks: seq<nat>) {
    forall i, j :: 0 <= i < j < |disks| ==> disks[i] != disks[j]
  }

  predicate ValidSet(s: State, disks: seq<nat>) {
    && 0 < |disks| <= MAX_DISKS && DistinctDisks(disks)
    && forall i :: 0 <= i < |disks| ==> disks[i] < |s.disks|
  }

  predicate Init(s: State) {
    && s.lifetimes == map[] && |s.released| == |s.disks|
    && (forall d :: 0 <= d < |s.disks| ==> s.disks[d] == Disk(true, false) && s.released[d] == 0)
    && (forall i :: 0 <= i < |s.ops| ==> s.ops[i].Idle?)
  }

  predicate Available(s: State, d: nat)
    requires d < |s.disks|
  {
    s.disks[d].present && !s.disks[d].claimed
  }

  // ---- effects on one disk, each under that disk's mutex ----

  function To(s: State, i: nat, op: Operation): State
    requires i < |s.ops|
  {
    s.(ops := s.ops[i := op])
  }

  /** TakeForStart on one disk: the file and the lock move to a new lifetime. */
  function Transfer(s: State, i: nat, d: nat): State
    requires d < |s.disks|
  {
    s.(disks := s.disks[d := Disk(false, true)], lifetimes := s.lifetimes[d := Lifetime(i, true)])
  }

  /** Close on one lease: nothing if transferred or already closed. */
  function CloseLease(s: State, d: nat): State
    requires d < |s.disks| && d < |s.released|
  {
    if Available(s, d) then s.(disks := s.disks[d := Disk(false, false)], released := s.released[d := s.released[d] + 1]) else s
  }

  /** Close on a lifetime releases once. */
  function CloseLifetime(s: State, d: nat): State
    requires d < |s.released|
  {
    if d in s.lifetimes && s.lifetimes[d].open
    then s.(lifetimes := s.lifetimes[d := s.lifetimes[d].(open := false)], released := s.released[d := s.released[d] + 1])
    else s
  }

  // ---- steps ----

  ghost predicate Step(s: State, i: nat, t: State)
    requires i < |s.ops| && |s.released| == |s.disks|
  {
    match s.ops[i]
    case Idle =>
      || (exists disks :: ValidSet(s, disks) && (t == To(s, i, Validate(disks, 0)) || t == To(s, i, Sweep(disks, 0))))
      || (exists d :: 0 <= d < |s.disks| && t == CloseLease(s, d))
    case Validate(disks, k) =>
      || t == To(s, i, Refused(disks))
      || (k < |disks| && disks[k] < |s.disks| && Available(s, disks[k]) && t == To(s, i, Validate(disks, k + 1)))
      || (k == |disks| && t == To(s, i, Take(disks, 0)))
    case Take(disks, k) =>
      || (k < |disks| && t == To(s, i, Rollback(disks, k, 0)))
      || (k < |disks| && disks[k] < |s.disks| && Available(s, disks[k]) &&
          t == To(Transfer(s, i, disks[k]), i, Take(disks, k + 1)))
      || (k == |disks| && t == To(s, i, Took(disks)))
    case Rollback(disks, n, k) =>
      || (k < n && k < |disks| && disks[k] < |s.disks| && t == To(CloseLifetime(s, disks[k]), i, Rollback(disks, n, k + 1)))
      || (k == n && t == To(s, i, Refused(disks)))
    case Took(disks) =>
      exists k :: 0 <= k < |disks| && disks[k] < |s.disks| && t == CloseLifetime(s, disks[k])
    case Sweep(disks, k) =>
      || (k < |disks| && disks[k] < |s.disks| && t == To(CloseLease(s, disks[k]), i, Sweep(disks, k + 1)))
      || (k == |disks| && t == To(s, i, Swept(disks)))
    case Refused(_) => t == To(s, i, Idle)
    case Swept(_) => t == To(s, i, Idle)
  }

  ghost predicate Next(s: State, t: State) {
    |s.released| == |s.disks| && exists i :: 0 <= i < |s.ops| && Step(s, i, t)
  }

  ghost predicate Run(run: seq<State>) {
    run != [] && Init(run[0]) && forall i :: 0 <= i < |run| - 1 ==> Next(run[i], run[i + 1])
  }

  // ---- what every reachable state satisfies ----

  function Count(b: bool): nat {
    if b then 1 else 0
  }

  predicate OpenLifetime(s: State, d: nat) {
    d in s.lifetimes && s.lifetimes[d].open
  }

  /** The file and lock of d have exactly one owner, or were released exactly once. */
  predicate Balanced(s: State, d: nat)
    requires d < |s.disks| && |s.released| == |s.disks|
  {
    && Count(s.disks[d].present) + Count(OpenLifetime(s, d)) + s.released[d] == 1
    && (s.disks[d].claimed <==> d in s.lifetimes)
    && (s.disks[d].claimed ==> !s.disks[d].present)
  }

  /** op is responsible for the lifetime of d. */
  predicate Holds(op: Operation, d: nat) {
    match op
    case Take(disks, k) => k <= |disks| && d in disks[..k]
    case Rollback(disks, n, k) => k <= n <= |disks| && d in disks[k..n]
    case Took(disks) => d in disks
    case _ => false
  }

  predicate Responsible(s: State, d: nat) {
    OpenLifetime(s, d) ==> s.lifetimes[d].taker < |s.ops| && Holds(s.ops[s.lifetimes[d].taker], d)
  }

  predicate TakenBy(s: State, i: nat, disks: seq<nat>) {
    forall x :: 0 <= x < |disks| ==> disks[x] in s.lifetimes && s.lifetimes[disks[x]].taker == i
  }

  predicate Gone(s: State, disks: seq<nat>) {
    forall x :: 0 <= x < |disks| && disks[x] < |s.disks| ==> !s.disks[disks[x]].present
  }

  predicate OpOk(s: State, i: nat)
    requires i < |s.ops|
  {
    match s.ops[i]
    case Idle => true
    case Validate(disks, k) => ValidSet(s, disks) && k <= |disks|
    case Take(disks, k) => ValidSet(s, disks) && k <= |disks| && TakenBy(s, i, disks[..k])
    case Rollback(disks, n, k) => ValidSet(s, disks) && k <= n <= |disks| && TakenBy(s, i, disks[..n])
    case Refused(disks) => ValidSet(s, disks)
    case Took(disks) => ValidSet(s, disks) && TakenBy(s, i, disks)
    case Sweep(disks, k) => ValidSet(s, disks) && k <= |disks| && Gone(s, disks[..k])
    case Swept(disks) => ValidSet(s, disks) && Gone(s, disks)
  }

  ghost predicate Inv(s: State) {
    && |s.released| == |s.disks|
    && (forall d :: 0 <= d < |s.disks| ==> Balanced(s, d))
    && (forall d :: d in s.lifetimes ==> d < |s.disks| && Responsible(s, d))
    && (forall i :: 0 <= i < |s.ops| ==> OpOk(s, i))
  }

  // ---- changes to one disk ----

  /** t differs from s at most in disk d, whose ownership only moves forward, and in operation i. */
  ghost predicate Moves(s: State, i: nat, d: nat, t: State) {
    && |t.disks| == |s.disks| == |s.released| == |t.released| && |t.ops| == |s.ops| && i < |s.ops|
    && (forall e :: 0 <= e < |s.disks| && e != d ==> t.disks[e] == s.disks[e] && t.released[e] == s.released[e])
    && (forall e :: e != d ==> (e in t.lifetimes <==> e in s.lifetimes))
    && (forall e :: e != d && e in s.lifetimes ==> t.lifetimes[e] == s.lifetimes[e])
    && (d in s.lifetimes ==> d in t.lifetimes && t.lifetimes[d].taker == s.lifetimes[d].taker)
    && (d < |s.disks| ==> (t.disks[d].present ==> s.disks[d].present))
    && (forall j :: 0 <= j < |s.ops| && j != i ==> t.ops[j] == s.ops[j])
  }

  lemma OthersKeep(s: State, i: nat, d: nat, t: State, j: nat)
    requires Inv(s) && Moves(s, i, d, t) && j < |s.ops| && j != i
    ensures OpOk(t, j)
  {
    assert OpOk(s, j);
  }

  /** An operation that keeps hold of all it held leaves every open lifetime with someone responsible. */
  lemma MoveKeeps(s: State, i: nat, d: nat, t: State)
    requires Inv(s) && Moves(s, i, d, t) && OpOk(t, i)
    requires d < |t.disks| ==> Balanced(t, d)
    requires d in t.lifetimes ==> d < |t.disks| && Responsible(t, d)
    requires forall e :: e != d && Holds(s.ops[i], e) ==> Holds(t.ops[i], e)
    ensures Inv(t)
  {
    hide Holds, OpOk;
    forall j | 0 <= j < |t.ops| ensures OpOk(t, j) {
      if j != i { OthersKeep(s, i, d, t, j); }
    }
    forall e | 0 <= e < |t.disks| ensures Balanced(t, e) {
      if e != d { assert Balanced(s, e); }
    }
    forall e | e in t.lifetimes ensures e < |t.disks| && Responsible(t, e) {
      if e != d { assert e in s.lifetimes && Responsible(s, e); }
    }
  }

  lemma TakeKeeps(s: State, i: nat, t: State)
    requires Inv(s) && i < |s.ops| && s.ops[i].Take? && s.ops[i].k < |s.ops[i].disks|
    requires var d := s.ops[i].disks[s.ops[i].k];
             d < |s.disks| && Available(s, d) && t == To(Transfer(s, i, d), i, Take(s.ops[i].disks, s.ops[i].k + 1))
    ensures Inv(t)
  {
    var disks, k := s.ops[i].disks, s.ops[i].k;
    var d := disks[k];
    assert OpOk(s, i) && Balanced(s, d);
    assert disks[..k + 1] == disks[..k] + [d];
    assert disks[..k + 1][k] == d;
    MoveKeeps(s, i, d, t);
  }

  lemma RollbackKeeps(s: State, i: nat, t: State)
    requires Inv(s) && i < |s.ops| && s.ops[i].Rollback? && s.ops[i].k < s.ops[i].n && s.ops[i].k < |s.ops[i].disks|
    requires var d := s.ops[i].disks[s.ops[i].k];
             d < |s.disks| && t == To(CloseLifetime(s, d), i, Rollback(s.ops[i].disks, s.ops[i].n, s.ops[i].k + 1))
    ensures Inv(t)
  {
    var disks, n, k := s.ops[i].disks, s.ops[i].n, s.ops[i].k;
    var d := disks[k];
    assert OpOk(s, i) && Balanced(s, d);
    assert disks[k..n] == [d] + disks[k + 1..n];
    MoveKeeps(s, i, d, t);
  }

  lemma SweepKeeps(s: State, i: nat, t: State)
    requires Inv(s) && i < |s.ops| && s.ops[i].Sweep? && s.ops[i].k < |s.ops[i].disks|
    requires var d := s.ops[i].disks[s.ops[i].k];
             d < |s.disks| && t == To(CloseLease(s, d), i, Sweep(s.ops[i].disks, s.ops[i].k + 1))
    ensures Inv(t)
  {
    var disks, k := s.ops[i].disks, s.ops[i].k;
    var d := disks[k];
    assert OpOk(s, i) && Balanced(s, d);
    assert disks[..k + 1] == disks[..k] + [d];
    if d in s.lifetimes { assert Responsible(s, d); }
    MoveKeeps(s, i, d, t);
  }

  lemma CloseLeaseKeeps(s: State, i: nat, d: nat)
    requires Inv(s) && i < |s.ops| && d < |s.disks|
    ensures Inv(CloseLease(s, d))
  {
    assert OpOk(s, i) && Balanced(s, d);
    if d in s.lifetimes { assert Responsible(s, d); }
    var t := CloseLease(s, d);
    assert Moves(s, i, d, t);
    SelfKeep(s, i, d, t);
    MoveKeeps(s, i, d, t);
  }

  lemma CloseLifetimeKeeps(s: State, i: nat, d: nat)
    requires Inv(s) && i < |s.ops| && d < |s.disks|
    ensures Inv(CloseLifetime(s, d))
  {
    assert OpOk(s, i) && Balanced(s, d);
    var t := CloseLifetime(s, d);
    if d in s.lifetimes { assert Responsible(s, d); }
    assert Moves(s, i, d, t);
    SelfKeep(s, i, d, t);
    MoveKeeps(s, i, d, t);
  }

  lemma SelfKeep(s: State, i: nat, d: nat, t: State)
    requires Moves(s, i, d, t) && t.ops == s.ops && OpOk(s, i)
    ensures OpOk(t, i)
  {
  }

  /** Steps that only move an operation along. */
  lemma OnlyOpKeeps(s: State, i: nat, op: Operation)
    requires Inv(s) && i < |s.ops| && OpOk(To(s, i, op), i)
    requires forall e :: Holds(s.ops[i], e) && OpenLifetime(s, e) ==> Holds(op, e)
    ensures Inv(To(s, i, op))
  {
    hide Holds, OpOk;
    var t := To(s, i, op);
    forall j | 0 <= j < |t.ops| ensures OpOk(t, j) {
      if j != i {
        assert Moves(s, i, |s.disks|, t);
        OthersKeep(s, i, |s.disks|, t, j);
      }
    }
    forall e | 0 <= e < |t.disks| ensures Balanced(t, e) { assert Balanced(s, e); }
    forall e | e in t.lifetimes ensures e < |t.disks| && Responsible(t, e) { assert Responsible(s, e); }
  }

  lemma StepKeeps(s: State, i: nat, t: State)
    requires Inv(s) && i < |s.ops| && Step(s, i, t)
    ensures Inv(t)
  {
    hide Inv, Balanced, Responsible;
    assert OpOk(s, i) && |s.released| == |s.disks| by { InvAt(s, i); }
    match s.ops[i]
    case Idle =>
      if d :| 0 <= d < |s.disks| && t == CloseLease(s, d) {
        CloseLeaseKeeps(s, i, d);
      } else {
        OnlyOpKeeps(s, i, t.ops[i]);
      }
    case Validate(disks, k) =>
      OnlyOpKeeps(s, i, t.ops[i]);
    case Take(disks, k) =>
      if k < |disks| && t == To(s, i, Rollback(disks, k, 0)) {
        assert disks[0..k] == disks[..k];
        OnlyOpKeeps(s, i, t.ops[i]);
      } else if k == |disks| {
        assert disks[..k] == disks;
        OnlyOpKeeps(s, i, t.ops[i]);
      } else {
        TakeKeeps(s, i, t);
      }
    case Rollback(disks, n, k) =>
      if k == n {
        OnlyOpKeeps(s, i, t.ops[i]);
      } else {
        RollbackKeeps(s, i, t);
      }
    case Took(disks) =>
      var k :| 0 <= k < |disks| && disks[k] < |s.disks| && t == CloseLifetime(s, disks[k]);
      CloseLifetimeKeeps(s, i, disks[k]);
    case Sweep(disks, k) =>
      if k == |disks| {
        assert disks[..k] == disks;
        OnlyOpKeeps(s, i, t.ops[i]);
      } else {
        SweepKeeps(s, i, t);
      }
    case Refused(_) => OnlyOpKeeps(s, i, t.ops[i]);
    case Swept(_) => OnlyOpKeeps(s, i, t.ops[i]);
  }

  lemma InvAt(s: State, i: nat)
    requires Inv(s) && i < |s.ops|
    ensures OpOk(s, i) && |s.released| == |s.disks|
  {
  }

  lemma {:induction false} RunKeeps(run: seq<State>, k: nat)
    requires Run(run) && k < |run|
    ensures Inv(run[k])
  {
    hide Inv, Step;
    if k == 0 {
      InitOk(run[0]);
    } else {
      RunKeeps(run, k - 1);
      assert Next(run[k - 1], run[k]);
      var i :| 0 <= i < |run[k - 1].ops| && Step(run[k - 1], i, run[k]);
      StepKeeps(run[k - 1], i, run[k]);
    }
  }

  lemma InitOk(s: State)
    requires Init(s)
    ensures Inv(s)
  {
  }

  // ---- main results ----

  /** In every interleaving each file and lock has one owner or was released exactly once. */
  lemma Conservation(run: seq<State>, k: nat, d: nat)
    requires Run(run) && k < |run| && d < |run[k].disks|
    ensures |run[k].released| == |run[k].disks|
    ensures run[k].released[d] <= 1
    ensures run[k].released[d] == 1 <==> !run[k].disks[d].present && !OpenLifetime(run[k], d)
    ensures !(run[k].disks[d].present && OpenLifetime(run[k], d))
  {
    RunKeeps(run, k);
    assert Balanced(run[k], d);
  }

  /** Two takes that both succeed share no disk. */
  lemma AtMostOneTake(run: seq<State>, k: nat, i: nat, j: nat, d: nat)
    requires Run(run) && k < |run| && i < |run[k].ops| && j < |run[k].ops|
    requires run[k].ops[i].Took? && run[k].ops[j].Took? && d in run[k].ops[i].disks && d in run[k].ops[j].disks
    ensures i == j
  {
    RunKeeps(run, k);
    assert OpOk(run[k], i) && OpOk(run[k], j);
  }

  /** After CloseUnclaimed every disk of the set is released, or in the hands of an operation that took it. */
  lemma NoLeak(run: seq<State>, k: nat, i: nat, d: nat)
    requires Run(run) && k < |run| && i < |run[k].ops| && run[k].ops[i].Swept? && d in run[k].ops[i].disks
    ensures d < |run[k].disks| && |run[k].released| == |run[k].disks|
    ensures run[k].released[d] == 1 || exists j :: 0 <= j < |run[k].ops| && j != i && Holds(run[k].ops[j], d)
  {
    RunKeeps(run, k);
    var s := run[k];
    assert OpOk(s, i);
    var x :| 0 <= x < |s.ops[i].disks| && s.ops[i].disks[x] == d;
    assert Balanced(s, d);
    if s.released[d] != 1 {
      assert OpenLifetime(s, d) && Responsible(s, d);
      var j := s.lifetimes[d].taker;
      assert Holds(s.ops[j], d);
    }
  }

  /** A successful take has one to four distinct disks, all of them transferred to its own lifetimes. */
  lemma TakenSet(run: seq<State>, k: nat, i: nat)
    requires Run(run) && k < |run| && i < |run[k].ops| && run[k].ops[i].Took?
    ensures var disks := run[k].ops[i].disks;
      && 1 <= |disks| <= 4 && DistinctDisks(disks)
      && forall x :: 0 <= x < |disks| ==>
           && disks[x] < |run[k].disks| && run[k].disks[disks[x]] == Disk(false, true)
           && disks[x] in run[k].lifetimes && run[k].lifetimes[disks[x]].taker == i
  {
    RunKeeps(run, k);
    assert OpOk(run[k], i);
    forall x | 0 <= x < |run[k].ops[i].disks| ensures run[k].disks[run[k].ops[i].disks[x]] == Disk(false, true) {
      assert Balanced(run[k], run[k].ops[i].disks[x]);
    }
  }

  // ---- an undisturbed take ----

  lemma RunSnoc(run: seq<State>, i: nat, t: State)
    requires Run(run) && i < |run[|run| - 1].ops| && |run[|run| - 1].released| == |run[|run| - 1].disks|
    requires Step(run[|run| - 1], i, t)
    ensures Run(run + [t])
  {
    hide Init, Step;
    var longer := run + [t];
    forall k | 0 <= k < |longer| - 1 ensures Next(longer[k], longer[k + 1]) {
      if k < |run| - 1 { assert longer[k] == run[k] && longer[k + 1] == run[k + 1]; }
    }
  }

  /** The state in which operation i has taken the first k disks of its set, and nothing else has happened. */
  predicate TookFirst(start: State, s: State, i: nat, disks: seq<nat>, k: nat) {
    && |s.disks| == |start.disks| && s.released == start.released && |s.ops| == |start.ops| && k <= |disks| && i < |s.ops|
    && (forall j :: 0 <= j < |s.ops| && j != i ==> s.ops[j] == start.ops[j])
    && (forall x :: 0 <= x < k && disks[x] < |s.disks| ==>
          s.disks[disks[x]] == Disk(false, true) && disks[x] in s.lifetimes && s.lifetimes[disks[x]] == Lifetime(i, true))
    && (forall d :: 0 <= d < |s.disks| && d !in disks[..k] ==> s.disks[d] == start.disks[d])
  }

  lemma {:induction false} ValidatesAll(run: seq<State>, i: nat, disks: seq<nat>, k: nat) returns (longer: seq<State>)
    requires Run(run) && k <= |disks| && i < |run[|run| - 1].ops|
    requires var s := run[|run| - 1];
      && |s.released| == |s.disks| && s.ops[i] == Validate(disks, k)
      && forall x :: 0 <= x < |disks| ==> disks[x] < |s.disks| && Available(s, disks[x])
    ensures Run(longer) && longer[0] == run[0] && longer[|longer| - 1] == To(run[|run| - 1], i, Take(disks, 0))
    decreases |disks| - k
  {
    var s := run[|run| - 1];
    var t := To(s, i, if k < |disks| then Validate(disks, k + 1) else Take(disks, 0));
    assert Step(s, i, t);
    RunSnoc(run, i, t);
    longer := run + [t];
    if k < |disks| {
      hide Run, Step;
      longer := ValidatesAll(run + [t], i, disks, k + 1);
    }
  }

  lemma {:induction false} TakesRest(run: seq<State>, i: nat, disks: seq<nat>, k: nat) returns (longer: seq<State>)
    requires Run(run) && Init(run[0]) && ValidSet(run[0], disks) && k <= |disks|
    requires TookFirst(run[0], run[|run| - 1], i, disks, k) && run[|run| - 1].ops[i] == Take(disks, k)
    ensures Run(longer) && longer[0] == run[0] && i < |longer[|longer| - 1].ops|
    ensures TookFirst(run[0], longer[|longer| - 1], i, disks, |disks|) && longer[|longer| - 1].ops[i] == Took(disks)
    decreases |disks| - k
  {
    var s := run[|run| - 1];
    if k == |disks| {
      var t := To(s, i, Took(disks));
      assert Step(s, i, t);
      RunSnoc(run, i, t);
      longer := run + [t];
    } else {
      assert disks[k] !in disks[..k];
      assert Available(s, disks[k]);
      var t := To(Transfer(s, i, disks[k]), i, Take(disks, k + 1));
      assert Step(s, i, t);
      RunSnoc(run, i, t);
      assert disks[..k + 1] == disks[..k] + [disks[k]];
      assert TookFirst(run[0], t, i, disks, k + 1);
      hide Run, Init, Step, TookFirst, ValidSet;
      longer := TakesRest(run + [t], i, disks, k + 1);
    }
  }

  /** From every start an operation can take any set of one to four distinct disks, and no other disk changes. */
  lemma UndisturbedTake(start: State, i: nat, disks: seq<nat>) returns (run: seq<State>)
    requires Init(start) && i < |start.ops| && 1 <= |disks| <= 4 && DistinctDisks(disks)
    requires forall x :: 0 <= x < |disks| ==> disks[x] < |start.disks|
    ensures Run(run) && run[0] == start && i < |run[|run| - 1].ops| && run[|run| - 1].ops[i] == Took(disks)
    ensures TookFirst(start, run[|run| - 1], i, disks, |disks|)
  {
    assert ValidSet(start, disks);
    var s1 := To(start, i, Validate(disks, 0));
    assert Step(start, i, s1);
    assert Run([start]);
    RunSnoc([start], i, s1);
    assert [start] + [s1] == [start, s1];
    var ready := ValidatesAll([start, s1], i, disks, 0);
    run := TakesRest(ready, i, disks, 0);
  }
}
