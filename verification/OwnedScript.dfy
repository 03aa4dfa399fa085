/**
 An owned child process: one thread polls for its exit and reaps it, any number
 of threads may ask for its process group to be killed, one mutex orders them,
 and a caller frees what the child may still be using only after a proven reap.
 */
module OwnedScript {

  /** The direct child as the kernel knows it. Once reaped, its number may belong to someone else. */
  datatype Kernel = Alive | Zombie | Reaped

  datatype Holder = Nobody | ReaperHolds | StopperHolds(i: nat)

  /** Polled(Got) and Polled(Failed) are between the wait call and the release of the mutex. */
  datatype Poll = Again | Got | Failed

  datatype Reaper = Outside | Locked | Polled(result: Poll) | Ended

  /** Cleared: the mutex is held and both flags were found unset. */
  datatype Stopper = Calm | Wants | Inside | Cleared | Answered

  /** The caller: Watching the done channel, its context and its output; Pressed: it has called stop and waits again. */
  datatype Caller = Watching | Pressed | Draining(unproven: bool) | Returned(unproven: bool)

  /** A call of the installer handle's Wait, which may give up and be made again. */
  datatype Waiter = Away | Blocked

  /**
   unproven: the wait error carries the unproven-reap mark. freed: the caller has let go of what the child used.
   closes counts how often a handle closed serial and ISO. strays counts signals sent after the reap.
   */
  datatype State = State(
    kernel: Kernel, holder: Holder, reaped: bool, lost: bool, done: bool, unproven: bool,
    reaper: Reaper, stoppers: seq<Stopper>, caller: Caller, freed: bool, waiters: seq<Waiter>, closes: nat, strays: nat)

  predicate Init(s: State) {
    && s.kernel.Alive? && s.holder.Nobody? && !s.reaped && !s.lost && !s.done && !s.unproven
    && s.reaper.Outside? && s.caller.Watching? && !s.freed && s.closes == 0 && s.strays == 0
    && (forall i :: 0 <= i < |s.waiters| ==> s.waiters[i].Away?)
    && forall i :: 0 <= i < |s.stoppers| ==> s.stoppers[i].Calm?
  }

  predicate ChildStep(s: State, t: State) {
    s.kernel.Alive? && t == s.(kernel := Zombie)
  }

  predicate ReaperStep(s: State, t: State) {
    match s.reaper
    case Outside => s.holder.Nobody? && t == s.(reaper := Locked, holder := ReaperHolds)
    case Locked =>
      || t == s.(reaper := Polled(Again))
      || (s.kernel.Zombie? && t == s.(reaper := Polled(Got), kernel := Reaped))
      || t == s.(reaper := Polled(Failed))
    case Polled(Again) => t == s.(reaper := Outside, holder := Nobody)
    case Polled(Got) => t == s.(reaper := Ended, holder := Nobody, reaped := true, done := true)
    case Polled(Failed) => t == s.(reaper := Ended, holder := Nobody, lost := true, unproven := true, done := true)
    case Ended => false
  }

  function At(s: State, i: nat, pc: Stopper): State
    requires i < |s.stoppers|
  {
    s.(stoppers := s.stoppers[i := pc])
  }

  predicate StopperStep(s: State, i: nat, t: State)
    requires i < |s.stoppers|
  {
    match s.stoppers[i]
    case Calm => t == At(s, i, Wants)
    case Wants => s.holder.Nobody? && t == At(s, i, Inside).(holder := StopperHolds(i))
    case Inside =>
      if s.reaped || s.lost then t == At(s, i, Answered).(holder := Nobody) else t == At(s, i, Cleared)
    case Cleared =>
      // The group is signalled; the child may or may not die of it.
      exists dies :: dies in {true, false} &&
        t == Signalled(At(s, i, Answered).(holder := Nobody), dies)
    case Answered => t == At(s, i, Calm)
  }

  function Signalled(s: State, dies: bool): State {
    s.(strays := s.strays + if s.kernel.Reaped? then 1 else 0, kernel := if s.kernel.Alive? && dies then Zombie else s.kernel)
  }

  predicate CallerStep(s: State, t: State) {
    match s.caller
    case Watching =>
      || (s.done && t == s.(caller := Draining(s.unproven)))
      // Cancellation or an output failure: stop is called, then the wait is bounded.
      || t == s.(caller := Pressed)
    case Pressed =>
      || (s.done && t == s.(caller := Draining(s.unproven)))
      || t == s.(caller := Draining(true))
    case Draining(unproven) => t == s.(caller := Returned(unproven))
    case Returned(unproven) => !unproven && t == s.(freed := true)
  }

  /**
   The handle's Wait: on a proven end the first of all calls closes serial and ISO, any other outcome leaves them open.
   */
  predicate WaiterStep(s: State, i: nat, t: State)
    requires i < |s.waiters|
  {
    match s.waiters[i]
    case Away => t == s.(waiters := s.waiters[i := Blocked])
    case Blocked =>
      // The context ends first, or the end of the child is seen.
      || t == s.(waiters := s.waiters[i := Away])
      || (s.done && !s.unproven && t == s.(waiters := s.waiters[i := Away], closes := if s.closes == 0 then 1 else s.closes))
  }

  predicate Next(s: State, t: State) {
    || ChildStep(s, t) || ReaperStep(s, t) || CallerStep(s, t)
    || (exists i :: 0 <= i < |s.waiters| && WaiterStep(s, i, t))
    || exists i :: 0 <= i < |s.stoppers| && StopperStep(s, i, t)
  }

  predicate Run(run: seq<State>) {
    run != [] && Init(run[0]) && forall k :: 0 <= k < |run| - 1 ==> Next(run[k], run[k + 1])
  }

  // ---- what every reachable state satisfies ----

  /** Exactly the thread that is inside a critical section holds the mutex. */
  predicate Exclusive(s: State) {
    && (s.reaper.Locked? || s.reaper.Polled? <==> s.holder.ReaperHolds?)
    && (forall i :: 0 <= i < |s.stoppers| ==> (s.stoppers[i] in {Inside, Cleared} <==> s.holder == StopperHolds(i)))
    && (s.holder.StopperHolds? ==> s.holder.i < |s.stoppers|)
  }

  /** The flags tell the truth, except while the reaper holds the mutex. */
  predicate Truthful(s: State) {
    && (s.kernel.Reaped? <==> s.reaped || s.reaper == Polled(Got))
    && (s.done <==> s.reaper.Ended?)
    && (s.done <==> s.reaped || s.lost)
    && (s.lost <==> s.unproven)
    && !(s.reaped && s.lost)
    && (forall i :: 0 <= i < |s.stoppers| && s.stoppers[i].Cleared? ==> !s.reaped && !s.lost)
  }

  predicate Settled(s: State) {
    && (s.caller == Draining(false) || s.caller == Returned(false) ==> s.reaped)
    && (s.freed ==> s.reaped)
    && s.closes <= 1 && (s.closes > 0 ==> s.reaped)
    && s.strays == 0
  }

  predicate Inv(s: State) {
    Exclusive(s) && Truthful(s) && Settled(s)
  }

  lemma ReaperKeeps(s: State, t: State)
    requires Inv(s) && ReaperStep(s, t)
    ensures Inv(t)
  {
  }

  lemma StopperKeeps(s: State, i: nat, t: State)
    requires Inv(s) && i < |s.stoppers| && StopperStep(s, i, t)
    ensures Inv(t)
  {
  }

  lemma WaiterKeeps(s: State, i: nat, t: State)
    requires Inv(s) && i < |s.waiters| && WaiterStep(s, i, t)
    ensures Inv(t)
  {
  }

  lemma NextKeeps(s: State, t: State)
    requires Inv(s) && Next(s, t)
    ensures Inv(t)
  {
    hide ReaperStep, StopperStep, WaiterStep;
    if ReaperStep(s, t) {
      ReaperKeeps(s, t);
    } else if i :| 0 <= i < |s.waiters| && WaiterStep(s, i, t) {
      WaiterKeeps(s, i, t);
    } else if i :| 0 <= i < |s.stoppers| && StopperStep(s, i, t) {
      StopperKeeps(s, i, t);
    }
  }

  lemma {:induction false} RunKeeps(run: seq<State>, k: nat)
    requires Run(run) && k < |run|
    ensures Inv(run[k])
  {
    hide Next;
    if k > 0 {
      RunKeeps(run, k - 1);
      NextKeeps(run[k - 1], run[k]);
    }
  }

  // ---- main results ----

  /** Whenever some thread is about to signal, the direct child is unreaped, so its group number is still its own. */
  lemma SignalsOnlyUnreaped(run: seq<State>, k: nat, i: nat)
    requires Run(run) && k < |run| && i < |run[k].stoppers|
    ensures run[k].stoppers[i].Cleared? ==> !run[k].kernel.Reaped?
    ensures run[k].strays == 0
  {
    RunKeeps(run, k);
  }

  /** A return without the unproven mark, and so every release of what the child used, comes after the reap. */
  lemma FreedOnlyAfterReap(run: seq<State>, k: nat)
    requires Run(run) && k < |run|
    ensures run[k].caller == Returned(false) ==> run[k].kernel.Reaped?
    ensures run[k].freed ==> run[k].kernel.Reaped?
  {
    RunKeeps(run, k);
  }

  /** However often Wait is called and gives up, serial and ISO are closed at most once and only after the reap. */
  lemma HandleClosesAfterReap(run: seq<State>, k: nat)
    requires Run(run) && k < |run|
    ensures run[k].closes <= 1 && (run[k].closes == 1 ==> run[k].kernel.Reaped?)
  {
    RunKeeps(run, k);
  }

  // ---- undisturbed runs ----

  lemma RunSnoc(run: seq<State>, t: State)
    requires Run(run) && Next(run[|run| - 1], t)
    ensures Run(run + [t])
  {
    hide Next, Init;
    var longer := run + [t];
    forall k | 0 <= k < |longer| - 1 ensures Next(longer[k], longer[k + 1]) {
      if k < |run| - 1 { assert longer[k] == run[k] && longer[k + 1] == run[k + 1]; }
    }
  }

  /** Once the child has ended and nobody holds the mutex, the reaper gets it and says so. */
  lemma ReapEnded(run: seq<State>) returns (longer: seq<State>)
    requires run != [] && Run(run)
    requires var s := run[|run| - 1]; s.kernel.Zombie? && s.holder.Nobody? && s.reaper.Outside?
    ensures Run(longer) && |run| < |longer| && longer[..|run|] == run
    ensures longer[|longer| - 1] == run[|run| - 1].(kernel := Reaped, reaper := Ended, reaped := true, done := true)
  {
    hide Run, Init;
    var s := run[|run| - 1];
    var s1 := s.(reaper := Locked, holder := ReaperHolds);
    var s2 := s1.(reaper := Polled(Got), kernel := Reaped);
    var s3 := s2.(reaper := Ended, holder := Nobody, reaped := true, done := true);
    assert ReaperStep(s, s1) && ReaperStep(s1, s2) && ReaperStep(s2, s3);
    RunSnoc(run, s1);
    RunSnoc(run + [s1], s2);
    RunSnoc(run + [s1] + [s2], s3);
    longer := run + [s1] + [s2] + [s3];
  }

  /** A caller that sees a proven end returns without the mark and frees what the child used. */
  lemma ReleaseSeen(run: seq<State>) returns (longer: seq<State>)
    requires run != [] && Run(run)
    requires var s := run[|run| - 1]; s.done && !s.unproven && s.caller in {Watching, Pressed}
    ensures Run(longer) && |run| < |longer| && longer[..|run|] == run
    ensures longer[|longer| - 1] == run[|run| - 1].(caller := Returned(false), freed := true)
  {
    hide Run, Init;
    var s := run[|run| - 1];
    var s1 := s.(caller := Draining(false));
    var s2 := s1.(caller := Returned(false));
    var s3 := s2.(freed := true);
    assert CallerStep(s, s1) && CallerStep(s1, s2) && CallerStep(s2, s3);
    RunSnoc(run, s1);
    RunSnoc(run + [s1], s2);
    RunSnoc(run + [s1] + [s2], s3);
    longer := run + [s1] + [s2] + [s3];
  }

  /** From every start: a child that ends by itself is reaped, and the caller returns proven and frees. */
  lemma EndsByItself(start: State) returns (run: seq<State>)
    requires Init(start)
    ensures Run(run) && run[0] == start
    ensures var t := run[|run| - 1]; t.kernel.Reaped? && t.caller == Returned(false) && t.freed && t.strays == 0
  {
    var s1 := start.(kernel := Zombie);
    assert ChildStep(start, s1) && Run([start, s1]);
    hide Init, Run;
    var reaped := ReapEnded([start, s1]);
    run := ReleaseSeen(reaped);
    assert reaped[0] == start && run[0] == start;
  }

  /** From every start with a stopper: a cancelled caller's stop kills the child, which is reaped before the release. */
  lemma StoppedChild(start: State) returns (run: seq<State>)
    requires Init(start) && start.stoppers != []
    ensures Run(run) && run[0] == start
    ensures var t := run[|run| - 1];
      t.kernel.Reaped? && t.stoppers != [] && t.stoppers[0].Answered? && t.caller == Returned(false) && t.freed && t.strays == 0
  {
    var s1 := start.(caller := Pressed);
    var s2 := At(s1, 0, Wants);
    var s3 := At(s2, 0, Inside).(holder := StopperHolds(0));
    var s4 := At(s3, 0, Cleared);
    var s5 := Signalled(At(s4, 0, Answered).(holder := Nobody), true);
    assert CallerStep(start, s1) && StopperStep(s1, 0, s2) && StopperStep(s2, 0, s3) && StopperStep(s3, 0, s4);
    assert true in {true, false};
    assert StopperStep(s4, 0, s5);
    var first := [start, s1, s2, s3, s4, s5];
    assert Run(first);
    hide Init, Run;
    var reaped := ReapEnded(first);
    run := ReleaseSeen(reaped);
    assert reaped[0] == start && run[0] == start;
  }

  /** From every start with a waiter: its Wait sees the proven end and closes serial and ISO. */
  lemma WaitCloses(start: State) returns (run: seq<State>)
    requires Init(start) && start.waiters != []
    ensures Run(run) && run[0] == start && run[|run| - 1].kernel.Reaped? && run[|run| - 1].closes == 1
  {
    var s1 := start.(waiters := start.waiters[0 := Blocked]);
    var s2 := s1.(kernel := Zombie);
    assert WaiterStep(start, 0, s1) && ChildStep(s1, s2) && Run([start, s1, s2]);
    hide Init, Run;
    var reaped := ReapEnded([start, s1, s2]);
    var s := reaped[|reaped| - 1];
    var t := s.(waiters := s.waiters[0 := Away], closes := 1);
    assert WaiterStep(s, 0, t);
    RunSnoc(reaped, t);
    run := reaped + [t];
    assert reaped[0] == start && run[0] == start;
  }

  /** At most one thread is ever between taking and releasing the mutex. */
  lemma MutualExclusion(run: seq<State>, k: nat, i: nat, j: nat)
    requires Run(run) && k < |run| && i < |run[k].stoppers| && j < |run[k].stoppers|
    requires run[k].stoppers[i] in {Inside, Cleared} && run[k].stoppers[j] in {Inside, Cleared}
    ensures i == j && !run[k].reaper.Polled? && !run[k].reaper.Locked?
  {
    RunKeeps(run, k);
  }
}
