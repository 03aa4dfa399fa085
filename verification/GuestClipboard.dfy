/**
 The guest clipboard write: a parent that forks an owner child, a lease pipe
 that cancels claims not yet started, a receipt pipe, and the outcome that the
 bootstrapper finally reports. Signals, deadlines and deaths are steps.
 */
module GuestClipboard {
  import opened Bytes

  datatype Status = Ok(length: nat) | Error | Unknown

  datatype Receipt = OkReceipt | ErrorReceipt | UnknownReceipt

  /**
   The forked child. Checking is past initialization; Armed is past the lease and deadline test; Claimed owns the
   selection.
   */
  datatype Child = NotForked | Starting | Checking | Armed | Claimed | Owner | Gone

  /**
   The operation's process. Forking: the child exists but fork has not yet returned into the program.
   Cleanup: an exception was raised there, and the pipes are being closed.
   */
  datatype Parent =
    | Setup | Dispatched | Forking | Cleanup | AfterFork | Waiting
    | Closing(outcome: Status) | Writing(outcome: Status) | Finished(output: Option<Status>)

  /**
   leased: the write end of the lease pipe is still open in the parent. interrupted: an exception was raised at the
   return of fork.
   */
  datatype State = State(
    payload: bytes, value: bytes, parent: Parent, child: Child, leased: bool,
    receipt: Option<Receipt>, selection: Option<bytes>, expired: bool, interrupted: bool)

  predicate Init(s: State) {
    && s.parent == Setup && s.child == NotForked && !s.leased && s.receipt.None? && s.selection.None? && !s.interrupted
    && s.value == []
  }

  // ---- the parent ----

  predicate ParentStep(s: State, t: State) {
    match s.parent
    case Setup =>
      // Whatever part of the payload arrived before end of input is read and checked.
      || (exists n :: 0 <= n <= |s.payload| && t == s.(value := s.payload[..n], parent := Dispatched))
      || t == s.(parent := Writing(Error))
      || t == s.(parent := Finished(None))
    case Dispatched =>
      // The deadline has passed or fork fails; any other exception counts as after dispatch.
      || t == s.(parent := Writing(Error))
      || t == s.(parent := Writing(Unknown))
      || t == s.(parent := Forking, child := Starting, leased := true)
      || t == s.(parent := Finished(None))
    case Forking =>
      || t == s.(parent := AfterFork)
      || t == s.(parent := Cleanup, interrupted := true)
      || t == s.(parent := Finished(None), leased := false)
    case Cleanup =>
      || t == s.(parent := Writing(Error), leased := false)
      || t == s.(parent := Finished(None), leased := false)
    case AfterFork =>
      || t == s.(parent := Waiting)
      || t == s.(parent := Writing(Unknown))
      || t == s.(parent := Finished(None), leased := false)
    case Waiting =>
      || t == s.(parent := Closing(Judge(s)))
      || t == s.(parent := Closing(Unknown))
      || t == s.(parent := Finished(None), leased := false)
    case Closing(outcome) =>
      || t == s.(parent := Writing(outcome), leased := false)
      || t == s.(parent := Writing(Unknown))
      || t == s.(parent := Finished(None), leased := false)
    case Writing(outcome) =>
      || t == s.(parent := Finished(Some(outcome)), leased := false)
      || (outcome.Ok? && t == s.(parent := Writing(Unknown)))
      || t == s.(parent := Finished(None), leased := false)
    case Finished(_) => false
  }

  /** What the parent makes of the receipt pipe, which may still be empty. */
  function Judge(s: State): Status {
    if s.receipt == Some(OkReceipt) then Ok(|s.value|)
    else if s.receipt == Some(ErrorReceipt) then Error
    else Unknown
  }

  // ---- the child ----

  /** The child leaves r in the receipt pipe, unless writing fails, and goes on as next. */
  predicate Acknowledges(s: State, t: State, r: Receipt, next: Child) {
    t == s.(receipt := Some(r), child := next) || t == s.(child := next)
  }

  predicate ChildStep(s: State, t: State) {
    // The armed timer, or anything else, may end the child at any moment.
    || (s.child !in {NotForked, Gone} && t == s.(child := Gone))
    || match s.child
       case Starting => t == s.(child := Checking) || Acknowledges(s, t, ErrorReceipt, Gone)
       case Checking =>
         || (!s.expired && s.leased && t == s.(child := Armed))
         || Acknowledges(s, t, ErrorReceipt, Gone)
         || Acknowledges(s, t, UnknownReceipt, Gone)
       case Armed =>
         || t == s.(child := Claimed, selection := Some(s.value))
         || Acknowledges(s, t, ErrorReceipt, Gone)
         || Acknowledges(s, t, UnknownReceipt, Gone)
         || Acknowledges(s.(selection := Some(s.value)), t, UnknownReceipt, Gone)
       case Claimed =>
         || Acknowledges(s, t, OkReceipt, Owner)
         || Acknowledges(s, t, UnknownReceipt, Gone)
       case Owner => false
       case NotForked => false
       case Gone => false
  }

  predicate Expires(s: State, t: State) {
    t == s.(expired := true)
  }

  predicate Next(s: State, t: State) {
    ParentStep(s, t) || ChildStep(s, t) || Expires(s, t)
  }

  /** A finite run from its first state on. */
  predicate Run(run: seq<State>) {
    run != [] && forall i :: 0 <= i < |run| - 1 ==> Next(run[i], run[i + 1])
  }

  // ---- what every reachable state satisfies ----

  predicate Settled(s: State) {
    s.selection.None? && s.child in {NotForked, Gone}
  }

  /** The parent has reported, or is bound to report, this status. */
  predicate Bound(s: State, outcome: Status) {
    s.parent == Closing(outcome) || s.parent == Writing(outcome) || s.parent == Finished(Some(outcome))
  }

  /** Which processes exist in which phase of the parent, and who holds the lease. */
  predicate Phases(s: State) {
    && (s.parent in {Setup, Dispatched} ==> s.child.NotForked? && !s.leased)
    && (s.parent in {Forking, Cleanup, AfterFork, Waiting} ==> !s.child.NotForked?)
    && (s.child.NotForked? ==> !s.interrupted)
    && (s.parent.Cleanup? ==> s.interrupted)
    && (s.parent.Finished? ==> !s.leased)
    && (s.interrupted ==>
          s.parent.Cleanup? || (!s.leased && s.parent in {Writing(Error), Finished(Some(Error)), Finished(None)}))
  }

  /** What the child has done so far, and what its receipt says about it. */
  predicate Evidence(s: State) {
    && HasPrefix(s.payload, s.value)
    && (s.child in {NotForked, Starting, Checking, Armed} ==> s.receipt.None? && s.selection.None?)
    && (s.child.Claimed? ==> s.receipt.None?)
    && (s.child in {Claimed, Owner} ==> s.selection.Some?)
    && (s.selection.Some? ==> s.selection.value == s.value)
    && (s.receipt == Some(ErrorReceipt) ==> Settled(s))
    && (s.receipt == Some(OkReceipt) ==> s.selection.Some?)
  }

  ghost predicate Promises(s: State) {
    && (Bound(s, Error) && !s.interrupted ==> Settled(s))
    && (forall n :: Bound(s, Ok(n)) ==> n == |s.value| && s.selection.Some?)
  }

  ghost predicate Inv(s: State) {
    Phases(s) && Evidence(s) && Promises(s)
  }

  lemma ParentKeepsPhases(s: State, t: State)
    requires Phases(s) && ParentStep(s, t)
    ensures Phases(t)
  {
  }

  lemma ParentKeepsEvidence(s: State, t: State)
    requires Phases(s) && Evidence(s) && ParentStep(s, t)
    ensures Evidence(t) && t.payload == s.payload
  {
    if s.parent.Setup? { assert forall n | 0 <= n <= |s.payload| :: HasPrefix(s.payload, s.payload[..n]); }
  }

  lemma ParentKeepsPromises(s: State, t: State)
    requires Inv(s) && ParentStep(s, t)
    ensures Promises(t)
  {
  }

  lemma ChildKeepsPhases(s: State, t: State)
    requires Phases(s) && ChildStep(s, t)
    ensures Phases(t)
  {
  }

  lemma ChildKeepsEvidence(s: State, t: State)
    requires Evidence(s) && ChildStep(s, t)
    ensures Evidence(t) && t.payload == s.payload
  {
    hide HasPrefix;
  }

  lemma ChildKeepsPromises(s: State, t: State)
    requires Inv(s) && ChildStep(s, t)
    ensures Promises(t)
  {
  }

  lemma ExpiryKeeps(s: State, t: State)
    requires Inv(s) && Expires(s, t)
    ensures Inv(t) && t.payload == s.payload
  {
  }

  lemma NextKeeps(s: State, t: State)
    requires Inv(s) && Next(s, t)
    ensures Inv(t) && t.payload == s.payload
  {
    hide ParentStep, ChildStep, Phases, Evidence, Promises;
    if ParentStep(s, t) {
      ParentKeepsPhases(s, t);
      ParentKeepsEvidence(s, t);
      ParentKeepsPromises(s, t);
    } else if ChildStep(s, t) {
      ChildKeepsPhases(s, t);
      ChildKeepsEvidence(s, t);
      ChildKeepsPromises(s, t);
    } else {
      ExpiryKeeps(s, t);
    }
  }

  lemma InitOk(s: State)
    requires Init(s)
    ensures Inv(s)
  {
  }

  lemma {:induction false} RunKeeps(run: seq<State>, i: nat)
    requires Run(run) && Init(run[0]) && i < |run|
    ensures Inv(run[i]) && run[i].payload == run[0].payload
  {
    hide Next, Init, Inv;
    if i == 0 {
      InitOk(run[0]);
    } else {
      RunKeeps(run, i - 1);
      NextKeeps(run[i - 1], run[i]);
    }
  }

  // ---- soundness of the reported outcome ----

  /** The selection is claimed now or in some continuation. */
  ghost predicate CanClaim(s: State) {
    exists run: seq<State> :: Run(run) && run[0] == s && run[|run| - 1].selection.Some?
  }

  /** Past the last check before the native claim, or already past the claim. */
  predicate Committing(s: State) {
    s.child.Armed? || s.selection.Some?
  }

  /** The child runs without its lease and has not passed the lease test. */
  predicate Unleased(s: State) {
    && !s.leased && s.selection.None? && s.parent !in {Setup, Dispatched}
    && (s.child.Starting? || s.child.Checking? || s.child.Gone?)
  }

  lemma UnleasedParent(s: State, t: State)
    requires Unleased(s) && ParentStep(s, t)
    ensures Unleased(t)
  {
  }

  lemma UnleasedChild(s: State, t: State)
    requires Unleased(s) && ChildStep(s, t)
    ensures Unleased(t)
  {
  }

  /** Without its lease, a child that has not passed the lease test never claims. */
  lemma {:induction false} UnleasedNeverClaims(run: seq<State>, i: nat)
    requires Run(run) && i < |run| && Unleased(run[0])
    ensures Unleased(run[i])
  {
    hide ParentStep, ChildStep;
    if i > 0 {
      var s, t := run[i - 1], run[i];
      UnleasedNeverClaims(run, i - 1);
      assert Next(s, t);
      if ParentStep(s, t) {
        UnleasedParent(s, t);
      } else if ChildStep(s, t) {
        UnleasedChild(s, t);
      }
    }
  }

  lemma {:induction false} UnforkedNeverClaims(run: seq<State>, i: nat)
    requires Run(run) && i < |run|
    requires run[0].child.NotForked? && run[0].selection.None? && (run[0].parent.Writing? || run[0].parent.Finished?)
    ensures run[i].child.NotForked? && run[i].selection.None? && (run[i].parent.Writing? || run[i].parent.Finished?)
  {
    if i > 0 {
      UnforkedNeverClaims(run, i - 1);
      assert Next(run[i - 1], run[i]);
    }
  }

  /**
   When error is reported, the selection is still claimed, or can be, exactly if an
   exception was raised at the return of fork after the child had passed its last check.
   */
  lemma ErrorExactly(run: seq<State>)
    requires Run(run) && Init(run[0]) && run[|run| - 1].parent == Finished(Some(Error))
    ensures var s := run[|run| - 1];
      && (CanClaim(s) <==> Committing(s))
      && (Committing(s) ==> s.interrupted)
  {
    hide Init;
    var s := run[|run| - 1];
    RunKeeps(run, |run| - 1);
    if s.selection.Some? {
      assert Run([s]) && [s][0] == s;
    } else if s.child.Armed? {
      var t := s.(child := Claimed, selection := Some(s.value));
      assert ChildStep(s, t) && Next(s, t);
      var more := [s, t];
      assert Run(more) && more[0] == s;
    } else if CanClaim(s) {
      var more: seq<State> :| Run(more) && more[0] == s && more[|more| - 1].selection.Some?;
      if s.child.NotForked? {
        UnforkedNeverClaims(more, |more| - 1);
      } else {
        UnleasedNeverClaims(more, |more| - 1);
      }
    }
  }

  /** Unless fork's return is interrupted, a reported error means that the selection is never claimed. */
  lemma ErrorIsFinal(run: seq<State>, i: nat, j: nat)
    requires Run(run) && Init(run[0]) && i <= j < |run|
    requires run[i].parent == Finished(Some(Error)) && !run[i].interrupted
    ensures run[j].selection.None?
  {
    hide Next, Init, CanClaim, Committing;
    if run[j].selection.Some? {
      ContinuationClaims(run, i, j);
      ErrorExactly(run[..i + 1]);
    }
  }

  lemma ContinuationClaims(run: seq<State>, i: nat, j: nat)
    requires Run(run) && i <= j < |run| && run[j].selection.Some?
    ensures CanClaim(run[i])
  {
    hide Next;
    var rest := run[i..j + 1];
    assert Run(rest) && rest[0] == run[i] && rest[|rest| - 1] == run[j];
  }

  /** The window is real: here error is reported although the sent text has been claimed. */
  lemma ForkReturnInterrupted(payload: bytes) returns (run: seq<State>)
    ensures Run(run) && Init(run[0]) && run[0].payload == payload
    ensures run[|run| - 1].parent == Finished(Some(Error)) && run[|run| - 1].selection == Some(payload)
  {
    var s0 := State(payload, [], Setup, NotForked, false, None, None, false, false);
    var s1 := s0.(value := payload, parent := Dispatched);
    var s2 := s1.(parent := Forking, child := Starting, leased := true);
    var s3 := s2.(child := Checking);
    var s4 := s3.(child := Armed);
    var late := s4.(expired := true);
    var s5 := late.(parent := Cleanup, interrupted := true);
    var s6 := s5.(parent := Writing(Error), leased := false);
    var s7 := s6.(parent := Finished(Some(Error)));
    var s8 := s7.(child := Claimed, selection := Some(payload));
    assert payload[..|payload|] == payload;
    run := [s0, s1, s2, s3, s4, late, s5, s6, s7, s8];
    assert ParentStep(s0, s1) && ParentStep(s1, s2) && ChildStep(s2, s3) && ChildStep(s3, s4);
    assert Expires(s4, late) && ParentStep(late, s5) && ParentStep(s5, s6) && ParentStep(s6, s7) && ChildStep(s7, s8);
  }

  // ---- the bootstrapper ----

  /** Failed is a returned error: nothing was dispatched. */
  datatype Report = Failed | Reported(status: Status)

  /**
   What Bootstrapper.Clipboard returns for a write: admitted says whether the request was valid and bound,
   output is the desktop receipt if it decodes, and bound whether the binding still holds.
   */
  function Respond(admitted: bool, payload: bytes, output: Option<Status>, failed: bool, bound: bool): Report {
    if !admitted then Failed
    else if output == Some(Error) then Reported(Error)
    else if failed || output.None? || (output.value.Ok? && output.value.length != |payload|) || !bound then Reported(Unknown)
    else Reported(output.value)
  }

  /**
   Exactly when each answer is given: ok needs an undisturbed command whose receipt has the full length and a binding
   that still holds, an error receipt is passed on even so, and anything else is unknown.
   */
  lemma RespondExactly(admitted: bool, payload: bytes, output: Option<Status>, failed: bool, bound: bool)
    ensures var r := Respond(admitted, payload, output, failed, bound);
      && (r.Failed? <==> !admitted)
      && (r.Reported? && r.status.Ok? <==> admitted && !failed && bound && output == Some(Ok(|payload|)))
      && (r.Reported? && r.status.Error? <==> admitted && output == Some(Error))
      && (r.Reported? && r.status.Ok? ==> r.status.length == |payload|)
  {
  }

  /** The receipt the bootstrapper can read: none while the process has not finished by itself. */
  function OutputOf(s: State): Option<Status> {
    if s.parent.Finished? then s.parent.output else None
  }

  /**
   A reported ok means that exactly the sent bytes were claimed, although the helper may have read
   fewer; a reported error means they never will be, unless fork's return was interrupted.
   */
  lemma ReportSound(run: seq<State>, i: nat, j: nat, failed: bool, bound: bool)
    requires Run(run) && Init(run[0]) && i <= j < |run|
    ensures var r := Respond(true, run[0].payload, OutputOf(run[i]), failed, bound);
      && !r.Failed?
      && (r.status.Ok? ==> !failed && bound && run[j].selection == Some(run[0].payload))
      && (r.status.Error? && !run[i].interrupted ==> run[j].selection.None?)
  {
    RunKeeps(run, i);
    var r := Respond(true, run[0].payload, OutputOf(run[i]), failed, bound);
    if r.status.Ok? {
      var s := run[i];
      assert Bound(s, Ok(r.status.length));
      assert s.value == s.payload;
      SelectionStays(run, i, j);
    } else if r.status.Error? && !run[i].interrupted {
      ErrorIsFinal(run, i, j);
    }
  }

  lemma {:induction false} SelectionStays(run: seq<State>, i: nat, j: nat)
    requires Run(run) && Init(run[0]) && i <= j < |run| && run[i].selection.Some?
    ensures run[j].selection == run[i].selection
  {
    hide Next, Init, Inv;
    if i < j {
      SelectionStays(run, i, j - 1);
      RunKeeps(run, j - 1);
      assert Next(run[j - 1], run[j]);
      ClaimedOnce(run[j - 1], run[j]);
    }
  }

  lemma ClaimedOnce(s: State, t: State)
    requires Inv(s) && Next(s, t) && s.selection.Some?
    ensures t.selection == s.selection
  {
  }

  lemma RunSnoc(run: seq<State>, t: State)
    requires run != [] && Run(run) && Next(run[|run| - 1], t)
    ensures Run(run + [t])
  {
    hide Next;
    var longer := run + [t];
    forall i | 0 <= i < |longer| - 1 ensures Next(longer[i], longer[i + 1]) {
      if i < |run| - 1 { assert longer[i] == run[i] && longer[i + 1] == run[i + 1]; }
    }
  }

  /** The state of an undisturbed write in which the child has passed its last check. */
  function Poised(payload: bytes): State {
    State(payload, payload, Waiting, Armed, true, None, None, false, false)
  }

  lemma UndisturbedStart(payload: bytes) returns (run: seq<State>)
    ensures run != [] && Run(run) && Init(run[0]) && run[0].payload == payload && run[|run| - 1] == Poised(payload)
  {
    var s0 := State(payload, [], Setup, NotForked, false, None, None, false, false);
    var s1 := s0.(value := payload, parent := Dispatched);
    var s2 := s1.(parent := Forking, child := Starting, leased := true);
    var s3 := s2.(parent := AfterFork);
    var s4 := s3.(parent := Waiting);
    var s5 := s4.(child := Checking);
    assert payload[..|payload|] == payload;
    run := [s0, s1, s2, s3, s4, s5, Poised(payload)];
    assert ParentStep(s0, s1) && ParentStep(s1, s2) && ParentStep(s2, s3) && ParentStep(s3, s4);
    assert ChildStep(s4, s5) && ChildStep(s5, Poised(payload));
  }

  /** An undisturbed write reports ok and has claimed the sent text. */
  lemma UndisturbedWrite(payload: bytes) returns (run: seq<State>)
    ensures run != [] && Run(run) && Init(run[0]) && run[0].payload == payload
    ensures Respond(true, payload, OutputOf(run[|run| - 1]), false, true) == Reported(Ok(|payload|))
    ensures run[|run| - 1].selection == Some(payload)
  {
    hide Run, Init;
    var start := UndisturbedStart(payload);
    var s6 := Poised(payload);
    var s7 := s6.(child := Claimed, selection := Some(payload));
    var s8 := s7.(child := Owner, receipt := Some(OkReceipt));
    var s9 := s8.(parent := Closing(Ok(|payload|)));
    var s10 := s9.(parent := Writing(Ok(|payload|)), leased := false);
    var s11 := s10.(parent := Finished(Some(Ok(|payload|))));
    assert ChildStep(s6, s7) && ChildStep(s7, s8);
    assert ParentStep(s8, s9) && ParentStep(s9, s10) && ParentStep(s10, s11);
    RunSnoc(start, s7);
    RunSnoc(start + [s7], s8);
    RunSnoc(start + [s7] + [s8], s9);
    RunSnoc(start + [s7] + [s8] + [s9], s10);
    RunSnoc(start + [s7] + [s8] + [s9] + [s10], s11);
    run := start + [s7] + [s8] + [s9] + [s10] + [s11];
  }

  /** A child that fails before it claims is reported as an error, and the selection is left alone. */
  lemma FailedChild(payload: bytes) returns (run: seq<State>)
    ensures run != [] && Run(run) && Init(run[0]) && run[0].payload == payload
    ensures Respond(true, payload, OutputOf(run[|run| - 1]), false, true) == Reported(Error)
    ensures run[|run| - 1].selection.None? && !run[|run| - 1].interrupted
  {
    hide Run, Init;
    var start := UndisturbedStart(payload);
    var s6 := Poised(payload);
    var s7 := s6.(child := Gone, receipt := Some(ErrorReceipt));
    var s8 := s7.(parent := Closing(Error));
    var s9 := s8.(parent := Writing(Error), leased := false);
    var s10 := s9.(parent := Finished(Some(Error)));
    assert Acknowledges(s6, s7, ErrorReceipt, Gone) && ChildStep(s6, s7);
    assert ParentStep(s7, s8) && ParentStep(s8, s9) && ParentStep(s9, s10);
    RunSnoc(start, s7);
    RunSnoc(start + [s7], s8);
    RunSnoc(start + [s7] + [s8], s9);
    RunSnoc(start + [s7] + [s8] + [s9], s10);
    run := start + [s7] + [s8] + [s9] + [s10];
  }
}
