/**
 The host pasteboard write: a parent that sends a length-prefixed text and a
 commit token over one pipe to a one-shot helper, and the outcome it reports.
 Cancellation and the helper's death may happen at any step.
 */
module HostClipboard {
  import opened Bytes

  const READY: byte := 2
  const COMMIT: byte := 3
  const COMMITTED: byte := 4
  const UNAVAILABLE: byte := 5
  const UNKNOWN: byte := 6
  const MAX_TEXT: nat := 0x10_0000

  datatype Outcome = Unchanged | Committed | Unknown

  /** No NUL byte and within the bound; that the text is UTF-8 is the caller's predicate utf8. */
  predicate ValidText(utf8: bytes -> bool, data: bytes) {
    |data| <= MAX_TEXT && 0 !in data && utf8(data)
  }

  function Frame(data: bytes): bytes {
    EncodeBE(|data|, 4) + data
  }

  /** Unsent: nothing written. Framed: the frame is out. Checked: ready was read and the context was still alive. */
  datatype Parent =
    | Unsent | Framed | Checked | Sent | Acknowledged
    | Closing(outcome: Outcome) | Reaping(outcome: Outcome) | Returned(outcome: Outcome)

  datatype Helper =
    | NotStarted | Reading | Prepared(data: bytes) | Awaiting(data: bytes) | Admitted(data: bytes)
    | Finishing(status: byte) | Exited

  /** sent and closed are the input pipe; out is all the helper wrote, of which the parent has read taken bytes. */
  datatype State = State(
    payload: bytes, parent: Parent, helper: Helper, sent: bytes, closed: bool, out: bytes, taken: nat,
    commits: seq<bytes>, cancelled: bool)

  predicate Init(utf8: bytes -> bool, s: State) {
    && (if ValidText(utf8, s.payload) then s.parent.Unsent? && s.helper in {NotStarted, Reading}
        else s.parent == Returned(Unchanged) && s.helper.NotStarted?)
    && s.sent == [] && !s.closed && s.out == [] && s.taken == 0 && s.commits == []
  }

  // ---- the parent ----

  /** A byte is there to read, or the helper has gone and there is none. */
  predicate Readable(s: State) {
    s.taken < |s.out| || s.helper.Exited?
  }

  predicate Gets(s: State, b: byte) {
    s.taken < |s.out| && s.out[s.taken] == b
  }

  function Take(s: State): State {
    if s.taken < |s.out| then s.(taken := s.taken + 1) else s
  }

  predicate ParentStep(s: State, t: State) {
    match s.parent
    case Unsent =>
      // A helper that could not be started changes nothing; a failed write may leave part of the frame in the pipe.
      || (s.helper.NotStarted? && t == s.(parent := Returned(Unchanged)))
      || (!s.helper.NotStarted? && t == s.(parent := Framed, sent := Frame(s.payload)))
      || (!s.helper.NotStarted? &&
          exists n :: 0 <= n <= |Frame(s.payload)| && t == s.(parent := Closing(Unchanged), sent := Frame(s.payload)[..n]))
    case Framed =>
      && Readable(s)
      && t == Take(s).(parent := if Gets(s, READY) && !s.cancelled then Checked else Closing(Unchanged))
    case Checked =>
      || (s.cancelled && t == s.(parent := Closing(Unchanged)))
      // The context may be cancelled just after it was looked at.
      || t == s.(parent := Sent, sent := s.sent + [COMMIT], closed := true)
      || t == s.(parent := Closing(Unknown), sent := s.sent + [COMMIT])
      || t == s.(parent := Closing(Unknown))
    case Sent =>
      Readable(s) && t == Take(s).(parent := if Gets(s, COMMITTED) then Acknowledged else Closing(Unknown))
    case Acknowledged =>
      // End of output, a clean exit and a live context, or unknown.
      || (s.helper.Exited? && s.taken == |s.out| && t == s.(parent := Closing(Committed)))
      || t == s.(parent := Closing(Unknown))
    case Closing(outcome) =>
      // The input is closed; until it is killed the helper may still see the end of input and go on.
      t == s.(parent := Reaping(outcome), closed := true)
    case Reaping(outcome) =>
      t == s.(parent := Returned(outcome), helper := Exited)
    case Returned(_) => false
  }

  // ---- the helper ----

  /** The text at the head of the pipe, once all of it has arrived. */
  function Received(sent: bytes): Option<bytes> {
    if |sent| < 4 then None
    else
      var n := DecodeBE(sent[..4]);
      if |sent| < 4 + n then None else Some(sent[4..4 + n])
  }

  predicate HelperStep(utf8: bytes -> bool, s: State, t: State) {
    || (!s.helper.NotStarted? && t == s.(helper := Exited))
    || match s.helper
       case Reading =>
         Received(s.sent).Some? && ValidText(utf8, Received(s.sent).value) && t == s.(helper := Prepared(Received(s.sent).value))
       case Prepared(data) =>
         || t == s.(helper := Awaiting(data), out := s.out + [READY])
         || t == s.(helper := Exited, out := s.out + [UNAVAILABLE])
       case Awaiting(data) =>
         // Exactly the token and then the end of input.
         s.closed && |s.sent| == 4 + |data| + 1 && s.sent[4 + |data|] == COMMIT && t == s.(helper := Admitted(data))
       case Admitted(data) =>
         || t == s.(helper := Finishing(COMMITTED), commits := s.commits + [data])
         || t == s.(helper := Finishing(UNKNOWN))
         || t == s.(helper := Finishing(UNKNOWN), commits := s.commits + [data])
         || t == s.(helper := Exited, commits := s.commits + [data])
       case Finishing(status) => t == s.(helper := Exited, out := s.out + [status])
       case NotStarted => false
       case Exited => false
  }

  predicate Next(utf8: bytes -> bool, s: State, t: State) {
    ParentStep(s, t) || HelperStep(utf8, s, t) || t == s.(cancelled := true)
  }

  predicate Run(utf8: bytes -> bool, run: seq<State>) {
    run != [] && Init(utf8, run[0]) && forall i :: 0 <= i < |run| - 1 ==> Next(utf8, run[i], run[i + 1])
  }

  // ---- invariant ----

  /** The helper reads back exactly the framed text. */
  lemma ReceivedFrame(payload: bytes, sent: bytes)
    requires |payload| <= MAX_TEXT && HasPrefix(Frame(payload) + [COMMIT], sent) && Received(sent).Some?
    ensures Received(sent).value == payload
  {
    Widths();
    DecodeEncodeBE(|payload|, 4);
    var whole := Frame(payload) + [COMMIT];
    assert sent[..4] == whole[..4] == EncodeBE(|payload|, 4);
    assert sent[4..4 + |payload|] == whole[4..4 + |payload|] == payload;
  }

  /** The token is in the pipe. */
  predicate Tokened(s: State) {
    |s.sent| > |Frame(s.payload)|
  }

  predicate PipeOk(s: State) {
    && HasPrefix(Frame(s.payload) + [COMMIT], s.sent)
    && (s.parent in {Framed, Checked} ==> s.sent == Frame(s.payload))
    && (Tokened(s) ==>
          s.parent in {Sent, Acknowledged, Closing(Committed), Closing(Unknown), Reaping(Committed), Reaping(Unknown),
                       Returned(Committed), Returned(Unknown)})
  }

  predicate HelperOk(s: State) {
    match s.helper
    case NotStarted => s.out == [] && s.commits == []
    case Reading => s.out == [] && s.commits == []
    case Prepared(data) => data == s.payload && s.out == [] && s.commits == []
    case Awaiting(data) => data == s.payload && s.out == [READY] && s.commits == []
    case Admitted(data) => data == s.payload && s.out == [READY] && s.commits == [] && Tokened(s)
    case Finishing(status) =>
      && s.out == [READY] && Tokened(s) && status in {COMMITTED, UNKNOWN}
      && (s.commits == [] || s.commits == [s.payload]) && (status == COMMITTED ==> s.commits == [s.payload])
    case Exited =>
      && (s.commits == [] || (s.commits == [s.payload] && Tokened(s)))
      && |s.out| <= 2 && (|s.out| == 2 && s.out[1] == COMMITTED ==> s.commits == [s.payload])
      && (s.out != [] ==> s.out[0] in {READY, UNAVAILABLE})
  }

  predicate TakenOk(s: State) {
    && s.taken <= |s.out|
    && (s.parent.Unsent? || s.parent.Framed? ==> s.taken == 0)
    && (s.parent in {Checked, Sent} ==> s.taken == 1 && s.out[0] == READY)
    && (s.parent in {Acknowledged, Closing(Committed), Reaping(Committed), Returned(Committed)} ==>
          s.taken == 2 && s.out[1] == COMMITTED && |s.out| == 2)
    && (s.parent in {Acknowledged, Closing(Unknown), Reaping(Unknown), Returned(Unknown)} ==>
          s.taken >= 1 && s.out[0] == READY)
  }

  predicate Inv(s: State) {
    && PipeOk(s) && HelperOk(s) && TakenOk(s)
    && (|s.payload| <= MAX_TEXT || (s.helper.NotStarted? && s.parent == Returned(Unchanged)))
  }

  lemma InitOk(utf8: bytes -> bool, s: State)
    requires Init(utf8, s)
    ensures Inv(s)
  {
  }

  lemma ParentKeepsPipe(s: State, t: State)
    requires PipeOk(s) && ParentStep(s, t)
    ensures PipeOk(t) && t.payload == s.payload && (Tokened(s) ==> Tokened(t))
  {
    var whole := Frame(s.payload) + [COMMIT];
    assert whole[..|Frame(s.payload)|] == Frame(s.payload) && whole[..|whole|] == whole;
    assert forall n | 0 <= n <= |Frame(s.payload)| :: whole[..n] == Frame(s.payload)[..n];
  }

  /** The parent never touches what the helper has done; it can only end it. */
  predicate LeavesHelper(s: State, t: State) {
    && t.payload == s.payload && t.out == s.out && t.commits == s.commits && (Tokened(s) ==> Tokened(t))
    && (t.helper == s.helper || (t.helper.Exited? && s.parent.Reaping?))
  }

  lemma ParentLeavesHelper(s: State, t: State)
    requires ParentStep(s, t) && (Tokened(s) ==> Tokened(t)) && t.payload == s.payload
    ensures LeavesHelper(s, t)
  {
    hide Frame, Tokened;
  }

  lemma ParentKeepsHelper(s: State, t: State)
    requires Inv(s) && ParentStep(s, t) && (Tokened(s) ==> Tokened(t)) && t.payload == s.payload
    ensures HelperOk(t)
  {
    ParentLeavesHelper(s, t);
    hide PipeOk, TakenOk, ParentStep, Tokened;
  }

  lemma ParentKeepsTaken(s: State, t: State)
    requires Inv(s) && ParentStep(s, t)
    ensures TakenOk(t) && (t.helper.NotStarted? ==> s.helper.NotStarted?)
  {
    hide PipeOk, Frame, Tokened;
  }

  lemma HelperKeepsHelper(utf8: bytes -> bool, s: State, t: State)
    requires HelperOk(s) && HelperStep(utf8, s, t) && TokenLength(s)
    requires Received(s.sent).Some? && s.helper.Reading? ==> Received(s.sent).value == s.payload
    ensures HelperOk(t) && t.payload == s.payload
  {
    hide Frame, ValidText, Received;
  }

  lemma HelperKeepsTaken(utf8: bytes -> bool, s: State, t: State)
    requires HelperOk(s) && TakenOk(s) && HelperStep(utf8, s, t)
    ensures TakenOk(t)
  {
    hide Frame, ValidText, Received, Tokened;
  }

  lemma HelperKeepsPipe(utf8: bytes -> bool, s: State, t: State)
    requires HelperStep(utf8, s, t)
    ensures PipeOk(s) ==> PipeOk(t)
    ensures t.parent == s.parent && t.payload == s.payload && !t.helper.NotStarted? && !s.helper.NotStarted?
  {
    hide Frame, ValidText, Received;
  }

  lemma HelperKeeps(utf8: bytes -> bool, s: State, t: State)
    requires Inv(s) && HelperStep(utf8, s, t)
    ensures Inv(t) && t.payload == s.payload
  {
    HelperKeepsPipe(utf8, s, t);
    hide HelperStep, HelperOk, TakenOk, Frame, Received;
    if Received(s.sent).Some? { ReceivedFrame(s.payload, s.sent); }
    TokenLengthFact(s);
    HelperKeepsHelper(utf8, s, t);
    HelperKeepsTaken(utf8, s, t);
  }

  /** A pipe one byte longer than the frame holds the token. */
  predicate TokenLength(s: State) {
    |s.sent| == 4 + |s.payload| + 1 ==> Tokened(s)
  }

  lemma TokenLengthFact(s: State)
    ensures TokenLength(s)
  {
  }

  lemma NextKeeps(utf8: bytes -> bool, s: State, t: State)
    requires Inv(s) && Next(utf8, s, t)
    ensures Inv(t) && t.payload == s.payload
  {
    hide ParentStep, HelperStep, PipeOk, HelperOk, TakenOk;
    if ParentStep(s, t) {
      ParentKeepsPipe(s, t);
      ParentKeepsHelper(s, t);
      ParentKeepsTaken(s, t);
      ParentKeepsStart(s, t);
    } else if HelperStep(utf8, s, t) {
      HelperKeeps(utf8, s, t);
    } else {
      CancelKeeps(s, t);
    }
  }

  lemma ParentKeepsStart(s: State, t: State)
    requires Inv(s) && ParentStep(s, t)
    ensures |t.payload| <= MAX_TEXT || (t.helper.NotStarted? && t.parent == Returned(Unchanged))
  {
    hide PipeOk, HelperOk, TakenOk, Frame;
  }

  lemma CancelKeeps(s: State, t: State)
    requires Inv(s) && t == s.(cancelled := true)
    ensures Inv(t) && t.payload == s.payload
  {
  }

  lemma {:induction false} RunKeeps(utf8: bytes -> bool, run: seq<State>, i: nat)
    requires Run(utf8, run) && i < |run|
    ensures Inv(run[i]) && run[i].payload == run[0].payload
  {
    hide Inv, Init, Next;
    if i == 0 {
      InitOk(utf8, run[0]);
    } else {
      RunKeeps(utf8, run, i - 1);
      NextKeeps(utf8, run[i - 1], run[i]);
    }
  }

  lemma {:induction false} OutcomeStays(utf8: bytes -> bool, run: seq<State>, i: nat, j: nat)
    requires Run(utf8, run) && i <= j < |run| && run[i].parent.Returned?
    ensures run[j].parent == run[i].parent
  {
    hide Init;
    if i < j { OutcomeStays(utf8, run, i, j - 1); }
  }

  /**
   Whenever the call has returned: unchanged means the helper never commits, committed means that it
   committed exactly once, exactly the given valid text, and unknown needs a helper that was ready to commit;
   and in no run does it commit twice or commit anything else.
   */
  lemma OutcomeSound(utf8: bytes -> bool, run: seq<State>, i: nat, j: nat)
    requires Run(utf8, run) && i <= j < |run|
    ensures run[j].commits == [] ||
            (run[j].commits == [run[0].payload] &&
             |run[0].payload| <= 0x10_0000 && 0 !in run[0].payload && utf8(run[0].payload))
    ensures run[i].parent == Returned(Unchanged) ==> run[j].commits == []
    ensures run[i].parent == Returned(Committed) ==> run[j].commits == [run[0].payload]
    ensures run[i].parent == Returned(Unknown) ==> run[i].out != [] && run[i].out[0] == 2
  {
    hide Next;
    RunKeeps(utf8, run, j);
    RunKeeps(utf8, run, i);
    if run[i].parent.Returned? { OutcomeStays(utf8, run, i, j); }
    if !ValidText(utf8, run[0].payload) { OutcomeStays(utf8, run, 0, j); }
    TextStays(utf8, run, j);
  }

  /** An invalid text never starts a helper. */
  lemma {:induction false} TextStays(utf8: bytes -> bool, run: seq<State>, j: nat)
    requires Run(utf8, run) && j < |run|
    ensures !ValidText(utf8, run[0].payload) ==> run[j].helper.NotStarted? && run[j].parent.Returned?
  {
    hide ValidText;
    if j > 0 {
      TextStays(utf8, run, j - 1);
      assert Next(utf8, run[j - 1], run[j]);
    }
  }

  lemma RunSnoc(utf8: bytes -> bool, run: seq<State>, t: State)
    requires run != [] && Run(utf8, run) && Next(utf8, run[|run| - 1], t)
    ensures Run(utf8, run + [t])
  {
    hide Next, Init;
    var longer := run + [t];
    assert longer[0] == run[0];
    forall i | 0 <= i < |longer| - 1 ensures Next(utf8, longer[i], longer[i + 1]) {
      if i < |run| - 1 { assert longer[i] == run[i] && longer[i + 1] == run[i + 1]; }
    }
  }

  /** The state of an undisturbed write in which the token has been sent. */
  function Poised(payload: bytes): State {
    State(payload, Sent, Awaiting(payload), Frame(payload) + [COMMIT], true, [READY], 1, [], false)
  }

  lemma UndisturbedStart(utf8: bytes -> bool, payload: bytes) returns (run: seq<State>)
    requires ValidText(utf8, payload)
    ensures run != [] && Run(utf8, run) && run[0].payload == payload && run[|run| - 1] == Poised(payload)
  {
    hide ValidText, Frame;
    var s0 := State(payload, Unsent, Reading, [], false, [], 0, [], false);
    var s1 := s0.(parent := Framed, sent := Frame(payload));
    var s2 := s1.(helper := Prepared(payload));
    var s3 := s2.(helper := Awaiting(payload), out := [READY]);
    var s4 := s3.(parent := Checked, taken := 1);
    FrameReceived(payload, utf8);
    run := [s0, s1, s2, s3, s4, Poised(payload)];
    assert ParentStep(s0, s1) && HelperStep(utf8, s1, s2) && HelperStep(utf8, s2, s3);
    assert ParentStep(s3, s4) && ParentStep(s4, Poised(payload));
  }

  /** An undisturbed write of a valid text reports a commit. */
  lemma UndisturbedCommit(utf8: bytes -> bool, payload: bytes) returns (run: seq<State>)
    requires |payload| <= 0x10_0000 && 0 !in payload && utf8(payload)
    ensures run != [] && Run(utf8, run) && run[0].payload == payload
    ensures run[|run| - 1].parent == Returned(Committed) && run[|run| - 1].commits == [payload]
    ensures run[|run| - 1].sent == EncodeBE(|payload|, 4) + payload + [3] && run[|run| - 1].out == [2, 4]
  {
    assert ValidText(utf8, payload);
    hide ValidText, Frame, Run;
    var start := UndisturbedStart(utf8, payload);
    FrameReceived(payload, utf8);
    var s5 := Poised(payload);
    assert s5.sent[4 + |payload|] == COMMIT;
    var s6 := s5.(helper := Admitted(payload));
    var s7 := s6.(helper := Finishing(COMMITTED), commits := [payload]);
    var s8 := s7.(helper := Exited, out := [READY, COMMITTED]);
    var s9 := s8.(parent := Acknowledged, taken := 2);
    var s10 := s9.(parent := Closing(Committed));
    var s11 := s10.(parent := Reaping(Committed));
    var s12 := s11.(parent := Returned(Committed));
    assert HelperStep(utf8, s5, s6) && HelperStep(utf8, s6, s7) && HelperStep(utf8, s7, s8);
    assert ParentStep(s8, s9) && ParentStep(s9, s10) && ParentStep(s10, s11) && ParentStep(s11, s12);
    RunSnoc(utf8, start, s6);
    RunSnoc(utf8, start + [s6], s7);
    RunSnoc(utf8, start + [s6] + [s7], s8);
    RunSnoc(utf8, start + [s6] + [s7] + [s8], s9);
    RunSnoc(utf8, start + [s6] + [s7] + [s8] + [s9], s10);
    RunSnoc(utf8, start + [s6] + [s7] + [s8] + [s9] + [s10], s11);
    RunSnoc(utf8, start + [s6] + [s7] + [s8] + [s9] + [s10] + [s11], s12);
    run := start + [s6] + [s7] + [s8] + [s9] + [s10] + [s11] + [s12];
    assert s12.sent == EncodeBE(|payload|, 4) + payload + [3] by { FrameBytes(payload); }
  }

  lemma FrameBytes(payload: bytes)
    ensures Frame(payload) == EncodeBE(|payload|, 4) + payload
  {
  }

  lemma FrameReceived(payload: bytes, utf8: bytes -> bool)
    requires ValidText(utf8, payload)
    ensures |Frame(payload)| == 4 + |payload| && Received(Frame(payload)) == Some(payload)
  {
    Widths();
    DecodeEncodeBE(|payload|, 4);
    assert Frame(payload)[..4] == EncodeBE(|payload|, 4);
    assert Frame(payload)[4..4 + |payload|] == payload;
  }

  // ---- the service ----

  datatype Mode = Push | Pull | Copy | Paste | OtherMode

  datatype Failure =
    | ErrTooLarge | ErrInvalidText | ErrRead | ErrWrite | ErrFrame | ErrRequest | ErrTerminal | ErrAdmission
    | ErrCancelled | ErrUnavailable | ErrUnknown | OtherFailure

  /** Some other failure becomes the fallback; a bare context error counts as ErrCancelled already. */
  function Sanitize(e: Failure, fallback: Failure): Failure {
    if e.OtherFailure? then fallback else e
  }

  /** What a destination answered; None is an outcome it should not have sent. */
  datatype Answer = Answer(outcome: Option<Outcome>, failure: Option<Failure>)

  function DestinationResult(a: Answer): (Outcome, Option<Failure>) {
    if a.failure == Some(ErrUnknown) then (Unknown, Some(ErrUnknown))
    else
      match a.outcome
      case Some(Committed) => (Committed, if a.failure.Some? then Some(Sanitize(a.failure.value, ErrWrite)) else None)
      case Some(Unchanged) => (Unchanged, Some(if a.failure.Some? then Sanitize(a.failure.value, ErrWrite) else ErrWrite))
      case Some(Unknown) => (Unknown, Some(ErrUnknown))
      case None => (Unknown, Some(ErrUnknown))
  }

  /** Everything Execute learns from outside: cancelled k is the context at its k-th look. */
  datatype World = World(
    present: bool, bound: bool, begin: Option<Failure>, cancelled: nat -> bool,
    source: bytes, sourceFailure: Option<Failure>, answer: Answer, written: int, writeFailed: bool)

  /** The result, and the bytes handed to the destination if it was asked at all. */
  datatype Executed = Executed(outcome: Outcome, failure: Option<Failure>, attempted: Option<bytes>)

  function Execute(utf8: bytes -> bool, mode: Mode, raw: bool, terminal: bool, w: World): Executed {
    if mode.Paste? && terminal && !raw then Executed(Unchanged, Some(ErrTerminal), None)
    else if mode.OtherMode? || !w.present || !w.bound then Executed(Unchanged, Some(ErrRequest), None)
    else if w.cancelled(0) then Executed(Unchanged, Some(ErrCancelled), None)
    else if w.begin.Some? then Executed(Unchanged, Some(Sanitize(w.begin.value, ErrAdmission)), None)
    else if w.cancelled(1) || w.cancelled(2) then Executed(Unchanged, Some(ErrCancelled), None)
    else if w.sourceFailure.Some? then Executed(Unchanged, Some(Sanitize(w.sourceFailure.value, ErrRead)), None)
    else if !ValidText(utf8, w.source) then
      Executed(Unchanged, Some(if |w.source| > MAX_TEXT then ErrTooLarge else ErrInvalidText), None)
    else if w.cancelled(3) then Executed(Unchanged, Some(ErrCancelled), None)
    else if mode.Paste? then
      if w.writeFailed || w.written != |w.source| then Executed(Unknown, Some(ErrUnknown), Some(w.source))
      else Executed(Committed, None, Some(w.source))
    else Executed(DestinationResult(w.answer).0, DestinationResult(w.answer).1, Some(w.source))
  }

  /**
   A result is never stronger than the destination's own answer, and success needs a confirmed commit of the source.
   */
  lemma ExecuteNeverStrengthens(utf8: bytes -> bool, mode: Mode, raw: bool, terminal: bool, w: World)
    ensures var r := Execute(utf8, mode, raw, terminal, w);
      && (r.attempted.Some? ==> r.attempted.value == w.source)
      && (r.outcome.Unchanged? ==> r.attempted.None? || (!mode.Paste? && w.answer.outcome == Some(Unchanged)))
      && (r.outcome.Committed? ==>
            r.attempted.Some? && if mode.Paste? then w.written == |w.source| else w.answer.outcome == Some(Committed))
      && (r.failure.None? ==> r.outcome.Committed?)
      && (r.failure == Some(ErrUnknown) && r.attempted.Some? ==> r.outcome.Unknown?)
  {
  }

  /**
   The destination is asked exactly for a bound request of a known kind, admitted, at no look cancelled, whose source
   could be read and is a valid text; a paste to a terminal must be raw. Otherwise the result is unchanged, with the
   reason, and a refused admission is passed on.
   */
  lemma AttemptedExactly(utf8: bytes -> bool, mode: Mode, raw: bool, terminal: bool, w: World)
    ensures var r := Execute(utf8, mode, raw, terminal, w);
      && (r.attempted.Some? <==>
            && mode in {Push, Pull, Copy, Paste} && (mode.Paste? && terminal ==> raw)
            && w.present && w.bound && w.begin.None? && w.sourceFailure.None?
            && (forall k :: 0 <= k < 4 ==> !w.cancelled(k))
            && |w.source| <= 0x10_0000 && 0 !in w.source && utf8(w.source))
      && (r.attempted.None? ==> r.outcome.Unchanged? && r.failure.Some?)
      && (r.failure == Some(ErrAdmission) && r.attempted.None? && w.sourceFailure.None? ==> w.begin.Some?)
  {
    assert w.cancelled(0) || w.cancelled(1) || w.cancelled(2) || w.cancelled(3) <==> !forall k :: 0 <= k < 4 ==> !w.cancelled(k);
  }

  /** A known request that is bound and not cancelled, but not admitted, returns the refusal and asks nobody. */
  lemma RefusedAdmission(utf8: bytes -> bool, mode: Mode, raw: bool, w: World)
    requires mode in {Push, Pull, Copy, Paste} && w.present && w.bound && !w.cancelled(0) && w.begin.Some?
    ensures var failure := if w.begin.value == OtherFailure then ErrAdmission else w.begin.value;
      Execute(utf8, mode, raw, false, w) == Executed(Unchanged, Some(failure), None)
  {
  }

  /** A destination that was asked and answered clearly is believed; a paste is committed once all of it is written. */
  lemma AnswerBelieved(utf8: bytes -> bool, mode: Mode, raw: bool, terminal: bool, w: World)
    requires Execute(utf8, mode, raw, terminal, w).attempted.Some?
    ensures var r := Execute(utf8, mode, raw, terminal, w);
      && (mode.Paste? ==> (r.outcome.Committed? <==> !w.writeFailed && w.written == |w.source|) && !r.outcome.Unchanged?)
      && (!mode.Paste? && w.answer.failure != Some(ErrUnknown) && w.answer.outcome.Some? ==>
            r.outcome == w.answer.outcome.value)
      && (!mode.Paste? && w.answer == Answer(Some(Committed), None) ==> r.failure.None?)
      && (!mode.Paste? && (w.answer.failure == Some(ErrUnknown) || w.answer.outcome.None?) ==>
            r.outcome.Unknown? && r.failure == Some(ErrUnknown))
  {
  }

  /** Pulling to the host pasteboard: the service's verdict is true of the pasteboard, now and later. */
  lemma PullSound(utf8: bytes -> bool, w: World, run: seq<State>, i: nat, j: nat)
    requires Run(utf8, run) && i <= j < |run| && run[0].payload == w.source && run[i].parent.Returned?
    requires w.answer.outcome == Some(run[i].parent.outcome)
    ensures var r := Execute(utf8, Pull, false, false, w);
      && (r.outcome.Unchanged? && r.attempted.Some? ==> run[j].commits == [])
      && (r.outcome.Committed? ==> run[j].commits == [w.source])
  {
    OutcomeSound(utf8, run, i, j);
    ExecuteNeverStrengthens(utf8, Pull, false, false, w);
  }
}
