/** `parallel_data_transport_t::send`: N threads multiplex their messages into one bundle per round.

    Thread 0 hands each bundle to the transport and keeps its answer in a local variable that nobody
    reads again; `wire` is what the transport was handed and `outcomes` what it answered.
 */
module SendRounds {
  import opened CInt
  import opened Wire
  import B = Barrier
  import opened Options
  import Errors

  /** script[i] is the list of messages thread i sends, one per call. */
  datatype Config = Config(n: nat, rounds: nat, script: seq<seq<Bytes>>)

  /** The limits of the wire format: no message past the length code, at least one thread. */
  predicate Limits(c: Config)
  {
    && 1 <= c.n <= MAX_CONTAINER_ELEMENTS && |c.script| == c.n
    && (forall i :: 0 <= i < c.n ==> |c.script[i]| == c.rounds)
    && (forall i, r :: 0 <= i < c.n && 0 <= r < c.rounds ==> |c.script[i][r]| <= MAX_CONVERT_LEN)
  }

  /** The messages of round r, one per thread. */
  function RoundMessages(c: Config, r: nat): (ms: seq<Bytes>)
    requires Limits(c) && r < c.rounds
    ensures |ms| == c.n
  {
    seq(c.n, i requires 0 <= i < c.n => c.script[i][r])
  }

  predicate BundleFits(c: Config, r: nat)
    requires Limits(c) && r < c.rounds
  {
    |Bundle(RoundMessages(c, r))| <= INT_MAX
  }

  /** Within the limits, and every round's bundle fits the converter's int offset. */
  predicate ConfigOk(c: Config)
  {
    Limits(c) && forall r :: 0 <= r < c.rounds ==> BundleFits(c, r)
  }

  function Shape(c: Config): B.Shape { B.Shape(c.n, c.rounds, true, 2, 0) }

  /** slots is the shared send_msg vector, bundle and rv are thread 0's local variables, wire and
      outcomes are what the underlying transport was handed and answered, and log has what each
      thread's calls returned. */
  datatype State = State(b: B.State, slots: seq<Bytes>, bundle: Bytes, rv: int, wire: seq<Bytes>, outcomes: seq<int>,
                         log: seq<seq<int>>)

  /** One move: which thread, and what the transport answers if the move hands it a bundle. */
  datatype Step = Step(thread: nat, answer: int)

  function Empties(n: nat): seq<Bytes> { seq(n, _ => []) }

  function Init(c: Config): State
  {
    State(B.Init(Shape(c)), Empties(c.n), [], Errors.E_GENERAL, [], [], seq(c.n, _ => []))
  }

  predicate WellFormed(c: Config, s: State)
  {
    B.WellFormed(Shape(c), s.b) && |s.slots| == |s.log| == c.n
    && (forall i :: 0 <= i < c.n ==> |s.slots[i]| <= MAX_CONVERT_LEN)
    && (forall i :: 0 <= i < c.n ==> s.b.pc[i] == B.Deposit ==> s.b.round[i] < c.rounds)
  }

  predicate Enabled(c: Config, s: State, i: nat)
    requires ConfigOk(c) && WellFormed(c, s) && i < c.n
  {
    B.Enabled(Shape(c), s.b, i)
  }

  function Successor(i: nat, p: B.Pc): B.Pc
  {
    match p
    case Gate => B.Deposit
    case Deposit => B.Bump
    case Bump => if i == 0 then B.WaitAll else B.WaitDone
    case WaitAll => B.Work(0)
    case Work(k) => if k == 0 then B.Work(1) else B.Release
    case Release => B.CountDown
    case WaitDone => B.CountDown
    case Read(_) => B.CountDown
    case CountDown => B.Gate
  }

  /** One step of thread i; o is the transport's answer, used by thread 0's second work step alone. */
  function Next(c: Config, s: State, i: nat, o: int): State
    requires ConfigOk(c) && WellFormed(c, s) && i < c.n
  {
    var p := s.b.pc[i];
    var s1 := s.(b := B.Next(Shape(c), s.b, i, Successor(i, p)));
    match p
    case Deposit => s1.(slots := s.slots[i := c.script[i][s.b.round[i]]])
    case Work(k) =>
      if k == 0 then s1.(bundle := Bundle(s.slots), slots := Empties(c.n))
      else s1.(rv := o, wire := s.wire + [s.bundle], outcomes := s.outcomes + [o])
    case CountDown => s1.(log := s.log[i := s.log[i] + [Errors.SUCCESS]])
    case _ => s1
  }

  // ---------------------------------------------------------------- the invariant

  /** Rounds handed to the transport: the current one only once thread 0 is past its second step. */
  function Sent(s: State, ph: B.Phase, r: nat): nat
    requires |s.b.pc| > 0
  {
    match ph
    case Gathering => r
    case Working => if s.b.pc[0] == B.Release then r + 1 else r
    case Draining => r + 1
  }

  predicate WireOk(c: Config, s: State)
    requires ConfigOk(c)
  {
    |s.wire| <= c.rounds && forall k :: 0 <= k < |s.wire| ==> s.wire[k] == Bundle(RoundMessages(c, k))
  }

  predicate SlotsOk(c: Config, s: State, ph: B.Phase, r: nat)
    requires ConfigOk(c) && WellFormed(c, s)
  {
    match ph
    case Gathering =>
      forall i :: 0 <= i < c.n && (s.b.pc[i] == B.Bump || B.Waits(s.b.pc[i])) ==>
        r < c.rounds && s.slots[i] == c.script[i][r]
    case Working =>
      r < c.rounds
      && (s.b.pc[0] == B.Work(0) ==> s.slots == RoundMessages(c, r))
      && (s.b.pc[0] == B.Work(1) ==> s.bundle == Bundle(RoundMessages(c, r)))
    case Draining => true
  }

  predicate Inv(c: Config, s: State, ph: B.Phase, r: nat)
  {
    && ConfigOk(c) && WellFormed(c, s)
    && B.InPhase(Shape(c), s.b, ph, r) && r <= c.rounds
    && |s.wire| == Sent(s, ph, r) && WireOk(c, s)
    && SlotsOk(c, s, ph, r)
  }

  /** Thread 0 at the transport has the bundle of its round. */
  lemma BundleAtWork(c: Config, s: State, ph: B.Phase, r: nat)
    requires Inv(c, s, ph, r) && s.b.pc[0] == B.Work(1)
    ensures s.b.round[0] < c.rounds && s.bundle == Bundle(RoundMessages(c, s.b.round[0]))
  {
  }

  lemma InitInv(c: Config)
    requires ConfigOk(c)
    ensures Inv(c, Init(c), B.Gathering, 0)
  {
    B.InitPhase(Shape(c));
  }

  lemma SuccessorFollows(c: Config, s: State, i: nat, ph: B.Phase, r: nat)
    requires Inv(c, s, ph, r) && i < c.n && Enabled(c, s, i)
    ensures B.Follows(Shape(c), i, s.b.pc[i], Successor(i, s.b.pc[i]))
  {
    B.PositionOk(Shape(c), s.b, ph, r, i);
  }

  lemma GatheringStep(c: Config, s: State, i: nat, o: int, r: nat)
    requires Inv(c, s, B.Gathering, r) && i < c.n && Enabled(c, s, i)
    ensures var (ph', r') := B.NextPhase(Shape(c), s.b, i, B.Gathering, r); Inv(c, Next(c, s, i, o), ph', r')
  {
    SuccessorFollows(c, s, i, B.Gathering, r);
    B.PhaseStep(Shape(c), s.b, i, Successor(i, s.b.pc[i]), B.Gathering, r);
    if s.b.pc[i] == B.WaitAll { SlotsFull(c, s, i, o, r); }
  }

  /** When thread 0 goes on, every slot has the message of the round. */
  lemma SlotsFull(c: Config, s: State, i: nat, o: int, r: nat)
    requires ConfigOk(c) && WellFormed(c, s) && r < c.rounds && SlotsOk(c, s, B.Gathering, r)
    requires i < c.n && s.b.pc[i] == B.WaitAll && i == 0
    requires B.WellFormed(Shape(c), Next(c, s, i, o).b) && B.IsWorking(Shape(c), Next(c, s, i, o).b, r)
    ensures s.slots == RoundMessages(c, r)
  {
    var b' := Next(c, s, i, o).b;
    forall j | 0 <= j < c.n ensures s.slots[j] == RoundMessages(c, r)[j] {
      assert j > 0 ==> b'.pc[j] == B.WaitDone == s.b.pc[j];
    }
  }

  lemma WorkingStep(c: Config, s: State, i: nat, o: int, r: nat)
    requires Inv(c, s, B.Working, r) && i < c.n && Enabled(c, s, i)
    ensures var (ph', r') := B.NextPhase(Shape(c), s.b, i, B.Working, r); Inv(c, Next(c, s, i, o), ph', r')
  {
    SuccessorFollows(c, s, i, B.Working, r);
    B.PhaseStep(Shape(c), s.b, i, Successor(i, s.b.pc[i]), B.Working, r);
    B.WorkingStep(Shape(c), s.b, i, Successor(i, s.b.pc[i]), r);
  }

  lemma DrainingStep(c: Config, s: State, i: nat, o: int, r: nat)
    requires Inv(c, s, B.Draining, r) && i < c.n && Enabled(c, s, i)
    ensures var (ph', r') := B.NextPhase(Shape(c), s.b, i, B.Draining, r); Inv(c, Next(c, s, i, o), ph', r')
  {
    SuccessorFollows(c, s, i, B.Draining, r);
    B.PhaseStep(Shape(c), s.b, i, Successor(i, s.b.pc[i]), B.Draining, r);
  }

  /** Every step of every thread keeps the invariant. */
  lemma InvStep(c: Config, s: State, i: nat, o: int, ph: B.Phase, r: nat)
    requires Inv(c, s, ph, r) && i < c.n && Enabled(c, s, i)
    ensures var (ph', r') := B.NextPhase(Shape(c), s.b, i, ph, r); Inv(c, Next(c, s, i, o), ph', r')
  {
    match ph
    case Gathering => GatheringStep(c, s, i, o, r);
    case Working => WorkingStep(c, s, i, o, r);
    case Draining => DrainingStep(c, s, i, o, r);
  }

  // ---------------------------------------------------------------- whole runs

  /** The state after the threads of a schedule have moved in that order, if every move is enabled. */
  function Run(c: Config, schedule: seq<Step>): (o: Option<State>)
    requires ConfigOk(c)
    ensures o.Some? ==> WellFormed(c, o.value)
    decreases |schedule|
  {
    if schedule == [] then InitInv(c); Some(Init(c))
    else
      var last := |schedule| - 1;
      var before, e := Run(c, schedule[..last]), schedule[last];
      if before.None? || e.thread >= c.n || !Enabled(c, before.value, e.thread) then None
      else
        var s := Next(c, before.value, e.thread, e.answer);
        if WellFormed(c, s) then Some(s) else None
  }

  lemma {:induction false} RunInv(c: Config, schedule: seq<Step>) returns (ph: B.Phase, r: nat)
    requires ConfigOk(c) && Run(c, schedule).Some?
    ensures Inv(c, Run(c, schedule).value, ph, r)
    ensures B.Measure(Shape(c), Run(c, schedule).value.b) + |schedule| <= B.Measure(Shape(c), Init(c).b)
    decreases |schedule|
  {
    if schedule == [] {
      InitInv(c);
      return B.Gathering, 0;
    }
    var last := |schedule| - 1;
    var s, e := Run(c, schedule[..last]).value, schedule[last];
    var i := e.thread;
    var ph0, r0 := RunInv(c, schedule[..last]);
    InvStep(c, s, i, e.answer, ph0, r0);
    SuccessorFollows(c, s, i, ph0, r0);
    B.MeasureStep(Shape(c), s.b, i, Successor(i, s.b.pc[i]), ph0, r0);
    var next := B.NextPhase(Shape(c), s.b, i, ph0, r0);
    ph, r := next.0, next.1;
  }

  /** In every interleaving the transport has been handed exactly the bundles of the first rounds,
      each holding that round's message of every thread, and rounds never overlap: a thread past
      the gate has seen all N return from the round before. */
  lemma SendRunSafe(c: Config, schedule: seq<Step>)
    requires ConfigOk(c) && Run(c, schedule).Some?
    ensures var s := Run(c, schedule).value;
            && WireOk(c, s)
            && (forall i :: 0 <= i < c.n ==> s.b.round[i] <= |s.wire| <= s.b.round[i] + 1)
            && (forall i, j :: 0 <= i < c.n && 0 <= j < c.n && s.b.pc[i] != B.Gate ==> s.b.round[j] >= s.b.round[i])
  {
    var s := Run(c, schedule).value;
    var ph, r := RunInv(c, schedule);
    forall i, j | 0 <= i < c.n && 0 <= j < c.n
      ensures s.b.round[i] <= |s.wire| <= s.b.round[i] + 1
      ensures s.b.pc[i] != B.Gate ==> s.b.round[j] >= s.b.round[i]
    {
      B.NoOverlap(Shape(c), s.b, ph, r, i, j);
    }
  }

  lemma FinishedSentAll(c: Config, s: State, ph: B.Phase, r: nat)
    requires Inv(c, s, ph, r) && B.Finished(Shape(c), s.b)
    ensures |s.wire| == c.rounds && WireOk(c, s)
  {
    B.CountersReset(Shape(c), s.b, ph, r);
    assert s.b.round[0] == c.rounds;
  }

  /** Send rounds always finish: no run is longer than the budget of the initial state, and a run
      that cannot be extended has completed every call of every thread. */
  lemma SendRunLive(c: Config, schedule: seq<Step>)
    requires ConfigOk(c) && Run(c, schedule).Some?
    ensures |schedule| <= B.Measure(Shape(c), Init(c).b)
    ensures var s := Run(c, schedule).value;
            (forall i :: 0 <= i < c.n ==> !Enabled(c, s, i)) ==>
              B.Finished(Shape(c), s.b) && |s.wire| == c.rounds
  {
    var s := Run(c, schedule).value;
    var ph, r := RunInv(c, schedule);
    if !B.Finished(Shape(c), s.b) {
      var i := B.SomeEnabled(Shape(c), s.b, ph, r);
      assert Enabled(c, s, i);
    } else {
      FinishedSentAll(c, s, ph, r);
    }
  }

  /** Every enabled move of a run's last state extends the run, whatever the transport answers. */
  lemma RunExtends(c: Config, schedule: seq<Step>, e: Step)
    requires ConfigOk(c) && Run(c, schedule).Some?
    requires e.thread < c.n && Enabled(c, Run(c, schedule).value, e.thread)
    ensures Run(c, schedule + [e]).Some?
  {
    var ph, r := RunInv(c, schedule);
    InvStep(c, Run(c, schedule).value, e.thread, e.answer, ph, r);
    assert (schedule + [e])[..|schedule|] == schedule;
  }

  // ---------------------------------------------------------------- what a call reports

  /** One answer for every bundle, and one code for every call that is over. */
  predicate Logged(c: Config, s: State)
    requires WellFormed(c, s)
  {
    |s.outcomes| == |s.wire| && forall i :: 0 <= i < c.n ==> Succeeded(s.log[i], s.b.round[i])
  }

  predicate Succeeded(codes: seq<int>, calls: nat)
  {
    |codes| == calls && forall k :: 0 <= k < |codes| ==> codes[k] == Errors.SUCCESS
  }

  lemma {:induction false} RunLogged(c: Config, schedule: seq<Step>)
    requires ConfigOk(c) && Run(c, schedule).Some?
    ensures Logged(c, Run(c, schedule).value)
    decreases |schedule|
  {
    if schedule != [] {
      var last := |schedule| - 1;
      RunLogged(c, schedule[..last]);
      LoggedStep(c, Run(c, schedule[..last]).value, schedule[last]);
    }
  }

  lemma LoggedStep(c: Config, s: State, e: Step)
    requires ConfigOk(c) && WellFormed(c, s) && Logged(c, s) && e.thread < c.n
    requires WellFormed(c, Next(c, s, e.thread, e.answer))
    ensures Logged(c, Next(c, s, e.thread, e.answer))
  {
    var s' := Next(c, s, e.thread, e.answer);
    forall i | 0 <= i < c.n ensures Succeeded(s'.log[i], s'.b.round[i]) {
      assert Succeeded(s.log[i], s.b.round[i]);
    }
  }

  /** In every run every call returns success; so its code is the transport's answer for its round
      if and only if that answer was success. */
  lemma SendReportsSuccess(c: Config, schedule: seq<Step>, i: nat, k: nat)
    requires ConfigOk(c) && Run(c, schedule).Some? && i < c.n && k < |Run(c, schedule).value.log[i]|
    ensures var s := Run(c, schedule).value;
            && s.log[i][k] == Errors.SUCCESS && k < |s.outcomes|
            && (s.log[i][k] == s.outcomes[k] <==> s.outcomes[k] == Errors.SUCCESS)
  {
    var s := Run(c, schedule).value;
    RunLogged(c, schedule);
    SendRunSafe(c, schedule);
    assert Succeeded(s.log[i], s.b.round[i]) && s.b.round[i] <= |s.wire|;
  }

  /** The same moves, with other answers of the transport. */
  predicate SameMoves(a: seq<Step>, b: seq<Step>)
  {
    |a| == |b| && forall k :: 0 <= k < |a| ==> a[k].thread == b[k].thread
  }

  /** Two states that no thread can tell apart. */
  predicate Alike(s: State, t: State)
  {
    s.b == t.b && s.slots == t.slots && s.bundle == t.bundle && s.wire == t.wire && s.log == t.log
  }

  /** The answers have no influence at all: with any others the same schedule runs, hands over the
      same bundles and returns the same codes. */
  lemma {:induction false} AnswersUnseen(c: Config, schedule: seq<Step>, other: seq<Step>)
    requires ConfigOk(c) && Run(c, schedule).Some? && SameMoves(schedule, other)
    ensures Run(c, other).Some? && Alike(Run(c, schedule).value, Run(c, other).value)
    decreases |schedule|
  {
    if schedule != [] {
      var last := |schedule| - 1;
      AnswersUnseen(c, schedule[..last], other[..last]);
      AlikeStep(c, Run(c, schedule[..last]).value, Run(c, other[..last]).value, schedule[last], other[last]);
    }
  }

  lemma AlikeStep(c: Config, s: State, t: State, e: Step, f: Step)
    requires ConfigOk(c) && WellFormed(c, s) && WellFormed(c, t) && Alike(s, t)
    requires e.thread == f.thread < c.n && Enabled(c, s, e.thread) && WellFormed(c, Next(c, s, e.thread, e.answer))
    ensures Enabled(c, t, f.thread) && WellFormed(c, Next(c, t, f.thread, f.answer))
    ensures Alike(Next(c, s, e.thread, e.answer), Next(c, t, f.thread, f.answer))
  {
  }

  /** The moves of a schedule with one answer to everything. */
  function Answering(schedule: seq<Step>, answer: int): (other: seq<Step>)
    ensures SameMoves(schedule, other) && forall k :: 0 <= k < |other| ==> other[k].answer == answer
  {
    seq(|schedule|, k requires 0 <= k < |schedule| => Step(schedule[k].thread, answer))
  }

  lemma {:induction false} AllAnswered(c: Config, schedule: seq<Step>, answer: int)
    requires ConfigOk(c) && Run(c, schedule).Some?
    requires forall k :: 0 <= k < |schedule| ==> schedule[k].answer == answer
    ensures forall k :: 0 <= k < |Run(c, schedule).value.outcomes| ==> Run(c, schedule).value.outcomes[k] == answer
    decreases |schedule|
  {
    if schedule != [] { AllAnswered(c, schedule[..|schedule| - 1], answer); }
  }

  /** For every run there is one with the same moves in which every bundle is refused, and all calls
      return what they returned. */
  lemma RefusalsUnseen(c: Config, schedule: seq<Step>, error: int)
    requires ConfigOk(c) && Run(c, schedule).Some?
    ensures var t := Run(c, Answering(schedule, error));
            && t.Some? && t.value.log == Run(c, schedule).value.log && t.value.wire == Run(c, schedule).value.wire
            && |t.value.outcomes| == |t.value.wire|
            && forall k :: 0 <= k < |t.value.outcomes| ==> t.value.outcomes[k] == error
  {
    AnswersUnseen(c, schedule, Answering(schedule, error));
    AllAnswered(c, Answering(schedule, error), error);
    RunLogged(c, Answering(schedule, error));
  }

  /** A run with one answer to everything can be extended until every call is over. */
  lemma {:induction false} Completed(c: Config, schedule: seq<Step>, answer: int) returns (whole: seq<Step>)
    requires ConfigOk(c) && Run(c, schedule).Some?
    requires forall k :: 0 <= k < |schedule| ==> schedule[k].answer == answer
    ensures Run(c, whole).Some? && B.Finished(Shape(c), Run(c, whole).value.b)
    ensures forall k :: 0 <= k < |whole| ==> whole[k].answer == answer
    decreases B.Measure(Shape(c), Init(c).b) - |schedule|
  {
    var s := Run(c, schedule).value;
    var ph, r := RunInv(c, schedule);
    if B.Finished(Shape(c), s.b) { return schedule; }
    var i := B.SomeEnabled(Shape(c), s.b, ph, r);
    RunExtends(c, schedule, Step(i, answer));
    var _, _ := RunInv(c, schedule + [Step(i, answer)]);
    whole := Completed(c, schedule + [Step(i, answer)], answer);
  }

  /** For whatever there is to send, there is a run in which the transport refuses every single
      bundle and every call of every thread returns success. */
  lemma AllRefused(c: Config, error: int) returns (schedule: seq<Step>)
    requires ConfigOk(c)
    ensures Run(c, schedule).Some?
    ensures var s := Run(c, schedule).value;
            && s.outcomes == seq(c.rounds, _ => error)
            && forall i :: 0 <= i < c.n ==> s.log[i] == seq(c.rounds, _ => Errors.SUCCESS)
  {
    schedule := Completed(c, [], error);
    var s := Run(c, schedule).value;
    AllAnswered(c, schedule, error);
    RunLogged(c, schedule);
    var ph, r := RunInv(c, schedule);
    FinishedSentAll(c, s, ph, r);
    forall i | 0 <= i < c.n ensures s.log[i] == seq(c.rounds, _ => Errors.SUCCESS) {
      assert Succeeded(s.log[i], s.b.round[i]);
    }
  }

  /** An input for it: one thread with one empty message. */
  lemma SmallestConfig()
    ensures ConfigOk(Config(1, 1, [[[]]]))
  {
    var c := Config(1, 1, [[[]]]);
    assert RoundMessages(c, 0) == [[]];
    assert BufsCode([[]]) == BufCode([]) + BufsCode([[]][1..]);
  }
}
