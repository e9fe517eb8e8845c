/** The barrier that `send`, `receive` and `receive_all` of `parallel_data_transport_t` share.

    N threads call the same operation, each with its own program counter. A call passes a gate
    (the active counter is 0), may deposit a message, and bumps the ready counter. Thread 0 then
    waits for all N, sets the active counter to N, does the work on the underlying transport,
    and resets the ready counter; the others wait for that reset. Finally every thread counts
    the active counter down and returns. Every critical section is one atomic step and every
    condition-variable wait is a guard.

    Only the control state is here; the three operations add their own data to it.
 */
module Barrier {
  import opened Counting

  datatype Pc =
    | Gate            // waiting for the previous round to drain, or not in a call
    | Deposit         // send only: about to store this thread's message
    | Bump            // about to increment the ready counter
    | WaitAll         // thread 0 only: waiting for the ready counter to reach N
    | Work(step: nat) // thread 0 only: using the underlying transport
    | Release         // thread 0 only: about to reset the ready counter
    | WaitDone        // other threads: waiting for that reset
    | Read(step: nat) // picking up the verdict and the message
    | CountDown       // about to decrement the active counter and return

  /** Shape of an operation: is there a deposit step, and how many work and read steps. */
  datatype Shape = Shape(n: nat, rounds: nat, deposits: bool, workSteps: nat, readSteps: nat)

  datatype State = State(pc: seq<Pc>, round: seq<nat>, active: int, ready: int)

  predicate ShapeOk(c: Shape) { c.n >= 1 && c.workSteps >= 1 }

  function Init(c: Shape): State
  {
    State(seq(c.n, _ => Gate), seq(c.n, _ => 0), 0, 0)
  }

  predicate WellFormed(c: Shape, b: State)
  {
    |b.pc| == c.n && |b.round| == c.n
  }

  /** The program-order successors of thread i at `from`: thread 0 may leave the work early on
      an error, and a call that failed skips the read steps. */
  predicate Follows(c: Shape, i: nat, from: Pc, to: Pc)
  {
    match from
    case Gate => to == if c.deposits then Deposit else Bump
    case Deposit => to == Bump
    case Bump => to == if i == 0 then WaitAll else WaitDone
    case WaitAll => to == Work(0)
    case Work(k) => (k + 1 < c.workSteps && to == Work(k + 1)) || to == Release
    case Release => (c.readSteps > 0 && to == Read(0)) || to == CountDown
    case WaitDone => (to.Read? && to.step < c.readSteps) || (c.readSteps == 0 && to == CountDown)
    case Read(k) => if k + 1 < c.readSteps then to == Read(k + 1) else to == CountDown
    case CountDown => to == Gate
  }

  /** The guard of thread i's next step. */
  predicate Enabled(c: Shape, b: State, i: nat)
    requires WellFormed(c, b) && i < c.n
  {
    match b.pc[i]
    case Gate => b.round[i] < c.rounds && b.active == 0
    case WaitAll => b.ready >= c.n
    case WaitDone => b.ready == 0
    case _ => true
  }

  /** One step of thread i, moving to `to`. */
  function Next(c: Shape, b: State, i: nat, to: Pc): State
    requires WellFormed(c, b) && i < c.n
  {
    var b1 := b.(pc := b.pc[i := to]);
    match b.pc[i]
    case Bump => b1.(ready := b.ready + 1)
    case WaitAll => b1.(active := c.n)
    case Release => b1.(ready := 0)
    case CountDown => b1.(active := b.active - 1, round := b.round[i := b.round[i] + 1])
    case _ => b1
  }

  // ---------------------------------------------------------------- the invariant

  predicate Waits(p: Pc) { p.WaitAll? || p.WaitDone? }

  function Waiting(pc: seq<Pc>): (w: seq<bool>)
    ensures |w| == |pc|
  {
    seq(|pc|, i requires 0 <= i < |pc| => Waits(pc[i]))
  }

  /** The threads still inside round r. */
  function Inside(round: seq<nat>, r: nat): (w: seq<bool>)
    ensures |w| == |round|
  {
    seq(|round|, i requires 0 <= i < |round| => round[i] == r)
  }

  datatype Phase = Gathering | Working | Draining

  predicate WaitsRight(i: nat, p: Pc) { if i == 0 then p == WaitAll else p == WaitDone }

  /** Before thread 0 starts the round: everybody is in round r and nobody is past its wait. */
  predicate IsGathering(c: Shape, b: State, r: nat)
    requires WellFormed(c, b)
  {
    && b.active == 0
    && b.ready == Count(Waiting(b.pc))
    && forall i :: 0 <= i < c.n ==>
         b.round[i] == r &&
         (b.pc[i] in {Gate, Bump} || (c.deposits && b.pc[i] == Deposit) || WaitsRight(i, b.pc[i])) &&
         (b.pc[i] != Gate ==> r < c.rounds)
  }

  /** Thread 0 works, all the others wait. */
  predicate IsWorking(c: Shape, b: State, r: nat)
    requires WellFormed(c, b)
  {
    && b.active == c.n && b.ready == c.n && r < c.rounds
    && c.n >= 1
    && ((b.pc[0].Work? && b.pc[0].step < c.workSteps) || b.pc[0] == Release)
    && forall i :: 0 <= i < c.n ==> b.round[i] == r && (i > 0 ==> b.pc[i] == WaitDone)
  }

  /** The round is over for thread 0's part; threads leave one by one, and those that left wait
      at the gate of the next round. */
  predicate IsDraining(c: Shape, b: State, r: nat)
    requires WellFormed(c, b)
  {
    && b.ready == 0 && r < c.rounds
    && b.active == Count(Inside(b.round, r)) && b.active > 0
    && forall i :: 0 <= i < c.n ==>
         (b.round[i] == r &&
          (b.pc[i] == CountDown || (b.pc[i].Read? && b.pc[i].step < c.readSteps) || (i > 0 && b.pc[i] == WaitDone)))
         || (b.round[i] == r + 1 && b.pc[i] == Gate)
  }

  predicate InPhase(c: Shape, b: State, ph: Phase, r: nat)
    requires WellFormed(c, b)
  {
    match ph
    case Gathering => IsGathering(c, b, r)
    case Working => IsWorking(c, b, r)
    case Draining => IsDraining(c, b, r)
  }

  /** The phase after a step of thread i in phase (ph, r). */
  function NextPhase(c: Shape, b: State, i: nat, ph: Phase, r: nat): (Phase, nat)
    requires WellFormed(c, b) && i < c.n
  {
    match b.pc[i]
    case WaitAll => (Working, r)
    case Release => (Draining, r)
    case CountDown => if b.active == 1 then (Gathering, r + 1) else (ph, r)
    case _ => (ph, r)
  }

  // ---------------------------------------------------------------- every step keeps the phase

  lemma InitPhase(c: Shape)
    requires ShapeOk(c)
    ensures InPhase(c, Init(c), Gathering, 0)
  {
    CountNone(Waiting(Init(c).pc));
  }

  lemma WaitingUpdate(pc: seq<Pc>, i: nat, to: Pc)
    requires i < |pc|
    ensures Count(Waiting(pc[i := to])) ==
            Count(Waiting(pc)) - (if Waits(pc[i]) then 1 else 0) + (if Waits(to) then 1 else 0)
  {
    assert Waiting(pc[i := to]) == Waiting(pc)[i := Waits(to)];
    CountUpdate(Waiting(pc), i, Waits(to));
  }

  lemma InsideUpdate(round: seq<nat>, i: nat, r: nat)
    requires i < |round| && round[i] == r
    ensures Count(Inside(round[i := r + 1], r)) == Count(Inside(round, r)) - 1
  {
    assert Inside(round[i := r + 1], r) == Inside(round, r)[i := false];
    CountUpdate(Inside(round, r), i, false);
  }

  lemma GatheringStep(c: Shape, b: State, i: nat, to: Pc, r: nat)
    requires ShapeOk(c) && WellFormed(c, b) && i < c.n
    requires IsGathering(c, b, r) && b.pc[i] != WaitAll
    requires Enabled(c, b, i) && Follows(c, i, b.pc[i], to)
    ensures IsGathering(c, Next(c, b, i, to), r)
  {
    WaitingUpdate(b.pc, i, to);
    if b.pc[i] == WaitDone {
      CountNone(Waiting(b.pc));
      assert false;
    }
  }

  lemma StartStep(c: Shape, b: State, to: Pc, r: nat)
    requires ShapeOk(c) && WellFormed(c, b)
    requires IsGathering(c, b, r) && b.pc[0] == WaitAll
    requires Enabled(c, b, 0) && Follows(c, 0, b.pc[0], to)
    ensures IsWorking(c, Next(c, b, 0, to), r)
  {
    CountAll(Waiting(b.pc));
    forall j | 0 <= j < c.n ensures Waits(b.pc[j]) { assert Waiting(b.pc)[j]; }
  }

  lemma WorkingStep(c: Shape, b: State, i: nat, to: Pc, r: nat)
    requires ShapeOk(c) && WellFormed(c, b) && i < c.n
    requires IsWorking(c, b, r)
    requires Enabled(c, b, i) && Follows(c, i, b.pc[i], to)
    ensures i == 0
    ensures b.pc[0].Work? ==> IsWorking(c, Next(c, b, i, to), r)
    ensures b.pc[0] == Release ==> IsDraining(c, Next(c, b, i, to), r)
  {
    CountAll(Inside(b.round, r));
  }

  lemma DrainingStep(c: Shape, b: State, i: nat, to: Pc, r: nat)
    requires ShapeOk(c) && WellFormed(c, b) && i < c.n
    requires IsDraining(c, b, r)
    requires Enabled(c, b, i) && Follows(c, i, b.pc[i], to)
    ensures b.pc[i] == CountDown && b.active == 1 ==> IsGathering(c, Next(c, b, i, to), r + 1)
    ensures !(b.pc[i] == CountDown && b.active == 1) ==> IsDraining(c, Next(c, b, i, to), r)
  {
    var b' := Next(c, b, i, to);
    if b.pc[i] == CountDown {
      InsideUpdate(b.round, i, r);
      if b.active == 1 {
        CountNone(Inside(b'.round, r));
        forall j | 0 <= j < c.n ensures b'.round[j] == r + 1 && b'.pc[j] == Gate {
          assert !Inside(b'.round, r)[j];
          assert b.round[j] == b'.round[j] || j == i;
        }
        CountNone(Waiting(b'.pc));
      }
    }
  }

  /** Every step of every thread keeps the control invariant and moves the phase as `NextPhase` says. */
  lemma PhaseStep(c: Shape, b: State, i: nat, to: Pc, ph: Phase, r: nat)
    requires ShapeOk(c) && WellFormed(c, b) && i < c.n
    requires InPhase(c, b, ph, r)
    requires Enabled(c, b, i) && Follows(c, i, b.pc[i], to)
    ensures WellFormed(c, Next(c, b, i, to))
    ensures var (ph', r') := NextPhase(c, b, i, ph, r); InPhase(c, Next(c, b, i, to), ph', r')
  {
    match ph
    case Gathering => if b.pc[i] == WaitAll { StartStep(c, b, to, r); } else { GatheringStep(c, b, i, to, r); }
    case Working => WorkingStep(c, b, i, to, r);
    case Draining => DrainingStep(c, b, i, to, r);
  }

  // ---------------------------------------------------------------- progress

  /** Steps left in the current call of a thread. */
  function Rank(c: Shape, p: Pc): (k: nat)
    ensures k <= c.workSteps + c.readSteps + 9
  {
    match p
    case Gate => c.workSteps + c.readSteps + 9
    case Deposit => c.workSteps + c.readSteps + 8
    case Bump => c.workSteps + c.readSteps + 7
    case WaitAll => c.workSteps + c.readSteps + 6
    case Work(k) => c.readSteps + 5 + (if k < c.workSteps then c.workSteps - k else 0)
    case Release => c.readSteps + 4
    case WaitDone => c.readSteps + 4
    case Read(k) => 2 + (if k < c.readSteps then c.readSteps - k else 0)
    case CountDown => 1
  }

  function CallCost(c: Shape): nat { c.workSteps + c.readSteps + 10 }

  /** Steps left for one thread over all its calls. */
  function Left(c: Shape, p: Pc, round: nat): nat
  {
    Rank(c, p) + (if round < c.rounds then c.rounds - round else 0) * CallCost(c)
  }

  function Lefts(c: Shape, b: State): (s: seq<nat>)
    requires WellFormed(c, b)
    ensures |s| == c.n
  {
    seq(c.n, i requires 0 <= i < c.n => Left(c, b.pc[i], b.round[i]))
  }

  function Measure(c: Shape, b: State): nat
    requires WellFormed(c, b)
  {
    Sum(Lefts(c, b))
  }

  /** In every phase a thread that is mid-call is in a round that exists, at a legal position. */
  lemma PositionOk(c: Shape, b: State, ph: Phase, r: nat, i: nat)
    requires ShapeOk(c) && WellFormed(c, b) && i < c.n && InPhase(c, b, ph, r)
    ensures b.pc[i] != Gate ==> b.round[i] < c.rounds
    ensures b.pc[i].Work? ==> b.pc[i].step < c.workSteps
    ensures b.pc[i].Read? ==> b.pc[i].step < c.readSteps
  {
  }

  /** Only thread 0 works. */
  lemma WorkerIsFirst(c: Shape, b: State, ph: Phase, r: nat, i: nat)
    requires ShapeOk(c) && WellFormed(c, b) && i < c.n && InPhase(c, b, ph, r) && b.pc[i].Work?
    ensures i == 0
  {
  }

  lemma LeftDecreases(c: Shape, i: nat, p: Pc, to: Pc, round: nat)
    requires Follows(c, i, p, to)
    requires round < c.rounds
    requires p.Work? ==> p.step < c.workSteps
    requires p.Read? ==> p.step < c.readSteps
    ensures Left(c, to, if p == CountDown then round + 1 else round) < Left(c, p, round)
  {
    if p == CountDown {
      var k := c.rounds - round;
      assert k * CallCost(c) == (k - 1) * CallCost(c) + CallCost(c);
    }
  }

  /** Every step uses up some of a finite budget: no run is infinite. */
  lemma MeasureStep(c: Shape, b: State, i: nat, to: Pc, ph: Phase, r: nat)
    requires ShapeOk(c) && WellFormed(c, b) && i < c.n && InPhase(c, b, ph, r)
    requires Enabled(c, b, i) && Follows(c, i, b.pc[i], to)
    ensures WellFormed(c, Next(c, b, i, to))
    ensures Measure(c, Next(c, b, i, to)) < Measure(c, b)
  {
    PositionOk(c, b, ph, r, i);
    LeftDecreases(c, i, b.pc[i], to, b.round[i]);
    LeftsNext(c, b, i, to);
    SumUpdate(Lefts(c, b), i, Left(c, to, if b.pc[i] == CountDown then b.round[i] + 1 else b.round[i]));
  }

  lemma LeftsNext(c: Shape, b: State, i: nat, to: Pc)
    requires WellFormed(c, b) && i < c.n
    ensures WellFormed(c, Next(c, b, i, to))
    ensures Lefts(c, Next(c, b, i, to)) ==
            Lefts(c, b)[i := Left(c, to, if b.pc[i] == CountDown then b.round[i] + 1 else b.round[i])]
  {
    var b' := Next(c, b, i, to);
    assert b'.pc == b.pc[i := to];
    assert forall j :: 0 <= j < c.n && j != i ==> b'.round[j] == b.round[j];
  }

  /** A thread is finished when it has returned from its last call. */
  predicate Finished(c: Shape, b: State)
    requires WellFormed(c, b)
  {
    forall i :: 0 <= i < c.n ==> b.pc[i] == Gate && b.round[i] == c.rounds
  }

  /** The thread that can move when not everybody is finished: one with the fewest rounds. */
  lemma SomeEnabled(c: Shape, b: State, ph: Phase, r: nat) returns (i: nat)
    requires ShapeOk(c) && WellFormed(c, b) && InPhase(c, b, ph, r)
    requires !Finished(c, b)
    requires r <= c.rounds
    ensures i < c.n && Enabled(c, b, i)
    ensures b.pc[i].Work? ==> i == 0 && ph == Working
    ensures forall j :: 0 <= j < c.n ==> b.round[i] <= b.round[j]
  {
    match ph
    case Working => i := 0;
    case Draining =>
      CountNone(Inside(b.round, r));
      i :| 0 <= i < c.n && Inside(b.round, r)[i];
    case Gathering =>
      if j :| 0 <= j < c.n && !Waiting(b.pc)[j] {
        assert !Waits(b.pc[j]);
        i := j;
        if b.pc[j] == Gate && r == c.rounds {
          assert false;
        }
      } else {
        CountAll(Waiting(b.pc));
        i := 0;
        assert Waiting(b.pc)[0];
      }
  }

  // ---------------------------------------------------------------- what the invariant means

  /** Rounds never overlap: a thread past the gate of a round has seen every thread return from
      the round before, and no two threads are ever more than one round apart. */
  lemma NoOverlap(c: Shape, b: State, ph: Phase, r: nat, i: nat, j: nat)
    requires ShapeOk(c) && WellFormed(c, b) && InPhase(c, b, ph, r)
    requires i < c.n && j < c.n
    ensures b.round[i] <= b.round[j] + 1
    ensures b.pc[i] != Gate ==> b.round[j] >= b.round[i]
  {
  }

  /** When nobody is inside a call both counters are back to 0. */
  lemma CountersReset(c: Shape, b: State, ph: Phase, r: nat)
    requires ShapeOk(c) && WellFormed(c, b) && InPhase(c, b, ph, r)
    requires forall i :: 0 <= i < c.n ==> b.pc[i] == Gate
    ensures ph == Gathering && b.active == 0 && b.ready == 0
    ensures forall i :: 0 <= i < c.n ==> b.round[i] == r
  {
    CountNone(Waiting(b.pc));
    if ph == Working {
      assert false;
    } else if ph == Draining {
      CountNone(Inside(b.round, r));
      assert false;
    }
  }
}
