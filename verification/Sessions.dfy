/** Every party at once: N threads of each party run the same program of sends and receives over one
    `parallel_data_transport_t`, whose three barriers share one underlying transport. The transport
    keeps every channel in order; it may refuse a send, and answer a receive with an error or with
    bytes nobody sent, as the calls of the program say. Each thread does one call at a time; threads
    of a party meet only in the barriers, parties only in the channels.
 */
module Sessions {
  import opened Wire
  import opened Counting
  import opened Programs
  import opened Options
  import B = Barrier
  import S = SendRounds
  import R = ReceiveRounds
  import Errors

  /** progs[p] is the program of party p, msgs[p][i][t] what thread i of it sends in call t, and
      answers[p][t] what the transport answers to call t if that is faulty. A program may end at any
      call, as where a party gives up.
   */
  datatype Config = Config(n: nat, progs: seq<seq<Op>>, msgs: seq<seq<seq<Bytes>>>, answers: seq<seq<R.Outcome>>)

  predicate Shaped(c: Config)
  {
    && c.n >= 1 && |c.msgs| == |c.answers| == |c.progs| && ProgramsOk(c.progs)
    && (forall p :: 0 <= p < |c.progs| ==> |c.msgs[p]| == c.n && |c.answers[p]| == |c.progs[p]|)
    && (forall p, i :: 0 <= p < |c.progs| && 0 <= i < c.n ==> |c.msgs[p][i]| == |c.progs[p]|)
  }

  /** The sends of party p, one round for each. */
  function Sending(c: Config, p: nat): S.Config
    requires Shaped(c) && p < |c.progs|
  {
    var at := Where(c.progs[p], Is(Sends));
    S.Config(c.n, |at|, seq(c.n, i requires 0 <= i < c.n =>
      seq(|at|, r requires 0 <= r < |at| => c.msgs[p][i][at[r]])))
  }

  function Of(many: bool): (kind: Kind) { if many then Gathers else Receives }

  /** The receives of party p, or its receive_alls. */
  function Receiving(c: Config, p: nat, many: bool): R.Config
    requires Shaped(c) && p < |c.progs|
  {
    var at := Where(c.progs[p], Is(Of(many)));
    R.Config(c.n, |at|, many,
             seq(|at|, r requires 0 <= r < |at| => Named(c.progs[p][at[r]])),
             seq(|at|, r requires 0 <= r < |at| => seq(c.n, _ => |Named(c.progs[p][at[r]])|)))
  }

  /** The faulty answers are such that the code handles them. */
  predicate AnswersOk(c: Config, p: nat, many: bool)
    requires Shaped(c) && p < |c.progs| && R.ConfigOk(Receiving(c, p, many))
  {
    var at := Where(c.progs[p], Is(Of(many)));
    forall r :: 0 <= r < |at| && Faulty(c.progs[p][at[r]]) ==>
      R.OutcomeOk(Receiving(c, p, many), r, c.answers[p][at[r]])
  }

  predicate ConfigOk(c: Config)
  {
    Shaped(c) && forall p :: 0 <= p < |c.progs| ==> S.ConfigOk(Sending(c, p)) && AllAnswersOk(c, p)
  }

  predicate AllAnswersOk(c: Config, p: nat)
    requires Shaped(c) && p < |c.progs|
  {
    ReceivingOk(c, p, true);
    ReceivingOk(c, p, false);
    AnswersOk(c, p, true) && AnswersOk(c, p, false)
  }

  lemma ReceivingOk(c: Config, p: nat, many: bool)
    requires Shaped(c) && p < |c.progs|
    ensures R.ConfigOk(Receiving(c, p, many))
  {
  }

  function ShapeOf(c: Config, p: nat, kind: Kind): (b: B.Shape)
    requires Shaped(c) && p < |c.progs|
    ensures b.n == c.n
  {
    match kind
    case Sends => S.Shape(Sending(c, p))
    case Receives => R.Shape(Receiving(c, p, false))
    case Gathers => R.Shape(Receiving(c, p, true))
  }

  // ---------------------------------------------------------------- states

  /** The state of each of the three operations of one party. */
  datatype Party = Party(snd: S.State, one: R.State, all: R.State)

  /** chan[q][p] is what the transport holds for p from q. */
  datatype State = State(parties: seq<Party>, chan: seq<seq<seq<Bytes>>>)

  datatype Actor = Actor(p: nat, thread: nat)

  function Rcv(y: Party, many: bool): R.State { if many then y.all else y.one }

  function Bar(y: Party, kind: Kind): B.State
  {
    match kind
    case Sends => y.snd.b
    case Receives => y.one.b
    case Gathers => y.all.b
  }

  predicate BarsOk(c: Config, y: Party) { forall kind :: |Bar(y, kind).pc| == |Bar(y, kind).round| == c.n }

  predicate PartyShaped(c: Config, p: nat, y: Party)
    requires Shaped(c) && p < |c.progs|
  {
    S.WellFormed(Sending(c, p), y.snd) && forall many :: R.WellFormed(Receiving(c, p, many), Rcv(y, many))
  }

  /** The calls thread i has returned from. */
  function Place(c: Config, y: Party, i: nat): nat
    requires i < c.n && BarsOk(c, y)
  {
    Bar(y, Sends).round[i] + Bar(y, Receives).round[i] + Bar(y, Gathers).round[i]
  }

  /** Thread i has done the first calls of the program and is inside no operation but its next call's. */
  predicate InStep(c: Config, p: nat, y: Party, i: nat)
    requires Shaped(c) && p < |c.progs| && i < c.n && BarsOk(c, y)
  {
    var t := Place(c, y, i);
    t <= |c.progs[p]| && forall kind ::
      && Bar(y, kind).round[i] == Before(c.progs[p], t, Is(kind))
      && (Bar(y, kind).pc[i] != B.Gate ==> t < |c.progs[p]| && KindOf(c.progs[p][t]) == kind)
  }

  lemma BarsShaped(c: Config, p: nat, y: Party)
    requires Shaped(c) && p < |c.progs| && PartyShaped(c, p, y)
    ensures BarsOk(c, y)
  {
    assert R.WellFormed(Receiving(c, p, false), Rcv(y, false)) && R.WellFormed(Receiving(c, p, true), Rcv(y, true));
  }

  predicate WellFormed(c: Config, s: State)
    requires Shaped(c)
  {
    && |s.parties| == |s.chan| == |c.progs|
    && (forall q :: 0 <= q < |s.chan| ==> |s.chan[q]| == |c.progs|)
    && (forall p :: 0 <= p < |c.progs| ==> PartyShaped(c, p, s.parties[p]) && PartyInStep(c, p, s.parties[p]))
  }

  predicate PartyInStep(c: Config, p: nat, y: Party)
    requires Shaped(c) && p < |c.progs| && PartyShaped(c, p, y)
  {
    BarsShaped(c, p, y);
    forall i :: 0 <= i < c.n ==> InStep(c, p, y, i)
  }

  /** The call thread i is in or about to make, if any. */
  function Calling(c: Config, s: State, a: Actor): (op: Option<Op>)
    requires Shaped(c) && WellFormed(c, s) && a.p < |c.progs| && a.thread < c.n
    ensures op.Some? ==> OpOk(|c.progs|, op.value)
  {
    BarsShaped(c, a.p, s.parties[a.p]);
    var t := Place(c, s.parties[a.p], a.thread);
    if t < |c.progs[a.p]| then Some(c.progs[a.p][t]) else None
  }

  /** Something has arrived from every party of a call. */
  predicate Arrived(c: Config, s: State, p: nat, op: Op)
    requires Shaped(c) && WellFormed(c, s) && p < |c.progs| && OpOk(|c.progs|, op)
  {
    forall k :: 0 <= k < |Takes(op)| ==> s.chan[Takes(op)[k]][p] != []
  }

  /** Thread 0 at the step that uses the underlying transport. */
  predicate AtTransport(c: Config, s: State, a: Actor)
    requires Shaped(c) && WellFormed(c, s) && a.p < |c.progs| && a.thread < c.n
  {
    BarsShaped(c, a.p, s.parties[a.p]);
    var op := Calling(c, s, a);
    op.Some? && Bar(s.parties[a.p], KindOf(op.value)).pc[a.thread] == B.Work(1)
  }

  /** A thread can move when its call's barrier lets it; a fetch waits for the messages. */
  predicate Enabled(c: Config, s: State, a: Actor)
    requires Shaped(c) && WellFormed(c, s)
  {
    && a.p < |c.progs| && a.thread < c.n
    && var op := Calling(c, s, a);
    && op.Some?
    && (BarsShaped(c, a.p, s.parties[a.p]);
        B.Enabled(ShapeOf(c, a.p, KindOf(op.value)), Bar(s.parties[a.p], KindOf(op.value)), a.thread))
    && (AtTransport(c, s, a) ==> Arrived(c, s, a.p, op.value))
  }

  /** What the transport answers to call t: the oldest bundle of every channel of the call, unless
      the call is faulty.
   */
  function Delivery(c: Config, s: State, p: nat, t: nat): (o: R.Outcome)
    requires Shaped(c) && WellFormed(c, s) && p < |c.progs| && t < |c.progs[p]|
    ensures !Faulty(c.progs[p][t]) ==> o.NetData? && |o.bufs| == |Named(c.progs[p][t])|
  {
    var op := c.progs[p][t];
    if Faulty(op) then c.answers[p][t] else
    R.NetData(seq(|Takes(op)|, k requires 0 <= k < |Takes(op)| =>
      var waiting := s.chan[Takes(op)[k]][p];
      if waiting == [] then [] else waiting[0]))
  }

  /** What the transport answers to a send; whatever it is, no call reports it. */
  function Answered(op: Op): int
    requires op.Send?
  {
    if op.taken then Errors.SUCCESS else Errors.E_GENERAL
  }

  /** The channels after a send of party p that is taken, and after a receive. */
  function Pushed(c: Config, s: State, p: nat, op: Op): seq<seq<seq<Bytes>>>
    requires Shaped(c) && WellFormed(c, s) && p < |c.progs| && OpOk(|c.progs|, op) && op.Send?
  {
    s.chan[p := s.chan[p][op.to := s.chan[p][op.to] + [s.parties[p].snd.bundle]]]
  }

  function Popped(c: Config, s: State, p: nat, op: Op): seq<seq<seq<Bytes>>>
    requires Shaped(c) && WellFormed(c, s) && p < |c.progs| && OpOk(|c.progs|, op) && Arrived(c, s, p, op)
  {
    seq(|c.progs|, q requires 0 <= q < |c.progs| =>
      if q in Takes(op) then s.chan[q][p := s.chan[q][p][1..]] else s.chan[q])
  }

  /** The round of a receiving thread is that of its call. */
  lemma AtRound(c: Config, p: nat, y: Party, i: nat, many: bool)
    requires Shaped(c) && p < |c.progs| && PartyShaped(c, p, y) && PartyInStep(c, p, y) && i < c.n
    ensures R.ConfigOk(Receiving(c, p, many)) && BarsOk(c, y)
    ensures var t, d := Place(c, y, i), Receiving(c, p, many);
            t < |c.progs[p]| && KindOf(c.progs[p][t]) == Of(many) ==>
              && Rcv(y, many).b.round[i] < d.rounds
              && Where(c.progs[p], Is(Of(many)))[Rcv(y, many).b.round[i]] == t
              && d.senders[Rcv(y, many).b.round[i]] == Named(c.progs[p][t])
  {
    BarsShaped(c, p, y);
    ReceivingOk(c, p, many);
    assert InStep(c, p, y, i);
    var t := Place(c, y, i);
    assert Rcv(y, many).b == Bar(y, Of(many));
    if t < |c.progs[p]| && KindOf(c.progs[p][t]) == Of(many) { WhereAt(c.progs[p], t, Is(Of(many))); }
  }

  /** The party after a step of one of its two receive operations. */
  function WithRcv(y: Party, many: bool, rcv: R.State): Party { if many then y.(all := rcv) else y.(one := rcv) }

  /** What the transport answers, or would answer, to the call thread i is in. */
  function AnswerNow(c: Config, s: State, a: Actor): R.Outcome
    requires Shaped(c) && WellFormed(c, s) && a.p < |c.progs| && a.thread < c.n && Calling(c, s, a).Some?
  {
    BarsShaped(c, a.p, s.parties[a.p]);
    Delivery(c, s, a.p, Place(c, s.parties[a.p], a.thread))
  }

  /** Every answer to a call is one that the code handles. */
  lemma DeliveryOk(c: Config, s: State, a: Actor)
    requires ConfigOk(c) && WellFormed(c, s) && Enabled(c, s, a) && !Calling(c, s, a).value.Send?
    ensures var y, many := s.parties[a.p], Calling(c, s, a).value.ReceiveAll?;
            && BarsOk(c, y) && R.ConfigOk(Receiving(c, a.p, many))
            && Rcv(y, many).b.round[a.thread] < Receiving(c, a.p, many).rounds
            && R.OutcomeOk(Receiving(c, a.p, many), Rcv(y, many).b.round[a.thread], AnswerNow(c, s, a))
  {
    var y, many := s.parties[a.p], Calling(c, s, a).value.ReceiveAll?;
    BarsShaped(c, a.p, y);
    AtRound(c, a.p, y, a.thread, many);
    assert AllAnswersOk(c, a.p) && AnswersOk(c, a.p, many);
  }

  /** One step of one thread. */
  function Next(c: Config, s: State, a: Actor): State
    requires ConfigOk(c) && WellFormed(c, s) && Enabled(c, s, a)
  {
    var y, op := s.parties[a.p], Calling(c, s, a).value;
    if op.Send? then
      State(s.parties[a.p := y.(snd := S.Next(Sending(c, a.p), y.snd, a.thread, Answered(op)))],
            if AtTransport(c, s, a) && op.taken then Pushed(c, s, a.p, op) else s.chan)
    else
      var many := op.ReceiveAll?;
      DeliveryOk(c, s, a);
      var rcv := R.Next(Receiving(c, a.p, many), Rcv(y, many), a.thread, AnswerNow(c, s, a));
      State(s.parties[a.p := WithRcv(y, many, rcv)],
            if AtTransport(c, s, a) then Popped(c, s, a.p, op) else s.chan)
  }

  function Init(c: Config): State
    requires Shaped(c)
  {
    State(seq(|c.progs|, p requires 0 <= p < |c.progs| =>
            Party(S.Init(Sending(c, p)), R.Init(Receiving(c, p, false)), R.Init(Receiving(c, p, true)))),
          seq(|c.progs|, _ => seq(|c.progs|, _ => [])))
  }

  // ---------------------------------------------------------------- the invariant

  /** The phase and round of each operation of one party. */
  datatype Mark = Mark(ph: B.Phase, r: nat)

  datatype Marks = Marks(snd: Mark, one: Mark, all: Mark)

  function MarkOf(m: Marks, kind: Kind): Mark
  {
    match kind
    case Sends => m.snd
    case Receives => m.one
    case Gathers => m.all
  }

  predicate PartyInv(c: Config, p: nat, y: Party, m: Marks)
    requires Shaped(c) && p < |c.progs|
  {
    && S.Inv(Sending(c, p), y.snd, m.snd.ph, m.snd.r)
    && forall many :: R.Inv(Receiving(c, p, many), Rcv(y, many), MarkOf(m, Of(many)).ph, MarkOf(m, Of(many)).r)
  }

  /** Uses of the underlying transport so far. */
  function Handed(y: Party, kind: Kind): nat
  {
    match kind
    case Sends => |y.snd.wire|
    case Receives => |y.one.net|
    case Gathers => |y.all.net|
  }

  function Done(y: Party): nat { Handed(y, Sends) + Handed(y, Receives) + Handed(y, Gathers) }

  /** Thread 0 is past its use of the transport in this call. */
  predicate Past(pc: B.Pc) { pc.Release? || pc.Read? || pc.CountDown? || (pc.Work? && pc.step >= 2) }

  lemma SendPast(c: S.Config, s: S.State, ph: B.Phase, r: nat)
    requires S.Inv(c, s, ph, r)
    ensures |s.wire| == s.b.round[0] + if Past(s.b.pc[0]) then 1 else 0
  {
  }

  lemma ReceivePast(c: R.Config, s: R.State, ph: B.Phase, r: nat)
    requires R.Inv(c, s, ph, r)
    ensures |s.net| == s.b.round[0] + if Past(s.b.pc[0]) then 1 else 0
  {
  }

  lemma HandedPast(c: Config, p: nat, y: Party, m: Marks, kind: Kind)
    requires Shaped(c) && p < |c.progs| && PartyShaped(c, p, y) && PartyInv(c, p, y, m)
    ensures BarsOk(c, y) && Handed(y, kind) == Bar(y, kind).round[0] + if Past(Bar(y, kind).pc[0]) then 1 else 0
  {
    BarsShaped(c, p, y);
    match kind
    case Sends => SendPast(Sending(c, p), y.snd, m.snd.ph, m.snd.r);
    case Receives =>
      assert y.one == Rcv(y, false) && m.one == MarkOf(m, Of(false));
      ReceivePast(Receiving(c, p, false), y.one, m.one.ph, m.one.r);
    case Gathers =>
      assert y.all == Rcv(y, true) && m.all == MarkOf(m, Of(true));
      ReceivePast(Receiving(c, p, true), y.all, m.all.ph, m.all.r);
  }

  /** The party has used the transport for the calls thread 0 has returned from, in the order of the
      program, and for the one it is in once it is past that step.
   */
  lemma DonePlace(c: Config, p: nat, y: Party, m: Marks)
    requires Shaped(c) && p < |c.progs| && PartyShaped(c, p, y) && PartyInStep(c, p, y) && PartyInv(c, p, y, m)
    ensures BarsOk(c, y) && Done(y) <= |c.progs[p]|
    ensures var t := Place(c, y, 0);
            Done(y) == t + if t < |c.progs[p]| && Past(Bar(y, KindOf(c.progs[p][t])).pc[0]) then 1 else 0
    ensures forall kind :: Handed(y, kind) == Before(c.progs[p], Done(y), Is(kind))
  {
    BarsShaped(c, p, y);
    assert InStep(c, p, y, 0);
    var u := DoneNow(c, p, y);
    forall kind ensures Handed(y, kind) == Before(c.progs[p], u, Is(kind)) { HandedNow(c, p, y, m, u, kind); }
    KindsAddUp(c.progs[p], u);
  }

  /** Place of thread 0, and one more if it is past the transport. */
  function DoneNow(c: Config, p: nat, y: Party): (u: nat)
    requires Shaped(c) && p < |c.progs| && BarsOk(c, y) && Place(c, y, 0) <= |c.progs[p]|
    ensures u <= |c.progs[p]|
  {
    var t := Place(c, y, 0);
    t + if t < |c.progs[p]| && Past(Bar(y, KindOf(c.progs[p][t])).pc[0]) then 1 else 0
  }

  lemma HandedNow(c: Config, p: nat, y: Party, m: Marks, u: nat, kind: Kind)
    requires Shaped(c) && p < |c.progs| && PartyShaped(c, p, y) && PartyInv(c, p, y, m)
    requires BarsOk(c, y) && InStep(c, p, y, 0) && u == DoneNow(c, p, y)
    ensures Handed(y, kind) == Before(c.progs[p], u, Is(kind))
  {
    HandedPast(c, p, y, m, kind);
    CallNow(c, p, y, u, Place(c, y, 0), kind);
  }

  lemma CallNow(c: Config, p: nat, y: Party, u: nat, t: nat, kind: Kind)
    requires Shaped(c) && p < |c.progs| && BarsOk(c, y) && InStep(c, p, y, 0) && u == DoneNow(c, p, y)
    requires t == Place(c, y, 0)
    ensures Before(c.progs[p], u, Is(kind)) == Bar(y, kind).round[0] + if Past(Bar(y, kind).pc[0]) then 1 else 0
  {
    assert Bar(y, kind).round[0] == Before(c.progs[p], t, Is(kind));
    if t < |c.progs[p]| { CountNext(c.progs[p], t, Is(kind)); }
  }

  /** What the threads of party q send in call t. */
  function Row(c: Config, q: nat, t: nat): (ms: seq<Bytes>)
    requires Shaped(c) && q < |c.progs| && t < |c.progs[q]|
    ensures |ms| == c.n
  {
    seq(c.n, i requires 0 <= i < c.n => c.msgs[q][i][t])
  }

  lemma RowIsRound(c: Config, q: nat, t: nat)
    requires ConfigOk(c) && q < |c.progs| && t < |c.progs[q]| && c.progs[q][t].Send?
    ensures var r := Before(c.progs[q], t, Is(Sends));
            r < Sending(c, q).rounds && S.RoundMessages(Sending(c, q), r) == Row(c, q, t)
    ensures Writable(Bufs(Row(c, q, t))) && c.n <= MAX_CONTAINER_ELEMENTS
  {
    WhereAt(c.progs[q], t, Is(Sends));
    var r := Before(c.progs[q], t, Is(Sends));
    assert S.RoundMessages(Sending(c, q), r) == Row(c, q, t);
  }

  /** The bundle of a send. */
  function Sealed(c: Config, q: nat, t: nat): Bytes
    requires ConfigOk(c) && q < |c.progs| && t < |c.progs[q]| && c.progs[q][t].Send?
  {
    RowIsRound(c, q, t);
    Bundle(Row(c, q, t))
  }

  predicate AllSends(prog: seq<Op>, at: seq<nat>) { forall k :: 0 <= k < |at| ==> at[k] < |prog| && prog[at[k]].Send? }

  /** The bundles of some sends. */
  function Bundles(c: Config, q: nat, at: seq<nat>): (b: seq<Bytes>)
    requires ConfigOk(c) && q < |c.progs| && AllSends(c.progs[q], at)
    ensures |b| == |at|
  {
    if at == [] then [] else [Sealed(c, q, at[0])] + Bundles(c, q, at[1..])
  }

  function PlacesOf(c: Config, s: State): (a: Places)
    requires |s.parties| == |c.progs|
    ensures |a| == |c.progs|
  {
    seq(|c.progs|, p requires 0 <= p < |c.progs| => Done(s.parties[p]))
  }

  /** The channel holds what has been sent and not yet been taken. */
  predicate ChannelOk(c: Config, a: Places, q: nat, p: nat, held: seq<Bytes>)
    requires ConfigOk(c) && PlacesOk(c.progs, a) && q < |c.progs| && p < |c.progs|
  {
    Holds(c, q, Before(c.progs[p], a[p], From(q)), Where(c.progs[q][..a[q]], To(p)), held)
  }

  predicate Holds(c: Config, q: nat, taken: nat, sent: seq<nat>, held: seq<Bytes>)
    requires ConfigOk(c) && q < |c.progs|
  {
    taken <= |sent| && AllSends(c.progs[q], sent) && held == Bundles(c, q, sent[taken..])
  }

  predicate ChannelsOk(c: Config, s: State)
    requires ConfigOk(c) && WellFormed(c, s)
  {
    PlacesOk(c.progs, PlacesOf(c, s)) &&
    forall q, p :: 0 <= q < |c.progs| && 0 <= p < |c.progs| ==> ChannelOk(c, PlacesOf(c, s), q, p, s.chan[q][p])
  }

  /** Every party that call t of p waits for sends p enough for it. */
  predicate Matched(c: Config, p: nat, t: nat)
    requires Shaped(c) && p < |c.progs| && t < |c.progs[p]|
  {
    forall k :: 0 <= k < |Takes(c.progs[p][t])| ==>
      Before(c.progs[p], t, From(Takes(c.progs[p][t])[k])) < |Where(c.progs[Takes(c.progs[p][t])[k]], To(p))|
  }

  /** The send that call t of p takes from q: q's k-th to p, if it is p's k-th from q. */
  function Source(c: Config, p: nat, t: nat, k: nat): (u: nat)
    requires Shaped(c) && p < |c.progs| && t < |c.progs[p]| && Matched(c, p, t) && k < |Takes(c.progs[p][t])|
    ensures var q := Takes(c.progs[p][t])[k]; u < |c.progs[q]| && c.progs[q][u] == Send(p, true)
  {
    var q := Takes(c.progs[p][t])[k];
    Where(c.progs[q], To(p))[Before(c.progs[p], t, From(q))]
  }

  function Answer(c: Config, p: nat, t: nat): R.Outcome
    requires ConfigOk(c) && p < |c.progs| && t < |c.progs[p]| && Matched(c, p, t)
  {
    var op := c.progs[p][t];
    if Faulty(op) then c.answers[p][t] else
    R.NetData(seq(|Takes(op)|, k requires 0 <= k < |Takes(op)| => Sealed(c, Takes(op)[k], Source(c, p, t, k))))
  }

  /** Every fetch got what its call is matched with. */
  predicate FetchesOk(c: Config, p: nat, y: Party, many: bool)
    requires ConfigOk(c) && p < |c.progs|
  {
    var at := Where(c.progs[p], Is(Of(many)));
    |Rcv(y, many).net| <= |at| && forall k :: 0 <= k < |Rcv(y, many).net| ==> Fetched(c, p, at[k], Rcv(y, many).net[k])
  }

  /** Call t got what it is matched with. */
  predicate Fetched(c: Config, p: nat, t: nat, o: R.Outcome)
    requires ConfigOk(c) && p < |c.progs| && t < |c.progs[p]|
  {
    Matched(c, p, t) && o == Answer(c, p, t)
  }

  predicate Inv(c: Config, s: State, ms: seq<Marks>)
  {
    && ConfigOk(c) && WellFormed(c, s) && |ms| == |c.progs|
    && (forall p :: 0 <= p < |c.progs| ==> PartyInv(c, p, s.parties[p], ms[p]))
    && ChannelsOk(c, s)
    && (forall p, many :: 0 <= p < |c.progs| ==> FetchesOk(c, p, s.parties[p], many))
  }

  // ---------------------------------------------------------------- every step keeps the invariant

  /** A step in the operation of the current call keeps every thread in step. */
  lemma InStepKept(c: Config, p: nat, y: Party, y': Party, kind: Kind, i: nat, to: B.Pc)
    requires Shaped(c) && p < |c.progs| && PartyShaped(c, p, y) && PartyInStep(c, p, y) && PartyShaped(c, p, y')
    requires i < c.n && BarsOk(c, y)
    requires Place(c, y, i) < |c.progs[p]| && KindOf(c.progs[p][Place(c, y, i)]) == kind
    requires B.Follows(ShapeOf(c, p, kind), i, Bar(y, kind).pc[i], to)
    requires Bar(y', kind) == B.Next(ShapeOf(c, p, kind), Bar(y, kind), i, to)
    requires forall other :: other != kind ==> Bar(y', other) == Bar(y, other)
    ensures PartyInStep(c, p, y')
    ensures BarsOk(c, y')
    ensures forall j :: 0 <= j < c.n ==>
              Place(c, y', j) == Place(c, y, j) + if j == i && Bar(y, kind).pc[i] == B.CountDown then 1 else 0
  {
    BarsShaped(c, p, y);
    BarsShaped(c, p, y');
    forall j | 0 <= j < c.n
      ensures Place(c, y', j) == Place(c, y, j) + if j == i && Bar(y, kind).pc[i] == B.CountDown then 1 else 0
      ensures InStep(c, p, y', j)
    {
      assert InStep(c, p, y, j);
      if j == i && Bar(y, kind).pc[i] == B.CountDown {
        Returned(c, p, y, y', kind, i);
      } else {
        StillThere(c, p, y, y', kind, j);
      }
    }
  }

  lemma StillThere(c: Config, p: nat, y: Party, y': Party, kind: Kind, j: nat)
    requires Shaped(c) && p < |c.progs| && j < c.n && BarsOk(c, y) && BarsOk(c, y') && InStep(c, p, y, j)
    requires Bar(y', kind).round[j] == Bar(y, kind).round[j]
    requires Bar(y', kind).pc[j] == Bar(y, kind).pc[j] ||
             (Place(c, y, j) < |c.progs[p]| && KindOf(c.progs[p][Place(c, y, j)]) == kind)
    requires forall other :: other != kind ==> Bar(y', other) == Bar(y, other)
    ensures Place(c, y', j) == Place(c, y, j) && InStep(c, p, y', j)
  {
    assert forall k :: Bar(y', k).round[j] == Bar(y, k).round[j];
  }

  lemma Returned(c: Config, p: nat, y: Party, y': Party, kind: Kind, i: nat)
    requires Shaped(c) && p < |c.progs| && i < c.n && BarsOk(c, y) && BarsOk(c, y') && InStep(c, p, y, i)
    requires Place(c, y, i) < |c.progs[p]| && KindOf(c.progs[p][Place(c, y, i)]) == kind
    requires Bar(y', kind).round[i] == Bar(y, kind).round[i] + 1 && Bar(y', kind).pc[i] == B.Gate
    requires forall other :: other != kind ==> Bar(y', other) == Bar(y, other)
    ensures Place(c, y', i) == Place(c, y, i) + 1 && InStep(c, p, y', i)
  {
    var t := Place(c, y, i);
    PlaceNext(c, y, y', kind, i);
    var u := Place(c, y', i);
    forall k ensures Bar(y', k).pc[i] == B.Gate && Bar(y', k).round[i] == Before(c.progs[p], u, Is(k)) {
      ReturnedKind(c, p, y, y', kind, i, t, k);
    }
  }

  lemma ReturnedKind(c: Config, p: nat, y: Party, y': Party, kind: Kind, i: nat, t: nat, k: Kind)
    requires Shaped(c) && p < |c.progs| && i < c.n && BarsOk(c, y) && BarsOk(c, y') && InStep(c, p, y, i)
    requires t == Place(c, y, i) < |c.progs[p]| && KindOf(c.progs[p][t]) == kind
    requires Bar(y', kind).round[i] == Bar(y, kind).round[i] + 1 && Bar(y', kind).pc[i] == B.Gate
    requires k != kind ==> Bar(y', k) == Bar(y, k)
    ensures Bar(y', k).pc[i] == B.Gate && Bar(y', k).round[i] == Before(c.progs[p], t + 1, Is(k))
  {
    CountNext(c.progs[p], t, Is(k));
  }

  lemma PlaceNext(c: Config, y: Party, y': Party, kind: Kind, i: nat)
    requires i < c.n && BarsOk(c, y) && BarsOk(c, y') && Bar(y', kind).round[i] == Bar(y, kind).round[i] + 1
    requires forall other :: other != kind ==> Bar(y', other) == Bar(y, other)
    ensures Place(c, y', i) == Place(c, y, i) + 1
  {
    match kind
    case Sends => assert Bar(y', Receives) == Bar(y, Receives) && Bar(y', Gathers) == Bar(y, Gathers);
    case Receives => assert Bar(y', Sends) == Bar(y, Sends) && Bar(y', Gathers) == Bar(y, Gathers);
    case Gathers => assert Bar(y', Sends) == Bar(y, Sends) && Bar(y', Receives) == Bar(y, Receives);
  }

  function WithMark(m: Marks, kind: Kind, k: Mark): Marks
  {
    match kind
    case Sends => m.(snd := k)
    case Receives => m.(one := k)
    case Gathers => m.(all := k)
  }

  /** The mark of an operation after a step of thread i. */
  function MarkAfter(c: Config, p: nat, y: Party, kind: Kind, i: nat, k: Mark): Mark
    requires Shaped(c) && p < |c.progs| && BarsOk(c, y) && i < c.n
  {
    var (ph, r) := B.NextPhase(ShapeOf(c, p, kind), Bar(y, kind), i, k.ph, k.r);
    Mark(ph, r)
  }

  /** The marks of the party after a step of one of its threads. */
  function NextMarks(c: Config, s: State, a: Actor, m: Marks): Marks
    requires Shaped(c) && WellFormed(c, s) && Enabled(c, s, a)
  {
    BarsShaped(c, a.p, s.parties[a.p]);
    var kind := KindOf(Calling(c, s, a).value);
    WithMark(m, kind, MarkAfter(c, a.p, s.parties[a.p], kind, a.thread, MarkOf(m, kind)))
  }

  /** What a step of a party leaves: its own invariants, and one use of the transport more exactly
      when the thread was there, which is thread 0 in the first call not yet done.
   */
  predicate Stepped(c: Config, s: State, a: Actor, m: Marks)
    requires ConfigOk(c) && WellFormed(c, s) && Enabled(c, s, a)
  {
    var y, y', kind := s.parties[a.p], Next(c, s, a).parties[a.p], KindOf(Calling(c, s, a).value);
    && PartyShaped(c, a.p, y') && PartyInStep(c, a.p, y') && PartyInv(c, a.p, y', NextMarks(c, s, a, m))
    && (forall k :: Handed(y', k) == Handed(y, k) + if k == kind && AtTransport(c, s, a) then 1 else 0)
    && (AtTransport(c, s, a) ==>
          a.thread == 0 && Done(y) < |c.progs[a.p]| && c.progs[a.p][Done(y)] == Calling(c, s, a).value)
  }

  lemma AtTransportDone(c: Config, s: State, a: Actor, m: Marks)
    requires ConfigOk(c) && WellFormed(c, s) && Enabled(c, s, a) && PartyInv(c, a.p, s.parties[a.p], m)
    requires AtTransport(c, s, a)
    ensures a.thread == 0
    ensures Done(s.parties[a.p]) < |c.progs[a.p]|
    ensures c.progs[a.p][Done(s.parties[a.p])] == Calling(c, s, a).value
    ensures !Calling(c, s, a).value.Send? ==> AnswerNow(c, s, a) == Delivery(c, s, a.p, Done(s.parties[a.p]))
  {
    var y := s.parties[a.p];
    var op := Calling(c, s, a).value;
    BarsShaped(c, a.p, y);
    assert op == c.progs[a.p][Place(c, y, a.thread)];
    WorkerIsFirst(c, a.p, y, m, KindOf(op), a.thread);
    DoneAtWork(c, a.p, y, m, KindOf(op));
  }

  lemma DoneAtWork(c: Config, p: nat, y: Party, m: Marks, kind: Kind)
    requires Shaped(c) && p < |c.progs| && PartyShaped(c, p, y) && PartyInStep(c, p, y) && PartyInv(c, p, y, m)
    requires BarsOk(c, y) && Place(c, y, 0) < |c.progs[p]|
    requires KindOf(c.progs[p][Place(c, y, 0)]) == kind && Bar(y, kind).pc[0] == B.Work(1)
    ensures Done(y) == Place(c, y, 0)
  {
    DonePlace(c, p, y, m);
  }

  lemma WorkerIsFirst(c: Config, p: nat, y: Party, m: Marks, kind: Kind, i: nat)
    requires Shaped(c) && p < |c.progs| && PartyShaped(c, p, y) && PartyInv(c, p, y, m) && i < c.n
    requires BarsOk(c, y) && Bar(y, kind).pc[i].Work?
    ensures i == 0
  {
    match kind
    case Sends => B.WorkerIsFirst(ShapeOf(c, p, kind), y.snd.b, m.snd.ph, m.snd.r, i);
    case Receives =>
      assert y.one == Rcv(y, false) && m.one == MarkOf(m, Of(false));
      B.WorkerIsFirst(ShapeOf(c, p, kind), y.one.b, m.one.ph, m.one.r, i);
    case Gathers =>
      assert y.all == Rcv(y, true) && m.all == MarkOf(m, Of(true));
      B.WorkerIsFirst(ShapeOf(c, p, kind), y.all.b, m.all.ph, m.all.r, i);
  }

  /** A step of `send` on its own. */
  lemma SendAlone(c: Config, p: nat, y: Party, i: nat, m: Marks, o: int)
    requires ConfigOk(c) && p < |c.progs| && PartyShaped(c, p, y) && PartyInv(c, p, y, m) && BarsOk(c, y) && i < c.n
    requires S.Enabled(Sending(c, p), y.snd, i)
    ensures var y' := y.(snd := S.Next(Sending(c, p), y.snd, i, o));
            && PartyShaped(c, p, y')
            && PartyInv(c, p, y', WithMark(m, Sends, MarkAfter(c, p, y, Sends, i, m.snd)))
            && y'.snd.b == B.Next(ShapeOf(c, p, Sends), y.snd.b, i, S.Successor(i, y.snd.b.pc[i]))
            && B.Follows(ShapeOf(c, p, Sends), i, y.snd.b.pc[i], S.Successor(i, y.snd.b.pc[i]))
  {
    var d := Sending(c, p);
    var y' := y.(snd := S.Next(d, y.snd, i, o));
    S.InvStep(d, y.snd, i, o, m.snd.ph, m.snd.r);
    S.SuccessorFollows(d, y.snd, i, m.snd.ph, m.snd.r);
    var m' := WithMark(m, Sends, MarkAfter(c, p, y, Sends, i, m.snd));
    forall many ensures Rcv(y', many) == Rcv(y, many) && MarkOf(m', Of(many)) == MarkOf(m, Of(many)) {}
  }

  lemma SendHands(c: S.Config, s: S.State, i: nat, o: int, ph: B.Phase, r: nat)
    requires S.Inv(c, s, ph, r) && i < c.n && S.Enabled(c, s, i)
    ensures |S.Next(c, s, i, o).wire| == |s.wire| + if s.b.pc[i] == B.Work(1) then 1 else 0
  {
    B.PositionOk(S.Shape(c), s.b, ph, r, i);
  }

  /** The same step within the party. */
  lemma SendWithin(c: Config, p: nat, y: Party, i: nat, m: Marks, o: int)
    requires ConfigOk(c) && p < |c.progs| && PartyShaped(c, p, y) && PartyInStep(c, p, y) && PartyInv(c, p, y, m)
    requires BarsOk(c, y) && i < c.n && Place(c, y, i) < |c.progs[p]| && KindOf(c.progs[p][Place(c, y, i)]) == Sends
    requires S.Enabled(Sending(c, p), y.snd, i)
    ensures var y' := y.(snd := S.Next(Sending(c, p), y.snd, i, o));
            && PartyShaped(c, p, y') && PartyInStep(c, p, y')
            && PartyInv(c, p, y', WithMark(m, Sends, MarkAfter(c, p, y, Sends, i, m.snd)))
  {
    SendAlone(c, p, y, i, m, o);
    InStepKept(c, p, y, y.(snd := S.Next(Sending(c, p), y.snd, i, o)), Sends, i, S.Successor(i, y.snd.b.pc[i]));
  }

  /** What it hands over. */
  lemma SendNet(c: Config, p: nat, y: Party, i: nat, m: Marks, o: int)
    requires ConfigOk(c) && p < |c.progs| && PartyShaped(c, p, y) && PartyInv(c, p, y, m) && BarsOk(c, y) && i < c.n
    requires S.Enabled(Sending(c, p), y.snd, i)
    ensures forall k :: Handed(y.(snd := S.Next(Sending(c, p), y.snd, i, o)), k) ==
                        Handed(y, k) + if k == Sends && y.snd.b.pc[i] == B.Work(1) then 1 else 0
  {
    SendHands(Sending(c, p), y.snd, i, o, m.snd.ph, m.snd.r);
  }

  /** A step of a sending thread is a step of its operation. */
  lemma NextSends(c: Config, s: State, a: Actor)
    requires ConfigOk(c) && WellFormed(c, s) && Enabled(c, s, a) && Calling(c, s, a).value.Send?
    ensures var y, d := s.parties[a.p], Sending(c, a.p);
            && BarsOk(c, y) && Place(c, y, a.thread) < |c.progs[a.p]|
            && KindOf(c.progs[a.p][Place(c, y, a.thread)]) == Sends && S.Enabled(d, y.snd, a.thread)
            && Next(c, s, a).parties[a.p] == y.(snd := S.Next(d, y.snd, a.thread, Answered(Calling(c, s, a).value)))
            && (AtTransport(c, s, a) <==> y.snd.b.pc[a.thread] == B.Work(1))
  {
    BarsShaped(c, a.p, s.parties[a.p]);
  }

  lemma SendStep(c: Config, s: State, a: Actor, m: Marks)
    requires ConfigOk(c) && WellFormed(c, s) && Enabled(c, s, a) && PartyInv(c, a.p, s.parties[a.p], m)
    requires Calling(c, s, a).value.Send?
    ensures Stepped(c, s, a, m)
    ensures AtTransport(c, s, a) ==> s.parties[a.p].snd.bundle == Sealed(c, a.p, Done(s.parties[a.p]))
  {
    var o := Answered(Calling(c, s, a).value);
    NextSends(c, s, a);
    SendWithin(c, a.p, s.parties[a.p], a.thread, m, o);
    SendNet(c, a.p, s.parties[a.p], a.thread, m, o);
    if AtTransport(c, s, a) {
      AtTransportDone(c, s, a, m);
      BundleIsRow(c, a.p, s.parties[a.p], m);
    }
  }

  /** A step of `receive` or `receive_all` on its own. */
  lemma ReceiveAlone(c: Config, p: nat, y: Party, i: nat, m: Marks, many: bool, o: R.Outcome)
    requires ConfigOk(c) && p < |c.progs| && PartyShaped(c, p, y) && PartyInv(c, p, y, m) && BarsOk(c, y) && i < c.n
    requires R.ConfigOk(Receiving(c, p, many)) && R.WellFormed(Receiving(c, p, many), Rcv(y, many))
    requires R.Enabled(Receiving(c, p, many), Rcv(y, many), i) && Rcv(y, many).b.round[i] < Receiving(c, p, many).rounds
    requires R.OutcomeOk(Receiving(c, p, many), Rcv(y, many).b.round[i], o)
    ensures var rcv := R.Next(Receiving(c, p, many), Rcv(y, many), i, o);
            && PartyShaped(c, p, WithRcv(y, many, rcv))
            && PartyInv(c, p, WithRcv(y, many, rcv),
                        WithMark(m, Of(many), MarkAfter(c, p, y, Of(many), i, MarkOf(m, Of(many)))))
            && |rcv.b.pc| == c.n
            && rcv.b == B.Next(ShapeOf(c, p, Of(many)), Rcv(y, many).b, i, rcv.b.pc[i])
            && B.Follows(ShapeOf(c, p, Of(many)), i, Rcv(y, many).b.pc[i], rcv.b.pc[i])
  {
    var d, k := Receiving(c, p, many), MarkOf(m, Of(many));
    var y' := WithRcv(y, many, R.Next(d, Rcv(y, many), i, o));
    R.InvStep(d, Rcv(y, many), i, o, k.ph, k.r);
    R.StepFollows(d, Rcv(y, many), i, o, k.ph, k.r);
    var m' := WithMark(m, Of(many), MarkAfter(c, p, y, Of(many), i, k));
    forall other | other != many
      ensures Rcv(y', other) == Rcv(y, other) && MarkOf(m', Of(other)) == MarkOf(m, Of(other))
    {
    }
  }

  lemma ReceiveHands(c: R.Config, s: R.State, i: nat, o: R.Outcome, ph: B.Phase, r: nat)
    requires R.Inv(c, s, ph, r) && i < c.n && R.Enabled(c, s, i)
    requires s.b.round[i] < c.rounds && R.OutcomeOk(c, s.b.round[i], o)
    ensures R.Next(c, s, i, o).net == if s.b.pc[i] == B.Work(1) then s.net + [o] else s.net
  {
    B.PositionOk(R.Shape(c), s.b, ph, r, i);
  }

  lemma HandedAfter(y: Party, many: bool, rcv: R.State, more: nat)
    requires |rcv.net| == |Rcv(y, many).net| + more
    ensures forall k :: Handed(WithRcv(y, many, rcv), k) == Handed(y, k) + if k == Of(many) then more else 0
  {
  }

  /** The same step within the party. */
  lemma ReceiveWithin(c: Config, p: nat, y: Party, i: nat, many: bool, rcv: R.State)
    requires ConfigOk(c) && p < |c.progs| && PartyShaped(c, p, y) && PartyInStep(c, p, y)
    requires BarsOk(c, y) && i < c.n && Place(c, y, i) < |c.progs[p]| && KindOf(c.progs[p][Place(c, y, i)]) == Of(many)
    requires PartyShaped(c, p, WithRcv(y, many, rcv)) && |rcv.b.pc| == c.n
    requires rcv.b == B.Next(ShapeOf(c, p, Of(many)), Rcv(y, many).b, i, rcv.b.pc[i])
    requires B.Follows(ShapeOf(c, p, Of(many)), i, Rcv(y, many).b.pc[i], rcv.b.pc[i])
    ensures PartyInStep(c, p, WithRcv(y, many, rcv))
  {
    InStepKept(c, p, y, WithRcv(y, many, rcv), Of(many), i, rcv.b.pc[i]);
  }

  /** What it fetches. */
  lemma ReceiveNet(c: Config, p: nat, y: Party, i: nat, m: Marks, many: bool, o: R.Outcome)
    requires ConfigOk(c) && p < |c.progs| && PartyShaped(c, p, y) && PartyInv(c, p, y, m) && BarsOk(c, y) && i < c.n
    requires R.ConfigOk(Receiving(c, p, many)) && R.WellFormed(Receiving(c, p, many), Rcv(y, many))
    requires R.Enabled(Receiving(c, p, many), Rcv(y, many), i) && Rcv(y, many).b.round[i] < Receiving(c, p, many).rounds
    requires R.OutcomeOk(Receiving(c, p, many), Rcv(y, many).b.round[i], o)
    ensures var y' := WithRcv(y, many, R.Next(Receiving(c, p, many), Rcv(y, many), i, o));
            && Rcv(y', many).net ==
               (if Bar(y, Of(many)).pc[i] == B.Work(1) then Rcv(y, many).net + [o] else Rcv(y, many).net)
            && forall k ::
                 Handed(y', k) == Handed(y, k) + if k == Of(many) && Bar(y, Of(many)).pc[i] == B.Work(1) then 1 else 0
  {
    ReceiveHands(Receiving(c, p, many), Rcv(y, many), i, o, MarkOf(m, Of(many)).ph, MarkOf(m, Of(many)).r);
    HandedAfter(y, many, R.Next(Receiving(c, p, many), Rcv(y, many), i, o),
                if Bar(y, Of(many)).pc[i] == B.Work(1) then 1 else 0);
  }

  /** A step of a receiving thread is a step of its operation. */
  lemma NextReceives(c: Config, s: State, a: Actor)
    requires ConfigOk(c) && WellFormed(c, s) && Enabled(c, s, a) && !Calling(c, s, a).value.Send?
    ensures var y, op := s.parties[a.p], Calling(c, s, a).value;
            var many := op.ReceiveAll?;
            var d := Receiving(c, a.p, many);
            && BarsOk(c, y) && Place(c, y, a.thread) < |c.progs[a.p]| && op == c.progs[a.p][Place(c, y, a.thread)]
            && KindOf(op) == Of(many)
            && R.ConfigOk(d) && R.WellFormed(d, Rcv(y, many)) && R.Enabled(d, Rcv(y, many), a.thread)
            && Rcv(y, many).b.round[a.thread] < d.rounds
            && R.OutcomeOk(d, Rcv(y, many).b.round[a.thread], AnswerNow(c, s, a))
            && Next(c, s, a).parties[a.p] == WithRcv(y, many, R.Next(d, Rcv(y, many), a.thread, AnswerNow(c, s, a)))
            && (AtTransport(c, s, a) <==> Bar(y, Of(many)).pc[a.thread] == B.Work(1))
  {
    BarsShaped(c, a.p, s.parties[a.p]);
    DeliveryOk(c, s, a);
  }

  lemma ReceiveStep(c: Config, s: State, a: Actor, m: Marks)
    requires ConfigOk(c) && WellFormed(c, s) && Enabled(c, s, a) && PartyInv(c, a.p, s.parties[a.p], m)
    requires !Calling(c, s, a).value.Send?
    ensures Stepped(c, s, a, m)
    ensures var many := Calling(c, s, a).value.ReceiveAll?;
            var net := Rcv(s.parties[a.p], many).net;
            Rcv(Next(c, s, a).parties[a.p], many).net ==
            if AtTransport(c, s, a) then net + [AnswerNow(c, s, a)] else net
  {
    var op := Calling(c, s, a).value;
    NextReceives(c, s, a);
    var rcv := Rcv(Next(c, s, a).parties[a.p], op.ReceiveAll?);
    ReceiveAlone(c, a.p, s.parties[a.p], a.thread, m, op.ReceiveAll?, AnswerNow(c, s, a));
    ReceiveWithin(c, a.p, s.parties[a.p], a.thread, op.ReceiveAll?, rcv);
    ReceiveNet(c, a.p, s.parties[a.p], a.thread, m, op.ReceiveAll?, AnswerNow(c, s, a));
    if AtTransport(c, s, a) { AtTransportDone(c, s, a, m); }
  }

  /** The bundle at hand is that of the call. */
  lemma BundleIsRow(c: Config, p: nat, y: Party, m: Marks)
    requires ConfigOk(c) && p < |c.progs| && PartyShaped(c, p, y) && PartyInStep(c, p, y) && PartyInv(c, p, y, m)
    requires Done(y) < |c.progs[p]| && c.progs[p][Done(y)].Send? && y.snd.b.pc[0] == B.Work(1)
    ensures y.snd.bundle == Sealed(c, p, Done(y))
  {
    BarsShaped(c, p, y);
    assert InStep(c, p, y, 0) && Bar(y, Sends).pc[0] != B.Gate;
    DoneAtWork(c, p, y, m, Sends);
    S.BundleAtWork(Sending(c, p), y.snd, m.snd.ph, m.snd.r);
    RowIsRound(c, p, Done(y));
  }

  // ---------------------------------------------------------------- channels

  function Ahead(c: Config, a: Places, p: nat): (b: Places)
    requires PlacesOk(c.progs, a) && p < |c.progs| && a[p] < |c.progs[p]|
    ensures PlacesOk(c.progs, b)
  {
    a[p := a[p] + 1]
  }

  /** A call of party p changes what p has taken from q where it names q, and what q has sent to r
      where it is a send of q to r.
   */
  lemma CountsAhead(c: Config, a: Places, p: nat, q: nat, r: nat)
    requires PlacesOk(c.progs, a) && p < |c.progs| && a[p] < |c.progs[p]| && q < |c.progs| && r < |c.progs|
    ensures var b, op := Ahead(c, a, p), c.progs[p][a[p]];
            && Before(c.progs[r], b[r], From(q)) ==
               Before(c.progs[r], a[r], From(q)) + (if r == p && q in Takes(op) then 1 else 0)
            && Where(c.progs[q][..b[q]], To(r)) ==
               if q == p && op == Send(r, true) then Where(c.progs[q][..a[q]], To(r)) + [a[p]]
               else Where(c.progs[q][..a[q]], To(r))
  {
    if r == p { CountNext(c.progs[p], a[p], From(q)); }
    if q == p { WhereNext(c.progs[p], a[p], To(r)); }
  }

  lemma {:induction false} BundlesSnoc(c: Config, q: nat, at: seq<nat>, t: nat, all: seq<nat>)
    requires ConfigOk(c) && q < |c.progs| && AllSends(c.progs[q], at) && t < |c.progs[q]| && c.progs[q][t].Send?
    requires all == at + [t] && AllSends(c.progs[q], all)
    ensures Bundles(c, q, all) == Bundles(c, q, at) + [Sealed(c, q, t)]
    decreases |at|
  {
    if at == [] {
      assert all[1..] == [];
    } else {
      var head, rest, last := Sealed(c, q, at[0]), Bundles(c, q, at[1..]), Sealed(c, q, t);
      BundlesSnoc(c, q, at[1..], t, all[1..]);
      assert [head] + (rest + [last]) == ([head] + rest) + [last];
    }
  }

  lemma HeldPush(c: Config, q: nat, taken: nat, sent: seq<nat>, held: seq<Bytes>, t: nat)
    requires ConfigOk(c) && q < |c.progs| && Holds(c, q, taken, sent, held) && t < |c.progs[q]| && c.progs[q][t].Send?
    ensures Holds(c, q, taken, sent + [t], held + [Sealed(c, q, t)])
  {
    assert (sent + [t])[taken..] == sent[taken..] + [t];
    BundlesSnoc(c, q, sent[taken..], t, (sent + [t])[taken..]);
  }

  lemma HeldPop(c: Config, q: nat, taken: nat, sent: seq<nat>, held: seq<Bytes>)
    requires ConfigOk(c) && q < |c.progs| && Holds(c, q, taken, sent, held) && held != []
    ensures Holds(c, q, taken + 1, sent, held[1..])
  {
    assert sent[taken..][1..] == sent[taken + 1..];
  }

  lemma PushKept(c: Config, a: Places, p: nat, q: nat, r: nat, held: seq<Bytes>)
    requires ConfigOk(c) && PlacesOk(c.progs, a) && p < |c.progs|
    requires a[p] < |c.progs[p]| && q < |c.progs| && r < |c.progs|
    requires ChannelOk(c, a, q, r, held) && c.progs[p][a[p]].Send?
    ensures ChannelOk(c, Ahead(c, a, p), q, r,
                      if q == p && c.progs[p][a[p]] == Send(r, true) then held + [Sealed(c, p, a[p])] else held)
  {
    CountsAhead(c, a, p, q, r);
    if q == p && c.progs[p][a[p]] == Send(r, true) {
      HeldPush(c, q, Before(c.progs[r], a[r], From(q)), Where(c.progs[q][..a[q]], To(r)), held, a[p]);
    }
  }

  lemma PopKept(c: Config, a: Places, p: nat, q: nat, r: nat, held: seq<Bytes>)
    requires ConfigOk(c) && PlacesOk(c.progs, a) && p < |c.progs|
    requires a[p] < |c.progs[p]| && q < |c.progs| && r < |c.progs|
    requires ChannelOk(c, a, q, r, held) && !c.progs[p][a[p]].Send?
    requires r == p && q in Takes(c.progs[p][a[p]]) ==> held != []
    ensures ChannelOk(c, Ahead(c, a, p), q, r, if r == p && q in Takes(c.progs[p][a[p]]) then held[1..] else held)
  {
    CountsAhead(c, a, p, q, r);
    if r == p && q in Takes(c.progs[p][a[p]]) {
      HeldPop(c, q, Before(c.progs[r], a[r], From(q)), Where(c.progs[q][..a[q]], To(r)), held);
    }
  }

  /** The oldest bundle of a channel is the one its next call is matched with. */
  lemma Oldest(c: Config, a: Places, q: nat, p: nat, held: seq<Bytes>)
    requires ConfigOk(c) && PlacesOk(c.progs, a) && p < |c.progs| && q < |c.progs|
    requires ChannelOk(c, a, q, p, held) && held != []
    ensures Waiting(c.progs, a, q, p)
    ensures var taken, all := Before(c.progs[p], a[p], From(q)), Where(c.progs[q], To(p));
            taken < |all| && held[0] == Sealed(c, q, all[taken])
  {
    WhereBefore(c.progs[q], a[q], To(p));
  }

  /** A step changes no party but the thread's own. */
  lemma Others(c: Config, s: State, a: Actor, q: nat)
    requires ConfigOk(c) && WellFormed(c, s) && Enabled(c, s, a) && q < |c.progs|
    ensures |Next(c, s, a).parties| == |c.progs| && (q != a.p ==> Next(c, s, a).parties[q] == s.parties[q])
  {
  }

  lemma DoneStep(c: Config, s: State, a: Actor, m: Marks)
    requires ConfigOk(c) && WellFormed(c, s) && Enabled(c, s, a) && Stepped(c, s, a, m)
    ensures |Next(c, s, a).parties| == |c.progs|
    ensures Done(Next(c, s, a).parties[a.p]) == Done(s.parties[a.p]) + if AtTransport(c, s, a) then 1 else 0
  {
    Others(c, s, a, a.p);
    var y, y', kind := s.parties[a.p], Next(c, s, a).parties[a.p], KindOf(Calling(c, s, a).value);
    var more := if AtTransport(c, s, a) then 1 else 0;
    assert forall k :: Handed(y', k) == Handed(y, k) + if k == kind then more else 0;
    OneOfThree(y, y', kind, more);
  }

  lemma OneOfThree(y: Party, y': Party, kind: Kind, more: nat)
    requires forall k :: Handed(y', k) == Handed(y, k) + if k == kind then more else 0
    ensures Done(y') == Done(y) + more
  {
    assert Handed(y', Sends) + Handed(y', Receives) + Handed(y', Gathers) ==
           Handed(y, Sends) + Handed(y, Receives) + Handed(y, Gathers) + more;
  }

  lemma PlacesStep(c: Config, s: State, a: Actor, m: Marks)
    requires ConfigOk(c) && WellFormed(c, s) && Enabled(c, s, a) && Stepped(c, s, a, m)
    requires PlacesOk(c.progs, PlacesOf(c, s)) && (AtTransport(c, s, a) ==> PlacesOf(c, s)[a.p] < |c.progs[a.p]|)
    ensures |Next(c, s, a).parties| == |c.progs|
    ensures PlacesOf(c, Next(c, s, a)) == if AtTransport(c, s, a) then Ahead(c, PlacesOf(c, s), a.p) else PlacesOf(c, s)
  {
    DoneStep(c, s, a, m);
    AllOthers(c, s, a);
    OneMoved(c, s, Next(c, s, a), a.p, AtTransport(c, s, a));
  }

  lemma AllOthers(c: Config, s: State, a: Actor)
    requires ConfigOk(c) && WellFormed(c, s) && Enabled(c, s, a)
    ensures |Next(c, s, a).parties| == |c.progs|
    ensures forall q :: 0 <= q < |c.progs| && q != a.p ==> Next(c, s, a).parties[q] == s.parties[q]
  {
    forall q | 0 <= q < |c.progs|
      ensures |Next(c, s, a).parties| == |c.progs| && (q != a.p ==> Next(c, s, a).parties[q] == s.parties[q])
    {
      Others(c, s, a, q);
    }
  }

  lemma OneMoved(c: Config, s: State, s': State, p: nat, moved: bool)
    requires |s.parties| == |s'.parties| == |c.progs| && p < |c.progs|
    requires PlacesOk(c.progs, PlacesOf(c, s)) && (moved ==> PlacesOf(c, s)[p] < |c.progs[p]|)
    requires forall q :: 0 <= q < |c.progs| && q != p ==> s'.parties[q] == s.parties[q]
    requires Done(s'.parties[p]) == Done(s.parties[p]) + if moved then 1 else 0
    ensures PlacesOf(c, s') == if moved then Ahead(c, PlacesOf(c, s), p) else PlacesOf(c, s)
  {
  }

  lemma PushStep(c: Config, s: State, a: Actor, q: nat, r: nat)
    requires ConfigOk(c) && WellFormed(c, s) && Enabled(c, s, a) && ChannelsOk(c, s) && q < |c.progs| && r < |c.progs|
    requires AtTransport(c, s, a) && PlacesOf(c, s)[a.p] < |c.progs[a.p]|
    requires c.progs[a.p][PlacesOf(c, s)[a.p]] == Calling(c, s, a).value && Calling(c, s, a).value.Send?
    requires s.parties[a.p].snd.bundle == Sealed(c, a.p, PlacesOf(c, s)[a.p])
    ensures |Next(c, s, a).chan| == |c.progs| && |Next(c, s, a).chan[q]| == |c.progs|
    ensures ChannelOk(c, Ahead(c, PlacesOf(c, s), a.p), q, r, Next(c, s, a).chan[q][r])
  {
    PushKept(c, PlacesOf(c, s), a.p, q, r, s.chan[q][r]);
  }

  lemma PopStep(c: Config, s: State, a: Actor, q: nat, r: nat)
    requires ConfigOk(c) && WellFormed(c, s) && Enabled(c, s, a) && ChannelsOk(c, s) && q < |c.progs| && r < |c.progs|
    requires AtTransport(c, s, a) && PlacesOf(c, s)[a.p] < |c.progs[a.p]|
    requires c.progs[a.p][PlacesOf(c, s)[a.p]] == Calling(c, s, a).value && !Calling(c, s, a).value.Send?
    ensures |Next(c, s, a).chan| == |c.progs| && |Next(c, s, a).chan[q]| == |c.progs|
    ensures ChannelOk(c, Ahead(c, PlacesOf(c, s), a.p), q, r, Next(c, s, a).chan[q][r])
  {
    PopKept(c, PlacesOf(c, s), a.p, q, r, s.chan[q][r]);
  }

  lemma ChannelsStep(c: Config, s: State, a: Actor, m: Marks)
    requires ConfigOk(c) && WellFormed(c, s) && Enabled(c, s, a) && ChannelsOk(c, s) && WellFormed(c, Next(c, s, a))
    requires Stepped(c, s, a, m) && PartyInv(c, a.p, s.parties[a.p], m)
    ensures ChannelsOk(c, Next(c, s, a))
  {
    PlacesStep(c, s, a, m);
    if AtTransport(c, s, a) {
      ChannelsMoved(c, s, a, m);
    } else {
      assert Next(c, s, a).chan == s.chan;
    }
  }

  lemma ChannelsMoved(c: Config, s: State, a: Actor, m: Marks)
    requires ConfigOk(c) && WellFormed(c, s) && Enabled(c, s, a) && ChannelsOk(c, s) && WellFormed(c, Next(c, s, a))
    requires Stepped(c, s, a, m) && PartyInv(c, a.p, s.parties[a.p], m) && AtTransport(c, s, a)
    ensures PlacesOf(c, s)[a.p] < |c.progs[a.p]|
    ensures forall q, r :: 0 <= q < |c.progs| && 0 <= r < |c.progs| ==>
              ChannelOk(c, Ahead(c, PlacesOf(c, s), a.p), q, r, Next(c, s, a).chan[q][r])
  {
    if Calling(c, s, a).value.Send? { SendStep(c, s, a, m); }
    forall q, r | 0 <= q < |c.progs| && 0 <= r < |c.progs|
      ensures ChannelOk(c, Ahead(c, PlacesOf(c, s), a.p), q, r, Next(c, s, a).chan[q][r])
    {
      if Calling(c, s, a).value.Send? { PushStep(c, s, a, q, r); } else { PopStep(c, s, a, q, r); }
    }
  }

  /** A call that finds its messages can be done, and is matched. */
  lemma ArrivedMatched(c: Config, s: State, p: nat, t: nat)
    requires ConfigOk(c) && WellFormed(c, s) && ChannelsOk(c, s) && p < |c.progs|
    requires PlacesOf(c, s)[p] == t < |c.progs[p]| && Arrived(c, s, p, c.progs[p][t])
    ensures CanMove(c.progs, PlacesOf(c, s), p) && Matched(c, p, t)
  {
    var qs := Takes(c.progs[p][t]);
    forall k | 0 <= k < |qs|
      ensures Waiting(c.progs, PlacesOf(c, s), qs[k], p)
      ensures Before(c.progs[p], t, From(qs[k])) < |Where(c.progs[qs[k]], To(p))|
    {
      Oldest(c, PlacesOf(c, s), qs[k], p, s.chan[qs[k]][p]);
    }
  }

  /** A fetch gets what its call is matched with. */
  lemma FetchIsAnswer(c: Config, s: State, p: nat, t: nat)
    requires ConfigOk(c) && WellFormed(c, s) && ChannelsOk(c, s) && p < |c.progs|
    requires PlacesOf(c, s)[p] == t < |c.progs[p]| && Arrived(c, s, p, c.progs[p][t]) && Matched(c, p, t)
    ensures Delivery(c, s, p, t) == Answer(c, p, t)
  {
    if !Faulty(c.progs[p][t]) {
      var qs, got, due := Takes(c.progs[p][t]), Delivery(c, s, p, t).bufs, Answer(c, p, t).bufs;
      forall k | 0 <= k < |qs| ensures got[k] == due[k] {
        Oldest(c, PlacesOf(c, s), qs[k], p, s.chan[qs[k]][p]);
      }
      assert got == due;
    }
  }

  lemma FetchAdds(c: Config, p: nat, y: Party, y': Party, many: bool, t: nat)
    requires ConfigOk(c) && p < |c.progs| && t < |c.progs[p]| && KindOf(c.progs[p][t]) == Of(many)
    requires FetchesOk(c, p, y, many) && |Rcv(y, many).net| == Before(c.progs[p], t, Is(Of(many)))
    requires Matched(c, p, t) && Rcv(y', many).net == Rcv(y, many).net + [Answer(c, p, t)]
    ensures FetchesOk(c, p, y', many)
  {
    WhereAt(c.progs[p], t, Is(Of(many)));
    var at, net' := Where(c.progs[p], Is(Of(many))), Rcv(y', many).net;
    forall k | 0 <= k < |net'| ensures Fetched(c, p, at[k], net'[k]) {
      if k < |net'| - 1 { assert net'[k] == Rcv(y, many).net[k]; }
    }
  }

  lemma FetchStep(c: Config, s: State, a: Actor, m: Marks)
    requires ConfigOk(c) && WellFormed(c, s) && ChannelsOk(c, s) && Enabled(c, s, a) && Stepped(c, s, a, m)
    requires PartyInv(c, a.p, s.parties[a.p], m) && AtTransport(c, s, a) && !Calling(c, s, a).value.Send?
    requires FetchesOk(c, a.p, s.parties[a.p], Calling(c, s, a).value.ReceiveAll?)
    ensures FetchesOk(c, a.p, Next(c, s, a).parties[a.p], Calling(c, s, a).value.ReceiveAll?)
  {
    var y, many := s.parties[a.p], Calling(c, s, a).value.ReceiveAll?;
    AtTransportDone(c, s, a, m);
    FetchNumber(c, a.p, y, m, many);
    TransportMoves(c, s, a);
    ReceiveStep(c, s, a, m);
    FetchAdds(c, a.p, y, Next(c, s, a).parties[a.p], many, Done(y));
  }

  lemma FetchNumber(c: Config, p: nat, y: Party, m: Marks, many: bool)
    requires Shaped(c) && p < |c.progs| && PartyShaped(c, p, y) && PartyInStep(c, p, y) && PartyInv(c, p, y, m)
    ensures Done(y) <= |c.progs[p]| && |Rcv(y, many).net| == Before(c.progs[p], Done(y), Is(Of(many)))
  {
    DonePlace(c, p, y, m);
    assert Handed(y, Of(many)) == |Rcv(y, many).net|;
  }

  /** At the transport the party can do its next call, and gets what that is matched with. */
  lemma TransportMoves(c: Config, s: State, a: Actor)
    requires ConfigOk(c) && WellFormed(c, s) && ChannelsOk(c, s) && Enabled(c, s, a) && AtTransport(c, s, a)
    requires Done(s.parties[a.p]) < |c.progs[a.p]| && c.progs[a.p][Done(s.parties[a.p])] == Calling(c, s, a).value
    ensures CanMove(c.progs, PlacesOf(c, s), a.p) && Matched(c, a.p, Done(s.parties[a.p]))
    ensures Delivery(c, s, a.p, Done(s.parties[a.p])) == Answer(c, a.p, Done(s.parties[a.p]))
  {
    ArrivedMatched(c, s, a.p, Done(s.parties[a.p]));
    FetchIsAnswer(c, s, a.p, Done(s.parties[a.p]));
  }

  lemma FetchesStep(c: Config, s: State, a: Actor, m: Marks, p: nat, many: bool)
    requires ConfigOk(c) && WellFormed(c, s) && ChannelsOk(c, s) && Enabled(c, s, a) && Stepped(c, s, a, m)
    requires PartyInv(c, a.p, s.parties[a.p], m) && p < |c.progs| && FetchesOk(c, p, s.parties[p], many)
    ensures |Next(c, s, a).parties| == |c.progs| && FetchesOk(c, p, Next(c, s, a).parties[p], many)
  {
    Others(c, s, a, p);
    var op := Calling(c, s, a).value;
    if p == a.p && !op.Send? && many == op.ReceiveAll? && AtTransport(c, s, a) {
      FetchStep(c, s, a, m);
    } else {
      NoFetch(c, s, a, m, p, many);
    }
  }

  lemma NoFetch(c: Config, s: State, a: Actor, m: Marks, p: nat, many: bool)
    requires ConfigOk(c) && WellFormed(c, s) && Enabled(c, s, a) && PartyInv(c, a.p, s.parties[a.p], m) && p < |c.progs|
    requires !(p == a.p && KindOf(Calling(c, s, a).value) == Of(many) && AtTransport(c, s, a))
    ensures |Next(c, s, a).parties| == |c.progs|
    ensures Rcv(Next(c, s, a).parties[p], many).net == Rcv(s.parties[p], many).net
  {
    Others(c, s, a, p);
    if p == a.p && !Calling(c, s, a).value.Send? {
      ReceiveStep(c, s, a, m);
      NextReceives(c, s, a);
    }
  }

  lemma Stays(c: Config, s: State, a: Actor, m: Marks)
    requires ConfigOk(c) && WellFormed(c, s) && Enabled(c, s, a) && Stepped(c, s, a, m)
    ensures WellFormed(c, Next(c, s, a))
  {
    ChannelsShaped(c, s, a);
    forall q | 0 <= q < |c.progs|
      ensures |Next(c, s, a).parties| == |c.progs|
      ensures PartyShaped(c, q, Next(c, s, a).parties[q]) && PartyInStep(c, q, Next(c, s, a).parties[q])
    {
      Others(c, s, a, q);
    }
  }

  lemma PartyStep(c: Config, s: State, a: Actor, m: Marks)
    requires ConfigOk(c) && WellFormed(c, s) && Enabled(c, s, a) && PartyInv(c, a.p, s.parties[a.p], m)
    ensures Stepped(c, s, a, m) && WellFormed(c, Next(c, s, a))
  {
    if Calling(c, s, a).value.Send? { SendStep(c, s, a, m); } else { ReceiveStep(c, s, a, m); }
    Stays(c, s, a, m);
  }

  lemma PartiesStep(c: Config, s: State, a: Actor, ms: seq<Marks>)
    requires ConfigOk(c) && WellFormed(c, s) && Enabled(c, s, a) && |ms| == |c.progs|
    requires forall p :: 0 <= p < |c.progs| ==> PartyInv(c, p, s.parties[p], ms[p])
    requires Stepped(c, s, a, ms[a.p])
    ensures |Next(c, s, a).parties| == |c.progs|
    ensures forall p :: 0 <= p < |c.progs| ==>
              PartyInv(c, p, Next(c, s, a).parties[p], ms[a.p := NextMarks(c, s, a, ms[a.p])][p])
  {
    AllOthers(c, s, a);
    AllButOne(c, s.parties, Next(c, s, a).parties, ms, ms[a.p := NextMarks(c, s, a, ms[a.p])], a.p);
  }

  /** Nothing has happened to any party but p. */
  lemma AllButOne(c: Config, ys: seq<Party>, ys': seq<Party>, ms: seq<Marks>, ms': seq<Marks>, p: nat)
    requires Shaped(c) && |ys| == |ys'| == |ms| == |ms'| == |c.progs| && p < |c.progs|
    requires forall q :: 0 <= q < |c.progs| ==> PartyInv(c, q, ys[q], ms[q])
    requires forall q :: 0 <= q < |c.progs| && q != p ==> ys'[q] == ys[q] && ms'[q] == ms[q]
    requires PartyInv(c, p, ys'[p], ms'[p])
    ensures forall q :: 0 <= q < |c.progs| ==> PartyInv(c, q, ys'[q], ms'[q])
  {
    forall q | 0 <= q < |c.progs| ensures PartyInv(c, q, ys'[q], ms'[q]) {
      if q != p { assert PartyInv(c, q, ys[q], ms[q]); }
    }
  }

  lemma AllFetchesStep(c: Config, s: State, a: Actor, m: Marks)
    requires ConfigOk(c) && WellFormed(c, s) && ChannelsOk(c, s) && Enabled(c, s, a) && Stepped(c, s, a, m)
    requires PartyInv(c, a.p, s.parties[a.p], m)
    requires forall p, many :: 0 <= p < |c.progs| ==> FetchesOk(c, p, s.parties[p], many)
    ensures |Next(c, s, a).parties| == |c.progs|
    ensures forall p, many :: 0 <= p < |c.progs| ==> FetchesOk(c, p, Next(c, s, a).parties[p], many)
  {
    Others(c, s, a, a.p);
    forall p, many | 0 <= p < |c.progs| ensures FetchesOk(c, p, Next(c, s, a).parties[p], many) {
      FetchesStep(c, s, a, m, p, many);
    }
  }

  /** Every step of every thread of every party keeps the invariant. */
  lemma InvStep(c: Config, s: State, a: Actor, ms: seq<Marks>)
    requires Inv(c, s, ms) && Enabled(c, s, a)
    ensures Inv(c, Next(c, s, a), ms[a.p := NextMarks(c, s, a, ms[a.p])])
  {
    PartyStep(c, s, a, ms[a.p]);
    ChannelsStep(c, s, a, ms[a.p]);
    PartiesStep(c, s, a, ms);
    AllFetchesStep(c, s, a, ms[a.p]);
  }

  lemma ChannelsShaped(c: Config, s: State, a: Actor)
    requires ConfigOk(c) && WellFormed(c, s) && Enabled(c, s, a)
    ensures |Next(c, s, a).chan| == |c.progs|
    ensures forall q :: 0 <= q < |c.progs| ==> |Next(c, s, a).chan[q]| == |c.progs|
  {
  }

  lemma InitInv(c: Config) returns (ms: seq<Marks>)
    requires ConfigOk(c)
    ensures WellFormed(c, Init(c)) && Inv(c, Init(c), ms)
  {
    var k := Mark(B.Gathering, 0);
    ms := seq(|c.progs|, _ => Marks(k, k, k));
    forall p | 0 <= p < |c.progs|
      ensures PartyShaped(c, p, Init(c).parties[p]) && PartyInStep(c, p, Init(c).parties[p])
      ensures PartyInv(c, p, Init(c).parties[p], ms[p])
    {
      PartyInit(c, p);
    }
    ChannelsInit(c);
  }

  lemma ChannelsInit(c: Config)
    requires ConfigOk(c) && WellFormed(c, Init(c))
    ensures ChannelsOk(c, Init(c))
  {
    assert PlacesOf(c, Init(c)) == Start(c.progs);
  }

  lemma PartyInit(c: Config, p: nat)
    requires ConfigOk(c) && p < |c.progs|
    ensures var y, k := Init(c).parties[p], Mark(B.Gathering, 0);
            PartyShaped(c, p, y) && PartyInStep(c, p, y) && PartyInv(c, p, y, Marks(k, k, k))
  {
    S.InitInv(Sending(c, p));
    forall many ensures R.Inv(Receiving(c, p, many), R.Init(Receiving(c, p, many)), B.Gathering, 0) {
      ReceivingOk(c, p, many);
      R.InitInv(Receiving(c, p, many));
    }
    var y := Init(c).parties[p];
    BarsShaped(c, p, y);
    assert c.progs[p][..0] == [];
    forall i | 0 <= i < c.n ensures InStep(c, p, y, i) {}
  }

  // ---------------------------------------------------------------- the budget

  /** Steps left in one party. */
  function Cost(c: Config, p: nat, y: Party): nat
    requires Shaped(c) && p < |c.progs| && BarsOk(c, y)
  {
    B.Measure(ShapeOf(c, p, Sends), Bar(y, Sends)) + B.Measure(ShapeOf(c, p, Receives), Bar(y, Receives))
    + B.Measure(ShapeOf(c, p, Gathers), Bar(y, Gathers))
  }

  function Costs(c: Config, s: State): (k: seq<nat>)
    requires Shaped(c) && WellFormed(c, s)
    ensures |k| == |c.progs|
  {
    seq(|c.progs|, p requires 0 <= p < |c.progs| => BarsShaped(c, p, s.parties[p]); Cost(c, p, s.parties[p]))
  }

  function Measure(c: Config, s: State): nat
    requires Shaped(c) && WellFormed(c, s)
  {
    Sum(Costs(c, s))
  }

  lemma CostLess(c: Config, p: nat, y: Party, y': Party, kind: Kind)
    requires Shaped(c) && p < |c.progs| && BarsOk(c, y)
    requires forall other :: other != kind ==> Bar(y', other) == Bar(y, other)
    requires |Bar(y', kind).pc| == |Bar(y', kind).round| == c.n
    requires B.Measure(ShapeOf(c, p, kind), Bar(y', kind)) < B.Measure(ShapeOf(c, p, kind), Bar(y, kind))
    ensures BarsOk(c, y') && Cost(c, p, y') < Cost(c, p, y)
  {
    forall k ensures |Bar(y', k).pc| == |Bar(y', k).round| == c.n { assert k != kind ==> Bar(y', k) == Bar(y, k); }
    match kind
    case Sends => assert Bar(y', Receives) == Bar(y, Receives) && Bar(y', Gathers) == Bar(y, Gathers);
    case Receives => assert Bar(y', Sends) == Bar(y, Sends) && Bar(y', Gathers) == Bar(y, Gathers);
    case Gathers => assert Bar(y', Sends) == Bar(y, Sends) && Bar(y', Receives) == Bar(y, Receives);
  }

  lemma SendCost(c: Config, p: nat, y: Party, i: nat, m: Marks, o: int)
    requires ConfigOk(c) && p < |c.progs| && PartyShaped(c, p, y) && PartyInv(c, p, y, m) && BarsOk(c, y) && i < c.n
    requires S.Enabled(Sending(c, p), y.snd, i)
    ensures var y' := y.(snd := S.Next(Sending(c, p), y.snd, i, o));
            BarsOk(c, y') && Cost(c, p, y') < Cost(c, p, y)
  {
    S.SuccessorFollows(Sending(c, p), y.snd, i, m.snd.ph, m.snd.r);
    B.MeasureStep(ShapeOf(c, p, Sends), y.snd.b, i, S.Successor(i, y.snd.b.pc[i]), m.snd.ph, m.snd.r);
    CostLess(c, p, y, y.(snd := S.Next(Sending(c, p), y.snd, i, o)), Sends);
  }

  lemma ReceiveCost(c: Config, p: nat, y: Party, i: nat, m: Marks, many: bool, o: R.Outcome)
    requires ConfigOk(c) && p < |c.progs| && PartyShaped(c, p, y) && PartyInv(c, p, y, m) && BarsOk(c, y) && i < c.n
    requires R.ConfigOk(Receiving(c, p, many)) && R.WellFormed(Receiving(c, p, many), Rcv(y, many))
    requires R.Enabled(Receiving(c, p, many), Rcv(y, many), i) && Rcv(y, many).b.round[i] < Receiving(c, p, many).rounds
    requires R.OutcomeOk(Receiving(c, p, many), Rcv(y, many).b.round[i], o)
    ensures var y' := WithRcv(y, many, R.Next(Receiving(c, p, many), Rcv(y, many), i, o));
            BarsOk(c, y') && Cost(c, p, y') < Cost(c, p, y)
  {
    var k := MarkOf(m, Of(many));
    R.ControlStep(Receiving(c, p, many), Rcv(y, many), i, o, k.ph, k.r);
    CostLess(c, p, y, WithRcv(y, many, R.Next(Receiving(c, p, many), Rcv(y, many), i, o)), Of(many));
  }

  lemma CostStep(c: Config, s: State, a: Actor, m: Marks)
    requires ConfigOk(c) && WellFormed(c, s) && Enabled(c, s, a) && PartyInv(c, a.p, s.parties[a.p], m)
    ensures |Next(c, s, a).parties| == |c.progs| && BarsOk(c, s.parties[a.p]) && BarsOk(c, Next(c, s, a).parties[a.p])
    ensures Cost(c, a.p, Next(c, s, a).parties[a.p]) < Cost(c, a.p, s.parties[a.p])
  {
    var y, op := s.parties[a.p], Calling(c, s, a).value;
    BarsShaped(c, a.p, y);
    if op.Send? {
      SendCost(c, a.p, y, a.thread, m, Answered(op));
    } else {
      NextReceives(c, s, a);
      ReceiveCost(c, a.p, y, a.thread, m, op.ReceiveAll?, AnswerNow(c, s, a));
    }
  }

  lemma MeasureStep(c: Config, s: State, a: Actor, m: Marks)
    requires ConfigOk(c) && WellFormed(c, s) && Enabled(c, s, a) && PartyInv(c, a.p, s.parties[a.p], m)
    requires WellFormed(c, Next(c, s, a))
    ensures Measure(c, Next(c, s, a)) < Measure(c, s)
  {
    CostStep(c, s, a, m);
    AllOthers(c, s, a);
    CostsMoved(c, s, Next(c, s, a), a.p);
  }

  lemma CostsMoved(c: Config, s: State, s': State, p: nat)
    requires Shaped(c) && WellFormed(c, s) && WellFormed(c, s') && p < |c.progs|
    requires forall q :: 0 <= q < |c.progs| && q != p ==> s'.parties[q] == s.parties[q]
    requires BarsOk(c, s.parties[p]) && BarsOk(c, s'.parties[p])
    requires Cost(c, p, s'.parties[p]) < Cost(c, p, s.parties[p])
    ensures Measure(c, s') < Measure(c, s)
  {
    var v := Cost(c, p, s'.parties[p]);
    assert Costs(c, s') == Costs(c, s)[p := v];
    SumUpdate(Costs(c, s), p, v);
  }

  // ---------------------------------------------------------------- whole runs

  function Run(c: Config, schedule: seq<Actor>): (o: Option<State>)
    requires ConfigOk(c)
    ensures o.Some? ==> WellFormed(c, o.value)
    decreases |schedule|
  {
    if schedule == [] then InitOk(c); Some(Init(c))
    else
      var last := |schedule| - 1;
      var before, a := Run(c, schedule[..last]), schedule[last];
      if before.None? || !Enabled(c, before.value, a) then None
      else
        var s := Next(c, before.value, a);
        if WellFormed(c, s) then Some(s) else None
  }

  lemma InitOk(c: Config)
    requires ConfigOk(c)
    ensures WellFormed(c, Init(c))
  {
    var ms := InitInv(c);
  }

  lemma {:induction false} RunInv(c: Config, schedule: seq<Actor>) returns (ms: seq<Marks>)
    requires ConfigOk(c) && Run(c, schedule).Some?
    ensures Inv(c, Run(c, schedule).value, ms)
    ensures WellFormed(c, Init(c)) && Measure(c, Run(c, schedule).value) + |schedule| <= Measure(c, Init(c))
    decreases |schedule|
  {
    InitOk(c);
    if schedule == [] {
      ms := InitInv(c);
    } else {
      var last := |schedule| - 1;
      var s, a := Run(c, schedule[..last]).value, schedule[last];
      var m0 := RunInv(c, schedule[..last]);
      InvStep(c, s, a, m0);
      MeasureStep(c, s, a, m0[a.p]);
      ms := m0[a.p := NextMarks(c, s, a, m0[a.p])];
    }
  }

  /** Every enabled move of a run's last state extends the run: `Run` refuses nothing else. */
  lemma RunExtends(c: Config, schedule: seq<Actor>, a: Actor)
    requires ConfigOk(c) && Run(c, schedule).Some? && Enabled(c, Run(c, schedule).value, a)
    ensures Run(c, schedule + [a]).Some?
  {
    var ms := RunInv(c, schedule);
    PartyStep(c, Run(c, schedule).value, a, ms[a.p]);
    RunNext(c, schedule, a);
  }

  lemma RunNext(c: Config, schedule: seq<Actor>, a: Actor)
    requires ConfigOk(c) && Run(c, schedule).Some? && Enabled(c, Run(c, schedule).value, a)
    requires WellFormed(c, Next(c, Run(c, schedule).value, a))
    ensures Run(c, schedule + [a]).Some?
  {
    assert (schedule + [a])[..|schedule|] == schedule;
  }

  // ---------------------------------------------------------------- what every receive returns

  /** The messages call t of party p gets for thread i: of each party it names, those of thread i. */
  function Messages(c: Config, p: nat, t: nat, i: nat): (ms: seq<Bytes>)
    requires Shaped(c) && p < |c.progs| && t < |c.progs[p]| && Matched(c, p, t) && i < c.n
    ensures |ms| == |Takes(c.progs[p][t])|
  {
    var qs := Takes(c.progs[p][t]);
    seq(|qs|, k requires 0 <= k < |qs| => c.msgs[qs[k]][i][Source(c, p, t, k)])
  }

  /** The number of call t among the receives, or the receive_alls, of p. */
  function Number(c: Config, p: nat, t: nat): (r: nat)
    requires Shaped(c) && p < |c.progs| && t < |c.progs[p]| && !c.progs[p][t].Send?
    ensures R.ConfigOk(Receiving(c, p, c.progs[p][t].ReceiveAll?))
    ensures r < Receiving(c, p, c.progs[p][t].ReceiveAll?).rounds
    ensures Where(c.progs[p], Is(Of(c.progs[p][t].ReceiveAll?)))[r] == t
  {
    ReceivingOk(c, p, c.progs[p][t].ReceiveAll?);
    WhereAt(c.progs[p], t, Is(Of(c.progs[p][t].ReceiveAll?)));
    Before(c.progs[p], t, Is(Of(c.progs[p][t].ReceiveAll?)))
  }

  /** What call t returns to thread i: the messages it is matched with, or, if it is faulty, what the
      answer calls for.
   */
  function Returns(c: Config, p: nat, t: nat, i: nat): R.Return
    requires ConfigOk(c) && p < |c.progs| && t < |c.progs[p]| && !c.progs[p][t].Send? && Matched(c, p, t) && i < c.n
  {
    if !Faulty(c.progs[p][t]) then R.Return(Errors.SUCCESS, Some(Messages(c, p, t, i)))
    else R.Expected(Receiving(c, p, c.progs[p][t].ReceiveAll?), i, Number(c, p, t), c.answers[p][t])
  }

  /** Call t of thread i returned that. */
  predicate Got(c: Config, y: Party, p: nat, i: nat, t: nat)
    requires ConfigOk(c) && p < |c.progs| && t < |c.progs[p]| && !c.progs[p][t].Send? && i < c.n
  {
    var log, k := Rcv(y, c.progs[p][t].ReceiveAll?).log, Number(c, p, t);
    Matched(c, p, t) && i < |log| && k < |log[i]| && log[i][k] == Returns(c, p, t, i)
  }

  /** The rows of the sends a call is matched with. */
  function SourceRows(c: Config, p: nat, t: nat): (rows: seq<seq<Bytes>>)
    requires Shaped(c) && p < |c.progs| && t < |c.progs[p]| && Matched(c, p, t)
    ensures |rows| == |Takes(c.progs[p][t])| && forall k :: 0 <= k < |rows| ==> |rows[k]| == c.n
  {
    var qs := Takes(c.progs[p][t]);
    seq(|qs|, k requires 0 <= k < |qs| => Row(c, qs[k], Source(c, p, t, k)))
  }

  lemma AnswerBundles(c: Config, p: nat, t: nat)
    requires ConfigOk(c) && p < |c.progs| && t < |c.progs[p]| && Matched(c, p, t) && !Faulty(c.progs[p][t])
    requires !c.progs[p][t].Send?
    ensures R.Bundled(c.n, SourceRows(c, p, t), Answer(c, p, t).bufs)
  {
    var qs, rows, bufs := Takes(c.progs[p][t]), SourceRows(c, p, t), Answer(c, p, t).bufs;
    forall k | 0 <= k < |rows| ensures Unbundle(bufs[k]) == Accepted(rows[k]) {
      RowIsRound(c, qs[k], Source(c, p, t, k));
      BundleRoundTrip(rows[k]);
    }
  }

  lemma MessagesOfRows(c: Config, p: nat, t: nat, i: nat)
    requires Shaped(c) && p < |c.progs| && t < |c.progs[p]| && Matched(c, p, t) && i < c.n
    ensures Messages(c, p, t, i) == R.Picked(SourceRows(c, p, t), i)
  {
  }

  lemma TakesDistinct(c: Config, p: nat, t: nat)
    requires Shaped(c) && p < |c.progs| && t < |c.progs[p]|
    ensures R.AllDifferent(Takes(c.progs[p][t]))
  {
    assert OpOk(|c.progs|, c.progs[p][t]);
  }

  /** What a call returns when its fetch was answered as it is matched. */
  lemma AnswerExpected(c: Config, p: nat, t: nat, i: nat)
    requires ConfigOk(c) && p < |c.progs| && t < |c.progs[p]| && !c.progs[p][t].Send? && Matched(c, p, t) && i < c.n
    ensures R.Expected(Receiving(c, p, c.progs[p][t].ReceiveAll?), i, Number(c, p, t), Answer(c, p, t)) ==
            Returns(c, p, t, i)
  {
    if !Faulty(c.progs[p][t]) {
      AnswerBundles(c, p, t);
      MessagesOfRows(c, p, t, i);
      TakesDistinct(c, p, t);
      R.BundledExpected(Receiving(c, p, c.progs[p][t].ReceiveAll?), i, Number(c, p, t), Answer(c, p, t).bufs,
                        SourceRows(c, p, t));
    }
  }

  /** Multiplexing N threads refines N independent networks of first-in-first-out channels, whatever
      the transport refuses or gets wrong: in every interleaving of all threads of all parties, a
      receive that thread i of party p has returned from gave success and, for each party q it
      names, exactly what thread i of q sent in the send it is matched with: q's k-th send to p that
      was taken, if this is the k-th message p takes from q. A faulty receive gave what the answer
      calls for.
   */
  lemma SessionsAreFifo(c: Config, schedule: seq<Actor>, p: nat, i: nat, t: nat)
    requires ConfigOk(c) && Run(c, schedule).Some? && p < |c.progs| && i < c.n && t < |c.progs[p]|
    requires !c.progs[p][t].Send?
    requires Through(c, Run(c, schedule).value.parties[p], i, t + 1)
    ensures Got(c, Run(c, schedule).value.parties[p], p, i, t)
  {
    var ms := RunInv(c, schedule);
    ReturnIs(c, p, Run(c, schedule).value.parties[p], ms[p], i, t);
  }

  lemma NumberBelow(c: Config, p: nat, y: Party, i: nat, t: nat)
    requires ConfigOk(c) && p < |c.progs| && i < c.n && t < |c.progs[p]| && !c.progs[p][t].Send?
    requires PartyShaped(c, p, y) && PartyInStep(c, p, y) && BarsOk(c, y) && t < Place(c, y, i)
    ensures Number(c, p, t) < Rcv(y, c.progs[p][t].ReceiveAll?).b.round[i]
  {
    var test := Is(Of(c.progs[p][t].ReceiveAll?));
    assert InStep(c, p, y, i);
    CountNext(c.progs[p], t, test);
    BeforeGrows(c.progs[p], t + 1, Place(c, y, i), test);
    assert Rcv(y, c.progs[p][t].ReceiveAll?).b == Bar(y, test.kind);
  }

  lemma ReturnIs(c: Config, p: nat, y: Party, m: Marks, i: nat, t: nat)
    requires ConfigOk(c) && p < |c.progs| && i < c.n && t < |c.progs[p]| && !c.progs[p][t].Send?
    requires PartyShaped(c, p, y) && PartyInStep(c, p, y) && PartyInv(c, p, y, m)
    requires FetchesOk(c, p, y, c.progs[p][t].ReceiveAll?) && BarsOk(c, y) && t < Place(c, y, i)
    ensures Got(c, y, p, i, t)
  {
    var many, k := c.progs[p][t].ReceiveAll?, Number(c, p, t);
    NumberBelow(c, p, y, i, t);
    ReceivingOk(c, p, many);
    assert R.LogOk(Receiving(c, p, many), Rcv(y, many), i);
    AnswerExpected(c, p, t, i);
  }

  /** The threads of a party agree: whatever the transport did, any two that have returned from a
      call returned the same code.
   */
  lemma ThreadsAgree(c: Config, schedule: seq<Actor>, p: nat, i: nat, j: nat, t: nat)
    requires ConfigOk(c) && Run(c, schedule).Some? && p < |c.progs| && i < c.n && j < c.n && t < |c.progs[p]|
    requires !c.progs[p][t].Send?
    requires Through(c, Run(c, schedule).value.parties[p], i, t + 1)
    requires Through(c, Run(c, schedule).value.parties[p], j, t + 1)
    ensures var log, k := Rcv(Run(c, schedule).value.parties[p], c.progs[p][t].ReceiveAll?).log, Number(c, p, t);
            && i < |log| && j < |log| && k < |log[i]| && k < |log[j]| && log[i][k].rv == log[j][k].rv
            && (!Faulty(c.progs[p][t]) ==> log[i][k].rv == Errors.SUCCESS)
  {
    SessionsAreFifo(c, schedule, p, i, t);
    SessionsAreFifo(c, schedule, p, j, t);
  }

  /** A receive the transport got wrong reports it, in every thread: the transport's error, or the code
      of the first bundle that is not good, or what good bundles nobody sent hold.
   */
  lemma FaultsReported(c: Config, schedule: seq<Actor>, p: nat, i: nat, t: nat)
    requires ConfigOk(c) && Run(c, schedule).Some? && p < |c.progs| && i < c.n && t < |c.progs[p]|
    requires !c.progs[p][t].Send? && Faulty(c.progs[p][t])
    requires Through(c, Run(c, schedule).value.parties[p], i, t + 1)
    ensures var many, k := c.progs[p][t].ReceiveAll?, Number(c, p, t);
            var log := Rcv(Run(c, schedule).value.parties[p], many).log;
            && i < |log| && k < |log[i]|
            && R.Reports(Receiving(c, p, many), i, k, c.answers[p][t], log[i][k])
  {
    SessionsAreFifo(c, schedule, p, i, t);
    assert AllAnswersOk(c, p) && AnswersOk(c, p, c.progs[p][t].ReceiveAll?);
    R.ExpectedReports(Receiving(c, p, c.progs[p][t].ReceiveAll?), i, Number(c, p, t), c.answers[p][t]);
  }

  /** Refused sends shift what comes after them, and no call says so: the message p takes as its n-th
      from q is the one q sent in its (n + r)-th send to p, where r of those before were refused.
   */
  lemma RefusalsShift(c: Config, p: nat, t: nat, k: nat)
    requires ConfigOk(c) && p < |c.progs| && t < |c.progs[p]| && Matched(c, p, t) && k < |Takes(c.progs[p][t])|
    ensures var q, u := Takes(c.progs[p][t])[k], Source(c, p, t, k);
            Before(c.progs[q], u, AnyTo(p)) == Before(c.progs[p], t, From(q)) + Before(c.progs[q], u, RefusedTo(p))
  {
    var q, u := Takes(c.progs[p][t])[k], Source(c, p, t, k);
    WhereNumber(c.progs[q], To(p), Before(c.progs[p], t, From(q)));
    SendsAddUp(c.progs[q], u, p);
  }

  // ---------------------------------------------------------------- completion

  /** A step of the N-threaded system is a move of the one-threaded one, or none. */
  lemma StepRefines(c: Config, s: State, a: Actor, ms: seq<Marks>)
    requires Inv(c, s, ms) && Enabled(c, s, a)
    ensures |Next(c, s, a).parties| == |c.progs|
    ensures Moved(c.progs, PlacesOf(c, s), PlacesOf(c, Next(c, s, a)), a.p, AtTransport(c, s, a))
  {
    PartyStep(c, s, a, ms[a.p]);
    if AtTransport(c, s, a) {
      AtTransportDone(c, s, a, ms[a.p]);
      TransportMoves(c, s, a);
    }
    PlacesStep(c, s, a, ms[a.p]);
  }

  /** One party may have done one more call that it could do. */
  predicate Moved(progs: seq<seq<Op>>, a: Places, b: Places, p: nat, moved: bool)
    requires ProgramsOk(progs) && p < |progs|
  {
    if moved then PlacesOk(progs, a) && CanMove(progs, a, p) && b == a[p := a[p] + 1] else b == a
  }

  lemma OrderAfter(c: Config, s: State, a: Actor, ms: seq<Marks>, order: seq<nat>) returns (order': seq<nat>)
    requires Inv(c, s, ms) && Enabled(c, s, a) && Solo(c.progs, order) == Some(PlacesOf(c, s))
    ensures |Next(c, s, a).parties| == |c.progs|
    ensures Solo(c.progs, order') == Some(PlacesOf(c, Next(c, s, a)))
  {
    StepRefines(c, s, a, ms);
    order' := OrderMoved(c.progs, order, PlacesOf(c, s), PlacesOf(c, Next(c, s, a)), a.p, AtTransport(c, s, a));
  }

  lemma OrderMoved(progs: seq<seq<Op>>, order: seq<nat>, a: Places, b: Places, p: nat, moved: bool)
    returns (order': seq<nat>)
    requires ProgramsOk(progs) && Solo(progs, order) == Some(a) && p < |progs| && Moved(progs, a, b, p, moved)
    ensures Solo(progs, order') == Some(b)
  {
    order' := order;
    if moved {
      SoloNext(progs, order, a, p);
      order' := order + [p];
    }
  }

  /** Every run of the N-threaded system is, seen from the transport, an order of calls of the
      one-threaded one.
   */
  lemma {:induction false} RunRefines(c: Config, schedule: seq<Actor>) returns (order: seq<nat>)
    requires ConfigOk(c) && Run(c, schedule).Some?
    ensures Solo(c.progs, order) == Some(PlacesOf(c, Run(c, schedule).value))
    decreases |schedule|
  {
    if schedule == [] {
      order := [];
      var _ := InitInv(c);
      assert PlacesOf(c, Init(c)) == Start(c.progs);
    } else {
      var last := |schedule| - 1;
      var s, a := Run(c, schedule[..last]).value, schedule[last];
      order := RunRefines(c, schedule[..last]);
      var ms := RunInv(c, schedule[..last]);
      order := OrderAfter(c, s, a, ms, order);
    }
  }

  /** Everything in the channels is there for the taking. */
  lemma CanMoveArrived(c: Config, s: State, p: nat)
    requires ConfigOk(c) && WellFormed(c, s) && ChannelsOk(c, s) && p < |c.progs| && CanMove(c.progs, PlacesOf(c, s), p)
    ensures Arrived(c, s, p, c.progs[p][PlacesOf(c, s)[p]])
  {
    var qs := Takes(c.progs[p][PlacesOf(c, s)[p]]);
    forall k | 0 <= k < |qs| ensures s.chan[qs[k]][p] != [] {
      assert Waiting(c.progs, PlacesOf(c, s), qs[k], p) && ChannelOk(c, PlacesOf(c, s), qs[k], p, s.chan[qs[k]][p]);
    }
  }

  predicate AllPast(c: Config, y: Party, t: nat)
    requires BarsOk(c, y)
  {
    forall i :: 0 <= i < c.n ==> Place(c, y, i) >= t
  }

  /** A thread that can move in the operation of call t, if all threads are that far and one no further. */
  lemma BarrierMoves(c: Config, p: nat, y: Party, m: Marks, t: nat, i: nat, kind: Kind) returns (j: nat)
    requires ConfigOk(c) && p < |c.progs| && PartyShaped(c, p, y) && PartyInStep(c, p, y) && PartyInv(c, p, y, m)
    requires BarsOk(c, y) && AllPast(c, y, t) && i < c.n && Place(c, y, i) == t < |c.progs[p]|
    requires KindOf(c.progs[p][t]) == kind
    ensures j < c.n && Place(c, y, j) == t && B.Enabled(ShapeOf(c, p, kind), Bar(y, kind), j)
    ensures Bar(y, kind).pc[j].Work? ==> j == 0
  {
    var prog := c.progs[p];
    assert InStep(c, p, y, i);
    WhereAt(prog, t, Is(kind));
    assert Bar(y, kind).round[i] < |Where(prog, Is(kind))| == ShapeOf(c, p, kind).rounds;
    j := SomeThread(c, p, y, m, kind, i);
    assert InStep(c, p, y, j);
    BeforeGrows(prog, t, Place(c, y, j), Is(kind));
    SameNumber(prog, t, Place(c, y, j), Is(kind));
  }

  lemma SomeThread(c: Config, p: nat, y: Party, m: Marks, kind: Kind, i: nat) returns (j: nat)
    requires ConfigOk(c) && p < |c.progs| && PartyShaped(c, p, y) && PartyInv(c, p, y, m) && BarsOk(c, y)
    requires i < c.n && Bar(y, kind).round[i] < ShapeOf(c, p, kind).rounds
    ensures j < c.n && B.Enabled(ShapeOf(c, p, kind), Bar(y, kind), j) && Bar(y, kind).round[j] <= Bar(y, kind).round[i]
    ensures Bar(y, kind).pc[j].Work? ==> j == 0
  {
    match kind
    case Sends => j := B.SomeEnabled(ShapeOf(c, p, kind), y.snd.b, m.snd.ph, m.snd.r);
    case Receives =>
      assert y.one == Rcv(y, false) && m.one == MarkOf(m, Of(false));
      j := B.SomeEnabled(ShapeOf(c, p, kind), y.one.b, m.one.ph, m.one.r);
    case Gathers =>
      assert y.all == Rcv(y, true) && m.all == MarkOf(m, Of(true));
      j := B.SomeEnabled(ShapeOf(c, p, kind), y.all.b, m.all.ph, m.all.r);
  }

  /** A party whose slowest thread is at a call it may do has a thread that can move. */
  lemma PartyMoves(c: Config, s: State, ms: seq<Marks>, p: nat, t: nat, i: nat) returns (a: Actor)
    requires Inv(c, s, ms) && p < |c.progs| && i < c.n && BarsOk(c, s.parties[p])
    requires AllPast(c, s.parties[p], t) && Place(c, s.parties[p], i) == t < |c.progs[p]|
    requires PlacesOf(c, s)[p] == t ==> CanMove(c.progs, PlacesOf(c, s), p)
    ensures Enabled(c, s, a)
  {
    var y, kind := s.parties[p], KindOf(c.progs[p][t]);
    var j := BarrierMoves(c, p, y, ms[p], t, i, kind);
    a := Actor(p, j);
    if Bar(y, kind).pc[j] == B.Work(1) {
      DoneAtWork(c, p, y, ms[p], kind);
      CanMoveArrived(c, s, p);
    }
  }

  /** When nobody can move, every thread has done at least what any order of calls has done. */
  lemma {:induction false} StuckIsAhead(c: Config, s: State, ms: seq<Marks>, order: seq<nat>)
    requires Inv(c, s, ms) && (forall a :: !Enabled(c, s, a)) && Solo(c.progs, order).Some?
    ensures forall p :: 0 <= p < |c.progs| ==>
              BarsOk(c, s.parties[p]) && AllPast(c, s.parties[p], Solo(c.progs, order).value[p])
    decreases |order|
  {
    forall p | 0 <= p < |c.progs| ensures BarsOk(c, s.parties[p]) { BarsShaped(c, p, s.parties[p]); }
    if order != [] {
      var last := |order| - 1;
      var a, p := Solo(c.progs, order[..last]).value, order[last];
      StuckIsAhead(c, s, ms, order[..last]);
      StuckIsPast(c, s, ms, a, p);
    }
  }

  lemma DoneAtLeast(c: Config, p: nat, y: Party, m: Marks, t: nat)
    requires Shaped(c) && p < |c.progs| && PartyShaped(c, p, y) && PartyInStep(c, p, y) && PartyInv(c, p, y, m)
    requires BarsOk(c, y) && t <= Place(c, y, 0)
    ensures t <= Done(y) <= |c.progs[p]|
  {
    DonePlace(c, p, y, m);
  }

  lemma PlacesReached(c: Config, s: State, ms: seq<Marks>, a: Places)
    requires Inv(c, s, ms) && |a| == |c.progs|
    requires forall q :: 0 <= q < |c.progs| ==> BarsOk(c, s.parties[q]) && AllPast(c, s.parties[q], a[q])
    ensures forall q :: 0 <= q < |c.progs| ==> a[q] <= PlacesOf(c, s)[q]
  {
    forall q | 0 <= q < |c.progs| ensures a[q] <= PlacesOf(c, s)[q] { DoneAtLeast(c, q, s.parties[q], ms[q], a[q]); }
  }

  lemma StuckIsPast(c: Config, s: State, ms: seq<Marks>, a: Places, p: nat)
    requires Inv(c, s, ms) && (forall a :: !Enabled(c, s, a))
    requires PlacesOk(c.progs, a) && p < |c.progs| && CanMove(c.progs, a, p)
    requires forall q :: 0 <= q < |c.progs| ==> BarsOk(c, s.parties[q]) && AllPast(c, s.parties[q], a[q])
    ensures AllPast(c, s.parties[p], a[p] + 1)
  {
    if i :| 0 <= i < c.n && Place(c, s.parties[p], i) == a[p] {
      if PlacesOf(c, s)[p] == a[p] {
        PlacesReached(c, s, ms, a);
        MovesLater(c.progs, a, PlacesOf(c, s), p);
      }
      var _ := PartyMoves(c, s, ms, p, a[p], i);
    }
  }

  /** Every thread of every party has returned from its last call. */
  predicate AllDone(c: Config, s: State)
    requires Shaped(c) && WellFormed(c, s)
  {
    forall p, i :: 0 <= p < |c.progs| && 0 <= i < c.n ==> Through(c, s.parties[p], i, |c.progs[p]|)
  }

  /** Thread i is past the first t calls. */
  predicate Through(c: Config, y: Party, i: nat, t: nat)
    requires i < c.n
  {
    BarsOk(c, y) && t <= Place(c, y, i)
  }

  lemma DoneMeansCompletes(c: Config, schedule: seq<Actor>)
    requires ConfigOk(c) && Run(c, schedule).Some? && AllDone(c, Run(c, schedule).value)
    ensures Completes(c.progs)
  {
    var ms := RunInv(c, schedule);
    var order := RunRefines(c, schedule);
    AllAtEnds(c, Run(c, schedule).value, ms);
  }

  lemma AllAtEnds(c: Config, s: State, ms: seq<Marks>)
    requires Inv(c, s, ms) && AllDone(c, s)
    ensures PlacesOf(c, s) == Ends(c.progs)
  {
    forall p | 0 <= p < |c.progs| ensures PlacesOf(c, s)[p] == |c.progs[p]| {
      assert Through(c, s.parties[p], 0, |c.progs[p]|);
      DoneAtLeast(c, p, s.parties[p], ms[p], |c.progs[p]|);
    }
  }

  lemma CompletesMeansDone(c: Config, schedule: seq<Actor>, order: seq<nat>)
    requires ConfigOk(c) && Run(c, schedule).Some? && (forall a :: !Enabled(c, Run(c, schedule).value, a))
    requires Solo(c.progs, order) == Some(Ends(c.progs))
    ensures AllDone(c, Run(c, schedule).value)
  {
    var s := Run(c, schedule).value;
    var ms := RunInv(c, schedule);
    StuckIsAhead(c, s, ms, order);
    forall p, i | 0 <= p < |c.progs| && 0 <= i < c.n
      ensures Through(c, s.parties[p], i, |c.progs[p]|)
    {
      assert AllPast(c, s.parties[p], Ends(c.progs)[p]);
    }
  }

  /** N threads deadlock exactly where one would: every run is bounded, and a run that cannot be
      extended has every thread of every party through its whole program if and only if the
      programs complete with one thread for each party.
   */
  lemma SessionsComplete(c: Config, schedule: seq<Actor>)
    requires ConfigOk(c) && Run(c, schedule).Some?
    ensures WellFormed(c, Init(c)) && |schedule| <= Measure(c, Init(c))
    ensures (forall a :: !Enabled(c, Run(c, schedule).value, a)) ==>
              (AllDone(c, Run(c, schedule).value) <==> Completes(c.progs))
  {
    var _ := RunInv(c, schedule);
    if forall a :: !Enabled(c, Run(c, schedule).value, a) {
      if AllDone(c, Run(c, schedule).value) {
        DoneMeansCompletes(c, schedule);
      } else if Completes(c.progs) {
        var order :| Solo(c.progs, order) == Some(Ends(c.progs));
        CompletesMeansDone(c, schedule, order);
      }
    }
  }
}
