/** `parallel_data_transport_t::receive` and `receive_all`: one underlying receive per round, split
    among N threads.

    The two operations share their code path here. `receive` is the case of a single sender;
    what differs is that its waiting threads read the verdict in the critical section that ends
    their wait, while `receive_all` reads it in a section of its own.
 */
module ReceiveRounds {
  import opened Wire
  import B = Barrier
  import opened Options
  import Errors

  /** What the underlying transport answers: an error, or some buffers, one per sender if all is well. */
  datatype Outcome = NetError(code: int) | NetData(bufs: seq<Bytes>)

  /** What a call returns: the code, and what it stored in the output (None: untouched). */
  datatype Return = Return(rv: int, out: Option<seq<Bytes>>)

  /** senders[r] are the peers of round r; outSize[r][i] is the size of thread i's
      output vector then. */
  datatype Config = Config(n: nat, rounds: nat, many: bool, senders: seq<seq<int>>, outSize: seq<seq<nat>>)

  predicate ConfigOk(c: Config)
  {
    && c.n >= 1 && |c.senders| == c.rounds && |c.outSize| == c.rounds
    && (forall r :: 0 <= r < c.rounds ==> |c.outSize[r]| == c.n)
    && (c.many || ((forall r :: 0 <= r < c.rounds ==> |c.senders[r]| == 1) &&
                   (forall r, i :: 0 <= r < c.rounds && 0 <= i < c.n ==> c.outSize[r][i] == 1)))
  }

  function Shape(c: Config): B.Shape { B.Shape(c.n, c.rounds, false, 3, 2) }

  datatype State = State(
    b: B.State,
    lastRv: int,                      // last_receive_rv
    table: map<int, seq<Bytes>>,      // receive_msg / receive_all_msgs
    fetched: seq<Bytes>,              // thread 0: the buffers just received
    failure: int,                     // thread 0: the error it is about to report
    local: seq<int>,                  // each thread's local_rv
    out: seq<Option<seq<Bytes>>>,     // each thread's output parameter
    log: seq<seq<Return>>,            // each thread's returns so far
    net: seq<Outcome>)                // answers of the underlying transport so far

  function Init(c: Config): State
  {
    State(B.Init(Shape(c)), Errors.SUCCESS, map[], [], Errors.SUCCESS,
          seq(c.n, _ => Errors.SUCCESS), seq(c.n, _ => None), seq(c.n, _ => []), [])
  }

  // ---------------------------------------------------------------- decoding a round

  /** deser of one bundle and the check of its size. */
  function BundleVerdict(n: nat, buf: Bytes): int
  {
    match Unbundle(buf)
    case Accepted(v) => if |v| == n then Errors.SUCCESS else Errors.E_FORMAT
    case Malformed => Errors.E_FORMAT
    case Trailing => Errors.E_BADARG
  }

  /** The decode loop: rows are stored under the senders in turn until the first bad bundle. */
  function Decode(n: nat, senders: seq<int>, bufs: seq<Bytes>): (map<int, seq<Bytes>>, int)
    decreases |bufs|
  {
    if bufs == [] then (map[], Errors.SUCCESS)
    else
      var last := |bufs| - 1;
      var (rows, rv) := Decode(n, senders, bufs[..last]);
      if rv != Errors.SUCCESS then (rows, rv) else
      var v := BundleVerdict(n, bufs[last]);
      if v != Errors.SUCCESS || last >= |senders| then (rows, v)
      else (rows[senders[last] := Unbundle(bufs[last]).value], Errors.SUCCESS)
  }

  /** The buffer deserializes to one message for each thread. */
  predicate Good(n: nat, buf: Bytes) { Unbundle(buf).Accepted? && |Unbundle(buf).value| == n }

  /** The loop looks up no sender past the last: there are no more buffers than senders, or it ends
      on a bad bundle before that.
   */
  predicate InBounds(n: nat, senders: seq<int>, bufs: seq<Bytes>)
  {
    |bufs| <= |senders| || exists k :: 0 <= k <= |senders| && !Good(n, bufs[k])
  }

  /** The answers that the code handles: any error, one buffer for a single receive, and any number of
      buffers for a receive_all as long as the loop stays in bounds.
   */
  predicate OutcomeOk(c: Config, r: nat, o: Outcome)
    requires ConfigOk(c) && r < c.rounds
  {
    match o
    case NetError(e) => e != Errors.SUCCESS
    case NetData(bufs) => if c.many then InBounds(c.n, c.senders[r], bufs) else |bufs| == 1
  }

  /** The rows every sender has before anything is decoded. */
  function Blanks(c: Config, r: nat): map<int, seq<Bytes>>
    requires ConfigOk(c) && r < c.rounds
  {
    map p | p in c.senders[r] :: seq(c.n, _ => [])
  }

  function Rows(c: Config, r: nat, o: Outcome): map<int, seq<Bytes>>
    requires ConfigOk(c) && r < c.rounds
  {
    match o
    case NetError(_) => map[]
    case NetData(bufs) => Blanks(c, r) + Decode(c.n, c.senders[r], bufs).0
  }

  function Verdict(c: Config, r: nat, o: Outcome): int
    requires ConfigOk(c) && r < c.rounds
  {
    match o
    case NetError(e) => e
    case NetData(bufs) => Decode(c.n, c.senders[r], bufs).1
  }

  function Cell(table: map<int, seq<Bytes>>, sender: int, i: nat): Bytes
  {
    if sender in table && i < |table[sender]| then table[sender][i] else []
  }

  /** Thread i's output vector: its own message of every sender, then empty buffers. */
  function Column(c: Config, i: nat, r: nat, table: map<int, seq<Bytes>>): seq<Bytes>
    requires ConfigOk(c) && r < c.rounds && i < c.n
  {
    seq(c.outSize[r][i], k requires 0 <= k < c.outSize[r][i] =>
      if k < |c.senders[r]| then Cell(table, c.senders[r][k], i) else [])
  }

  function Blank(c: Config, i: nat, r: nat): seq<Bytes>
    requires ConfigOk(c) && r < c.rounds && i < c.n
  {
    seq(c.outSize[r][i], _ => [])
  }

  /** What thread i must return from a round that the transport answered with o. */
  function Expected(c: Config, i: nat, r: nat, o: Outcome): Return
    requires ConfigOk(c) && r < c.rounds && i < c.n
  {
    var v := Verdict(c, r, o);
    Return(v, if v == Errors.SUCCESS then Some(Column(c, i, r, Rows(c, r, o)))
              else if i == 0 then None else Some(Blank(c, i, r)))
  }

  // ---------------------------------------------------------------- what the answer says

  /** Bytes after the bundle are a bad argument, anything else is a bad format. */
  ghost function BadCode(buf: Bytes): int
  {
    if Unbundle(buf).Trailing? then Errors.E_BADARG else Errors.E_FORMAT
  }

  ghost predicate FirstBad(n: nat, bufs: seq<Bytes>, k: nat)
  {
    k < |bufs| && !Good(n, bufs[k]) && forall j :: 0 <= j < k ==> Good(n, bufs[j])
  }

  /** Nothing is handed out: thread 0 leaves its output alone, the others clear theirs. */
  ghost predicate NoData(i: nat, size: nat, out: Option<seq<Bytes>>)
  {
    if i == 0 then out == None
    else out.Some? && |out.value| == size && forall k :: 0 <= k < size ==> out.value[k] == []
  }

  /** Bundle m is the last of those answered that came from peer p. */
  ghost predicate LastFrom(senders: seq<int>, count: nat, p: int, m: nat)
  {
    && m < |senders| && m < count && senders[m] == p
    && forall l :: m < l < |senders| && l < count ==> senders[l] != p
  }

  /** Thread i has its own message of every sender that was answered, and empty buffers otherwise. */
  ghost predicate Delivered(c: Config, i: nat, r: nat, bufs: seq<Bytes>, out: seq<Bytes>)
    requires ConfigOk(c) && r < c.rounds && i < c.n
  {
    && |out| == c.outSize[r][i]
    && forall k: nat :: k < |out| ==>
         if k < |c.senders[r]| && c.senders[r][k] in Answering(c.senders[r], |bufs|)
         then exists m: nat :: LastFrom(c.senders[r], |bufs|, c.senders[r][k], m) && Good(c.n, bufs[m])
                               && out[k] == Unbundle(bufs[m]).value[i]
         else out[k] == []
  }

  /** The senders that `count` buffers are taken for. */
  function Answering(senders: seq<int>, count: nat): seq<int>
  {
    if count <= |senders| then senders[..count] else senders
  }

  /** What a call must report when the transport answered with o: the transport's error; or success
      exactly if every bundle is good, and otherwise the code of the first that is not.
   */
  ghost predicate Reports(c: Config, i: nat, r: nat, o: Outcome, ret: Return)
    requires ConfigOk(c) && r < c.rounds && i < c.n
  {
    match o
    case NetError(e) => ret.rv == e && NoData(i, c.outSize[r][i], ret.out)
    case NetData(bufs) =>
      && (ret.rv == Errors.SUCCESS <==> forall k :: 0 <= k < |bufs| ==> Good(c.n, bufs[k]))
      && (forall k: nat :: k < |bufs| && FirstBad(c.n, bufs, k) ==>
            ret.rv == BadCode(bufs[k]))
      && (if ret.rv == Errors.SUCCESS then ret.out.Some? && Delivered(c, i, r, bufs, ret.out.value)
          else NoData(i, c.outSize[r][i], ret.out))
  }

  /** The first code that is not success. */
  function FirstCode(codes: seq<int>): int
  {
    if codes == [] then Errors.SUCCESS
    else
      var last := |codes| - 1;
      var rv := FirstCode(codes[..last]);
      if rv != Errors.SUCCESS then rv else codes[last]
  }

  ghost predicate IsFirst(codes: seq<int>, k: nat)
  {
    k < |codes| && codes[k] != Errors.SUCCESS && forall j :: 0 <= j < k ==> codes[j] == Errors.SUCCESS
  }

  lemma {:induction false} FirstCodeMeans(codes: seq<int>)
    ensures FirstCode(codes) == Errors.SUCCESS <==> forall k :: 0 <= k < |codes| ==> codes[k] == Errors.SUCCESS
    ensures forall k: nat :: IsFirst(codes, k) ==> FirstCode(codes) == codes[k]
    decreases |codes|
  {
    if codes != [] {
      var front := codes[..|codes| - 1];
      FirstCodeMeans(front);
      forall k: nat | IsFirst(codes, k) ensures FirstCode(codes) == codes[k] {
        if k < |front| { assert IsFirst(front, k); }
      }
    }
  }

  lemma {:induction false} DecodeCode(n: nat, senders: seq<int>, bufs: seq<Bytes>, codes: seq<int>)
    requires |codes| == |bufs| && forall k :: 0 <= k < |bufs| ==> codes[k] == BundleVerdict(n, bufs[k])
    ensures Decode(n, senders, bufs).1 == FirstCode(codes)
    decreases |bufs|
  {
    if bufs != [] { DecodeCode(n, senders, bufs[..|bufs| - 1], codes[..|bufs| - 1]); }
  }

  lemma GoodVerdict(n: nat, buf: Bytes)
    ensures BundleVerdict(n, buf) == if Good(n, buf) then Errors.SUCCESS else BadCode(buf)
  {
  }

  lemma DecodeVerdict(n: nat, senders: seq<int>, bufs: seq<Bytes>)
    ensures Decode(n, senders, bufs).1 == Errors.SUCCESS <==> forall k :: 0 <= k < |bufs| ==> Good(n, bufs[k])
    ensures forall k: nat :: k < |bufs| && FirstBad(n, bufs, k) ==> Decode(n, senders, bufs).1 == BadCode(bufs[k])
  {
    var codes := seq(|bufs|, k requires 0 <= k < |bufs| => BundleVerdict(n, bufs[k]));
    DecodeCode(n, senders, bufs, codes);
    FirstCodeMeans(codes);
    CodesMean(n, bufs, codes, FirstCode(codes));
  }

  lemma CodesMean(n: nat, bufs: seq<Bytes>, codes: seq<int>, rv: int)
    requires |codes| == |bufs| && forall k :: 0 <= k < |bufs| ==> codes[k] == BundleVerdict(n, bufs[k])
    requires rv == Errors.SUCCESS <==> forall k :: 0 <= k < |codes| ==> codes[k] == Errors.SUCCESS
    requires forall k: nat :: IsFirst(codes, k) ==> rv == codes[k]
    ensures rv == Errors.SUCCESS <==> forall k :: 0 <= k < |bufs| ==> Good(n, bufs[k])
    ensures forall k: nat :: k < |bufs| && FirstBad(n, bufs, k) ==> rv == BadCode(bufs[k])
  {
    forall k | 0 <= k < |bufs| ensures codes[k] == if Good(n, bufs[k]) then Errors.SUCCESS else BadCode(bufs[k]) {
      GoodVerdict(n, bufs[k]);
    }
    forall k: nat | k < |bufs| && FirstBad(n, bufs, k) ensures rv == BadCode(bufs[k]) { assert IsFirst(codes, k); }
  }

  /** A sender's row is its last bundle's. */
  lemma {:induction false} DecodeLast(n: nat, senders: seq<int>, bufs: seq<Bytes>, p: int, m: nat)
    requires Decode(n, senders, bufs).1 == Errors.SUCCESS && LastFrom(senders, |bufs|, p, m)
    ensures Good(n, bufs[m])
    ensures p in Decode(n, senders, bufs).0 && Decode(n, senders, bufs).0[p] == Unbundle(bufs[m]).value
    decreases |bufs|
  {
    if m < |bufs| - 1 {
      DecodeLast(n, senders, bufs[..|bufs| - 1], p, m);
    }
  }

  lemma {:induction false} SomeLast(senders: seq<int>, count: nat, p: int) returns (m: nat)
    requires p in Answering(senders, count)
    ensures LastFrom(senders, count, p, m)
    decreases count
  {
    if count > |senders| || senders[count - 1] != p {
      m := SomeLast(senders, count - 1, p);
    } else {
      m := count - 1;
    }
  }

  lemma {:induction false} DecodeKeys(n: nat, senders: seq<int>, bufs: seq<Bytes>)
    ensures forall p :: p in Decode(n, senders, bufs).0 ==> p in Answering(senders, |bufs|)
    decreases |bufs|
  {
    if bufs != [] {
      var front := bufs[..|bufs| - 1];
      DecodeKeys(n, senders, front);
      if |bufs| <= |senders| { assert senders[..|bufs|] == senders[..|front|] + [senders[|front|]]; }
    }
  }

  lemma ColumnDelivered(c: Config, i: nat, r: nat, bufs: seq<Bytes>)
    requires ConfigOk(c) && r < c.rounds && i < c.n
    requires Decode(c.n, c.senders[r], bufs).1 == Errors.SUCCESS
    ensures Delivered(c, i, r, bufs, Column(c, i, r, Rows(c, r, NetData(bufs))))
  {
    var senders, rows := c.senders[r], Decode(c.n, c.senders[r], bufs).0;
    var out := Column(c, i, r, Rows(c, r, NetData(bufs)));
    DecodeKeys(c.n, senders, bufs);
    forall k: nat | k < |out| && k < |senders| && senders[k] in Answering(senders, |bufs|)
      ensures exists m: nat :: LastFrom(senders, |bufs|, senders[k], m) && Good(c.n, bufs[m])
                               && out[k] == Unbundle(bufs[m]).value[i]
    {
      var m := SomeLast(senders, |bufs|, senders[k]);
      DecodeLast(c.n, senders, bufs, senders[k], m);
      assert out[k] == rows[senders[k]][i];
    }
  }

  /** The expected return is the one the answer calls for. */
  lemma ExpectedReports(c: Config, i: nat, r: nat, o: Outcome)
    requires ConfigOk(c) && r < c.rounds && i < c.n && OutcomeOk(c, r, o)
    ensures Reports(c, i, r, o, Expected(c, i, r, o))
  {
    if o.NetData? {
      DecodeVerdict(c.n, c.senders[r], o.bufs);
      if Verdict(c, r, o) == Errors.SUCCESS { ColumnDelivered(c, i, r, o.bufs); }
    }
  }

  // ---------------------------------------------------------------- steps

  predicate WellFormed(c: Config, s: State)
  {
    && B.WellFormed(Shape(c), s.b)
    && |s.local| == |s.out| == |s.log| == c.n
    && (forall i :: 0 <= i < c.n && s.b.pc[i] != B.Gate ==> s.b.round[i] < c.rounds)
  }

  predicate Enabled(c: Config, s: State, i: nat)
    requires ConfigOk(c) && WellFormed(c, s) && i < c.n
  {
    B.Enabled(Shape(c), s.b, i)
  }

  function Move(c: Config, s: State, i: nat, to: B.Pc): State
    requires ConfigOk(c) && WellFormed(c, s) && i < c.n
  {
    s.(b := B.Next(Shape(c), s.b, i, to))
  }

  /** Thread 0 between its wait and its release. */
  function WorkStep(c: Config, s: State, k: nat, o: Outcome): State
    requires ConfigOk(c) && WellFormed(c, s) && s.b.pc[0] == B.Work(k)
    requires OutcomeOk(c, s.b.round[0], o)
  {
    var senders := c.senders[s.b.round[0]];
    if k == 0 then
      Move(c, s, 0, B.Work(1)).(
        table := s.table + Blanks(c, s.b.round[0]), failure := Errors.SUCCESS)
    else if k == 1 then
      match o
      case NetError(e) => Move(c, s, 0, B.Release).(net := s.net + [o], failure := e)
      case NetData(bufs) => Move(c, s, 0, B.Work(2)).(net := s.net + [o], fetched := bufs)
    else if k == 2 then
      var (rows, rv) := Decode(c.n, senders, s.fetched);
      Move(c, s, 0, B.Release).(table := s.table + rows, failure := rv)
    else s
  }

  /** Thread 0 publishes the verdict; on an error it returns without the read steps. */
  function ReleaseStep(c: Config, s: State): State
    requires ConfigOk(c) && WellFormed(c, s)
  {
    if s.failure == Errors.SUCCESS then Move(c, s, 0, B.Read(0)).(lastRv := Errors.SUCCESS)
    else Move(c, s, 0, B.CountDown).(lastRv := s.failure, local := s.local[0 := s.failure], out := s.out[0 := None])
  }

  function ReadStep(c: Config, s: State, i: nat, k: nat): State
    requires ConfigOk(c) && WellFormed(c, s) && i < c.n && s.b.pc[i] == B.Read(k)
  {
    if k == 0 then Move(c, s, i, B.Read(1)).(local := s.local[i := s.lastRv])
    else
      var v := if s.local[i] == Errors.SUCCESS then Column(c, i, s.b.round[i], s.table) else Blank(c, i, s.b.round[i]);
      Move(c, s, i, B.CountDown).(out := s.out[i := Some(v)])
  }

  /** One step of thread i; o is the transport's answer, used by thread 0's fetch alone. */
  function Next(c: Config, s: State, i: nat, o: Outcome): State
    requires ConfigOk(c) && WellFormed(c, s) && i < c.n
    requires s.b.round[i] < c.rounds ==> OutcomeOk(c, s.b.round[i], o)
  {
    match s.b.pc[i]
    case Gate => Move(c, s, i, B.Bump)
    case Bump => Move(c, s, i, if i == 0 then B.WaitAll else B.WaitDone)
    case WaitAll => Move(c, s, i, B.Work(0))
    case Work(k) => if i == 0 then WorkStep(c, s, k, o) else s
    case Release => ReleaseStep(c, s)
    case WaitDone =>
      if c.many then Move(c, s, i, B.Read(0))
      else Move(c, s, i, B.Read(1)).(local := s.local[i := s.lastRv])
    case Read(k) => ReadStep(c, s, i, k)
    case CountDown => Move(c, s, i, B.Gate).(log := s.log[i := s.log[i] + [Return(s.local[i], s.out[i])]])
    case Deposit => s
  }

  // ---------------------------------------------------------------- the invariant

  function Fetches(s: State, ph: B.Phase, r: nat): nat
    requires |s.b.pc| > 0
  {
    match ph
    case Gathering => r
    case Working => if s.b.pc[0] in {B.Work(0), B.Work(1)} then r else r + 1
    case Draining => r + 1
  }

  predicate NetOk(c: Config, s: State)
    requires ConfigOk(c)
  {
    |s.net| <= c.rounds && forall k :: 0 <= k < |s.net| ==> OutcomeOk(c, k, s.net[k])
  }

  /** Every return so far is the expected one. */
  predicate LogOk(c: Config, s: State, i: nat)
    requires ConfigOk(c) && NetOk(c, s) && i < c.n && i < |s.log| && i < |s.b.round|
  {
    |s.log[i]| == s.b.round[i] <= |s.net|
    && forall k :: 0 <= k < |s.log[i]| ==> s.log[i][k] == Expected(c, i, k, s.net[k])
  }

  /** The table holds the decoded rows of every sender of the round. */
  predicate TableOk(c: Config, s: State, r: nat)
    requires ConfigOk(c) && r < c.rounds
  {
    r < |s.net| && OutcomeOk(c, r, s.net[r]) &&
    var rows := Rows(c, r, s.net[r]);
    rows.Keys <= s.table.Keys && (forall p :: p in rows ==> s.table[p] == rows[p])
    && (forall k :: 0 <= k < |c.senders[r]| ==> c.senders[r][k] in rows)
  }

  /** Every sender of the round has its blank row. */
  predicate Blanked(c: Config, s: State, r: nat)
    requires ConfigOk(c) && r < c.rounds
  {
    forall p :: p in Blanks(c, r) ==> p in s.table && s.table[p] == Blanks(c, r)[p]
  }

  predicate ThreadOk(c: Config, s: State, i: nat, r: nat)
    requires ConfigOk(c) && WellFormed(c, s) && i < c.n && r < c.rounds && r < |s.net| && OutcomeOk(c, r, s.net[r])
  {
    && (s.b.pc[i] == B.Read(1) ==> s.local[i] == s.lastRv)
    && (s.b.pc[i] == B.CountDown ==> Return(s.local[i], s.out[i]) == Expected(c, i, r, s.net[r]))
    && (i == 0 && s.b.pc[i].Read? ==> s.lastRv == Errors.SUCCESS)
  }

  predicate DataOk(c: Config, s: State, ph: B.Phase, r: nat)
    requires ConfigOk(c) && WellFormed(c, s) && NetOk(c, s)
  {
    match ph
    case Gathering => true
    case Working =>
      && r < c.rounds
      && (s.b.pc[0] == B.Work(1) ==> s.failure == Errors.SUCCESS)
      && (s.b.pc[0] in {B.Work(1), B.Work(2)} ==> Blanked(c, s, r))
      && (s.b.pc[0] == B.Work(2) ==> r < |s.net| && s.net[r] == NetData(s.fetched))
      && (s.b.pc[0] == B.Release ==> r < |s.net| && s.failure == Verdict(c, r, s.net[r])
                                     && (s.failure == Errors.SUCCESS ==> TableOk(c, s, r)))
    case Draining =>
      && r < c.rounds && r < |s.net|
      && s.lastRv == Verdict(c, r, s.net[r]) && (s.lastRv == Errors.SUCCESS ==> TableOk(c, s, r))
      && (forall i :: 0 <= i < c.n && s.b.round[i] == r ==> ThreadOk(c, s, i, r))
  }

  predicate Inv(c: Config, s: State, ph: B.Phase, r: nat)
  {
    && ConfigOk(c) && WellFormed(c, s)
    && B.InPhase(Shape(c), s.b, ph, r) && r <= c.rounds
    && |s.net| == Fetches(s, ph, r) && NetOk(c, s)
    && (forall i :: 0 <= i < c.n ==> LogOk(c, s, i))
    && DataOk(c, s, ph, r)
  }

  lemma InitInv(c: Config)
    requires ConfigOk(c)
    ensures Inv(c, Init(c), B.Gathering, 0)
  {
    B.InitPhase(Shape(c));
  }

  // ---------------------------------------------------------------- every step keeps the invariant

  lemma {:induction false} DecodedRowsFull(n: nat, senders: seq<int>, bufs: seq<Bytes>)
    ensures forall p :: p in Decode(n, senders, bufs).0 ==> |Decode(n, senders, bufs).0[p]| == n
    decreases |bufs|
  {
    if bufs != [] { DecodedRowsFull(n, senders, bufs[..|bufs| - 1]); }
  }

  lemma {:induction false} DecodedSenders(n: nat, senders: seq<int>, bufs: seq<Bytes>, k: nat)
    requires Decode(n, senders, bufs).1 == Errors.SUCCESS && k < |senders| && k < |bufs|
    ensures senders[k] in Decode(n, senders, bufs).0
    decreases |bufs|
  {
    if k < |bufs| - 1 { DecodedSenders(n, senders, bufs[..|bufs| - 1], k); }
  }

  /** Decoded rows are full, and every sender that was answered has one if no bundle was bad. */
  lemma DecodeRows(n: nat, senders: seq<int>, bufs: seq<Bytes>)
    ensures var (rows, rv) := Decode(n, senders, bufs);
            && (forall p :: p in rows ==> |rows[p]| == n)
            && (rv == Errors.SUCCESS ==> forall k :: 0 <= k < |senders| && k < |bufs| ==> senders[k] in rows)
  {
    DecodedRowsFull(n, senders, bufs);
    var (rows, rv) := Decode(n, senders, bufs);
    if rv == Errors.SUCCESS {
      forall k | 0 <= k < |senders| && k < |bufs| ensures senders[k] in rows { DecodedSenders(n, senders, bufs, k); }
    }
  }

  /** A good bundle after good bundles adds its row. */
  lemma DecodeNext(n: nat, senders: seq<int>, bufs: seq<Bytes>, q: nat, row: seq<Bytes>)
    requires 0 < q <= |bufs| && q <= |senders|
    requires Decode(n, senders, bufs[..q - 1]).1 == Errors.SUCCESS
    requires Unbundle(bufs[q - 1]) == Accepted(row) && |row| == n
    ensures Decode(n, senders, bufs[..q]) ==
            (Decode(n, senders, bufs[..q - 1]).0[senders[q - 1] := row], Errors.SUCCESS)
  {
    assert bufs[..q][..q - 1] == bufs[..q - 1];
  }

  /** A bad bundle ends the loop. */
  lemma {:induction false} DecodeStops(n: nat, senders: seq<int>, bufs: seq<Bytes>, k: nat)
    requires k <= |bufs| && Decode(n, senders, bufs[..k]).1 != Errors.SUCCESS
    ensures Decode(n, senders, bufs) == Decode(n, senders, bufs[..k])
    decreases |bufs|
  {
    if k < |bufs| {
      assert bufs[..|bufs| - 1][..k] == bufs[..k];
      DecodeStops(n, senders, bufs[..|bufs| - 1], k);
    } else {
      assert bufs[..k] == bufs;
    }
  }

  /** The loop itself: it goes past the last sender exactly when more bundles than senders are good. */
  method DecodeAll(n: nat, senders: seq<int>, bufs: seq<Bytes>)
    returns (inBounds: bool, rows: map<int, seq<Bytes>>, rv: int)
    ensures inBounds <==> InBounds(n, senders, bufs)
    ensures inBounds ==> (rows, rv) == Decode(n, senders, bufs)
  {
    rows, rv, inBounds := map[], Errors.SUCCESS, true;
    for i := 0 to |bufs|
      invariant i <= |senders| && (rows, Errors.SUCCESS) == Decode(n, senders, bufs[..i])
    {
      DecodeMore(n, senders, bufs, i);
      rv := BundleVerdict(n, bufs[i]);
      if rv != Errors.SUCCESS {
        StoppedInBounds(n, senders, bufs, i);
        return;
      }
      if i >= |senders| {
        PastTheSenders(n, senders, bufs);
        return false, rows, rv;
      }
      rows := rows[senders[i] := Unbundle(bufs[i]).value];
    }
    rv := Errors.SUCCESS;
    assert bufs[..|bufs|] == bufs;
  }

  /** One more buffer after good ones. */
  lemma DecodeMore(n: nat, senders: seq<int>, bufs: seq<Bytes>, i: nat)
    requires i < |bufs| && Decode(n, senders, bufs[..i]).1 == Errors.SUCCESS
    ensures var rows, v := Decode(n, senders, bufs[..i]).0, BundleVerdict(n, bufs[i]);
            Decode(n, senders, bufs[..i + 1]) ==
            if v != Errors.SUCCESS || i >= |senders| then (rows, v)
            else (rows[senders[i] := Unbundle(bufs[i]).value], Errors.SUCCESS)
  {
    assert bufs[..i + 1][..i] == bufs[..i];
  }

  lemma PastTheSenders(n: nat, senders: seq<int>, bufs: seq<Bytes>)
    requires |senders| < |bufs| && Decode(n, senders, bufs[..|senders|]).1 == Errors.SUCCESS
    requires BundleVerdict(n, bufs[|senders|]) == Errors.SUCCESS
    ensures !InBounds(n, senders, bufs)
  {
    var front := bufs[..|senders|];
    DecodeVerdict(n, senders, front);
    GoodVerdict(n, bufs[|senders|]);
    forall k | 0 <= k <= |senders| ensures Good(n, bufs[k]) {
      if k < |senders| { assert Good(n, front[k]); }
    }
  }

  lemma StoppedInBounds(n: nat, senders: seq<int>, bufs: seq<Bytes>, i: nat)
    requires i < |bufs| && i <= |senders| && Decode(n, senders, bufs[..i + 1]).1 != Errors.SUCCESS
    ensures InBounds(n, senders, bufs) && Decode(n, senders, bufs) == Decode(n, senders, bufs[..i + 1])
  {
    DecodeStops(n, senders, bufs, i + 1);
    DecodeVerdict(n, senders, bufs[..i + 1]);
    var k :| 0 <= k < i + 1 && !Good(n, bufs[..i + 1][k]);
    assert !Good(n, bufs[k]);
  }

  /** Every bundle is good and holds its row. */
  predicate Bundled(n: nat, rows: seq<seq<Bytes>>, bufs: seq<Bytes>)
  {
    |rows| == |bufs| && forall k :: 0 <= k < |bufs| ==> |rows[k]| == n && Unbundle(bufs[k]) == Accepted(rows[k])
  }

  predicate AllDifferent(s: seq<int>) { forall i, j :: 0 <= i < j < |s| ==> s[i] != s[j] }

  /** The first m senders have their rows. */
  predicate Holding(senders: seq<int>, rows: seq<seq<Bytes>>, m: nat, table: map<int, seq<Bytes>>)
    requires m <= |senders| && m <= |rows|
  {
    forall k :: 0 <= k < m ==> senders[k] in table && table[senders[k]] == rows[k]
  }

  lemma HoldingNext(senders: seq<int>, rows: seq<seq<Bytes>>, m: nat, table: map<int, seq<Bytes>>)
    requires m < |senders| && m < |rows| && AllDifferent(senders) && Holding(senders, rows, m, table)
    ensures Holding(senders, rows, m + 1, table[senders[m] := rows[m]])
  {
  }

  lemma {:induction false} BundledDecode(n: nat, senders: seq<int>, rows: seq<seq<Bytes>>, bufs: seq<Bytes>, m: nat)
    requires Bundled(n, rows, bufs) && m <= |bufs| && m <= |senders| && AllDifferent(senders)
    ensures var d := Decode(n, senders, bufs[..m]); d.1 == Errors.SUCCESS && Holding(senders, rows, m, d.0)
    decreases m
  {
    if m > 0 {
      BundledDecode(n, senders, rows, bufs, m - 1);
      DecodeNext(n, senders, bufs, m, rows[m - 1]);
      HoldingNext(senders, rows, m - 1, Decode(n, senders, bufs[..m - 1]).0);
    }
  }

  /** The messages of thread i. */
  function Picked(rows: seq<seq<Bytes>>, i: nat): seq<Bytes>
    requires forall k :: 0 <= k < |rows| ==> i < |rows[k]|
  {
    seq(|rows|, k requires 0 <= k < |rows| => rows[k][i])
  }

  /** What a call returns when every sender's bundle is good. */
  lemma BundledExpected(c: Config, i: nat, r: nat, bufs: seq<Bytes>, rows: seq<seq<Bytes>>)
    requires ConfigOk(c) && r < c.rounds && i < c.n && Bundled(c.n, rows, bufs)
    requires AllDifferent(c.senders[r]) && |bufs| == |c.senders[r]| == c.outSize[r][i]
    ensures Expected(c, i, r, NetData(bufs)) == Return(Errors.SUCCESS, Some(Picked(rows, i)))
  {
    BundledDecode(c.n, c.senders[r], rows, bufs, |bufs|);
    assert bufs[..|bufs|] == bufs;
    var col := Column(c, i, r, Rows(c, r, NetData(bufs)));
    forall k | 0 <= k < |rows| ensures col[k] == rows[k][i] {
      assert c.senders[r][k] in Decode(c.n, c.senders[r], bufs).0;
    }
    assert col == Picked(rows, i);
  }

  /** A short answer passes: the senders that are missing from it look as if they had sent nothing. */
  lemma MissingAreEmpty(c: Config, i: nat, r: nat, bufs: seq<Bytes>, k: nat)
    requires ConfigOk(c) && r < c.rounds && i < c.n && Verdict(c, r, NetData(bufs)) == Errors.SUCCESS
    requires |bufs| <= k < |c.senders[r]| && k < c.outSize[r][i] && c.senders[r][k] !in c.senders[r][..|bufs|]
    ensures var ret := Expected(c, i, r, NetData(bufs));
            ret.rv == Errors.SUCCESS && ret.out.Some? && ret.out.value[k] == []
  {
    DecodeKeys(c.n, c.senders[r], bufs);
    assert c.senders[r][k] in Blanks(c, r);
  }

  /** The control part of a step is a step of the barrier. */
  lemma StepFollows(c: Config, s: State, i: nat, o: Outcome, ph: B.Phase, r: nat)
    requires Inv(c, s, ph, r) && i < c.n && Enabled(c, s, i)
    requires s.b.round[i] < c.rounds ==> OutcomeOk(c, s.b.round[i], o)
    ensures var b' := Next(c, s, i, o).b;
            |b'.pc| == c.n && B.Follows(Shape(c), i, s.b.pc[i], b'.pc[i])
            && b' == B.Next(Shape(c), s.b, i, b'.pc[i])
  {
    B.PositionOk(Shape(c), s.b, ph, r, i);
    assert i == 0 || !s.b.pc[i].Work?;
  }

  lemma ControlStep(c: Config, s: State, i: nat, o: Outcome, ph: B.Phase, r: nat)
    requires Inv(c, s, ph, r) && i < c.n && Enabled(c, s, i)
    requires s.b.round[i] < c.rounds ==> OutcomeOk(c, s.b.round[i], o)
    ensures var (ph', r') := B.NextPhase(Shape(c), s.b, i, ph, r);
            var b' := Next(c, s, i, o).b;
            B.WellFormed(Shape(c), b') && B.InPhase(Shape(c), b', ph', r') && r' <= c.rounds
    ensures var b' := Next(c, s, i, o).b;
            B.Measure(Shape(c), b') < B.Measure(Shape(c), s.b)
  {
    StepFollows(c, s, i, o, ph, r);
    var b' := Next(c, s, i, o).b;
    B.PhaseStep(Shape(c), s.b, i, b'.pc[i], ph, r);
    B.MeasureStep(Shape(c), s.b, i, b'.pc[i], ph, r);
  }

  predicate LogsOk(c: Config, s: State)
    requires ConfigOk(c) && NetOk(c, s)
  {
    |s.log| == |s.b.round| == c.n && forall i :: 0 <= i < c.n ==> LogOk(c, s, i)
  }

  /** Returns stay right while nobody returns. */
  lemma LogsKept(c: Config, s: State, s': State)
    requires ConfigOk(c) && NetOk(c, s) && NetOk(c, s') && LogsOk(c, s)
    requires s'.log == s.log && s'.b.round == s.b.round && s.net <= s'.net
    ensures LogsOk(c, s')
  {
    forall j | 0 <= j < c.n ensures LogOk(c, s', j) { assert LogOk(c, s, j); }
  }

  lemma GatheringStep(c: Config, s: State, i: nat, o: Outcome, r: nat)
    requires Inv(c, s, B.Gathering, r) && i < c.n && Enabled(c, s, i)
    requires s.b.round[i] < c.rounds ==> OutcomeOk(c, s.b.round[i], o)
    ensures var (ph', r') := B.NextPhase(Shape(c), s.b, i, B.Gathering, r); Inv(c, Next(c, s, i, o), ph', r')
  {
    ControlStep(c, s, i, o, B.Gathering, r);
    LogsKept(c, s, Next(c, s, i, o));
  }

  lemma FetchStep(c: Config, s: State, o: Outcome, r: nat)
    requires Inv(c, s, B.Working, r) && s.b.pc[0] in {B.Work(0), B.Work(1)} && OutcomeOk(c, r, o)
    ensures Inv(c, Next(c, s, 0, o), B.Working, r)
  {
    ControlStep(c, s, 0, o, B.Working, r);
    LogsKept(c, s, Next(c, s, 0, o));
  }

  /** The table once all bundles of a round are decoded. */
  lemma DecodedTable(c: Config, s: State, s': State, r: nat, bufs: seq<Bytes>)
    requires ConfigOk(c) && r < c.rounds && Blanked(c, s, r)
    requires r < |s'.net| && s'.net[r] == NetData(bufs) && OutcomeOk(c, r, s'.net[r])
    requires s'.table == s.table + Decode(c.n, c.senders[r], bufs).0
    ensures TableOk(c, s', r)
  {
    var decoded := Decode(c.n, c.senders[r], bufs).0;
    var rows := Blanks(c, r) + decoded;
    assert rows == Rows(c, r, s'.net[r]);
    forall p | p in rows ensures p in s'.table && s'.table[p] == rows[p] {
      assert p in decoded || p in Blanks(c, r);
    }
    assert forall k :: 0 <= k < |c.senders[r]| ==> c.senders[r][k] in Blanks(c, r);
  }

  lemma DecodeStep(c: Config, s: State, o: Outcome, r: nat)
    requires Inv(c, s, B.Working, r) && s.b.pc[0] == B.Work(2) && OutcomeOk(c, r, o)
    ensures Inv(c, Next(c, s, 0, o), B.Working, r)
  {
    ControlStep(c, s, 0, o, B.Working, r);
    var s' := Next(c, s, 0, o);
    DecodedTable(c, s, s', r, s.fetched);
    LogsKept(c, s, s');
  }

  lemma PublishData(c: Config, s: State, o: Outcome, r: nat)
    requires Inv(c, s, B.Working, r) && s.b.pc[0] == B.Release && OutcomeOk(c, r, o)
    ensures var s' := Next(c, s, 0, o);
            && s'.net == s.net && s'.lastRv == Verdict(c, r, s.net[r]) && |s'.local| == |s'.out| == c.n
            && (s'.lastRv == Errors.SUCCESS ==> s'.b.pc[0] == B.Read(0))
            && (s'.lastRv != Errors.SUCCESS ==>
                  s'.b.pc[0] == B.CountDown && Return(s'.local[0], s'.out[0]) == Expected(c, 0, r, s.net[r]))
  {
  }

  lemma PublishStep(c: Config, s: State, o: Outcome, r: nat)
    requires Inv(c, s, B.Working, r) && s.b.pc[0] == B.Release && OutcomeOk(c, r, o)
    ensures Inv(c, Next(c, s, 0, o), B.Draining, r)
  {
    ControlStep(c, s, 0, o, B.Working, r);
    var s' := Next(c, s, 0, o);
    LogsKept(c, s, s');
    PublishData(c, s, o, r);
    assert s.failure == Errors.SUCCESS ==> TableOk(c, s, r) && TableOk(c, s', r);
    forall j | 0 <= j < c.n ensures ThreadOk(c, s', j, r) {
      if j > 0 { assert s'.b.pc[j] == s.b.pc[j] == B.WaitDone; }
    }
  }

  lemma WorkingStep(c: Config, s: State, i: nat, o: Outcome, r: nat)
    requires Inv(c, s, B.Working, r) && i < c.n && Enabled(c, s, i)
    requires s.b.round[i] < c.rounds ==> OutcomeOk(c, s.b.round[i], o)
    ensures var (ph', r') := B.NextPhase(Shape(c), s.b, i, B.Working, r); Inv(c, Next(c, s, i, o), ph', r')
  {
    assert i == 0 && s.b.round[0] == r;
    if s.b.pc[0] == B.Release { PublishStep(c, s, o, r); }
    else if s.b.pc[0] == B.Work(2) { DecodeStep(c, s, o, r); }
    else { FetchStep(c, s, o, r); }
  }

  /** The table gives thread i the column of the decoded rows. */
  lemma ColumnFromTable(c: Config, s: State, i: nat, r: nat)
    requires ConfigOk(c) && r < c.rounds && i < c.n && TableOk(c, s, r)
    ensures Column(c, i, r, s.table) == Column(c, i, r, Rows(c, r, s.net[r]))
  {
  }

  lemma ReaderOk(c: Config, s: State, i: nat, o: Outcome, r: nat)
    requires Inv(c, s, B.Draining, r) && i < c.n && Enabled(c, s, i) && s.b.round[i] == r
    requires s.b.pc[i] != B.CountDown && OutcomeOk(c, r, o)
    ensures var s' := Next(c, s, i, o);
            WellFormed(c, s') && s'.net == s.net && ThreadOk(c, s', i, r)
  {
    ControlStep(c, s, i, o, B.Draining, r);
    assert ThreadOk(c, s, i, r);
    if s.b.pc[i] == B.Read(1) && s.lastRv == Errors.SUCCESS { ColumnFromTable(c, s, i, r); }
  }

  /** A thread's step past the barrier changes the data of that thread alone. */
  lemma OthersKept(c: Config, s: State, i: nat, o: Outcome, r: nat)
    requires ConfigOk(c) && WellFormed(c, s) && i < c.n && s.b.round[i] == r < c.rounds && OutcomeOk(c, r, o)
    requires s.b.pc[i] in {B.WaitDone, B.CountDown} || s.b.pc[i].Read?
    ensures var s' := Next(c, s, i, o);
            && s'.net == s.net && s'.table == s.table && s'.lastRv == s.lastRv
            && |s'.b.pc| == |s'.b.round| == |s'.local| == |s'.out| == |s'.log| == c.n
            && forall j :: 0 <= j < c.n && j != i ==>
                 s'.b.pc[j] == s.b.pc[j] && s'.b.round[j] == s.b.round[j] && s'.local[j] == s.local[j]
                 && s'.out[j] == s.out[j] && s'.log[j] == s.log[j]
  {
  }

  /** A thread nothing happened to is as right as before. */
  lemma SameThread(c: Config, s: State, s': State, j: nat, r: nat)
    requires ConfigOk(c) && WellFormed(c, s) && WellFormed(c, s') && NetOk(c, s) && j < c.n && r < c.rounds
    requires s'.net == s.net && s'.lastRv == s.lastRv && r < |s.net|
    requires s'.b.pc[j] == s.b.pc[j] && s'.b.round[j] == s.b.round[j] && s'.local[j] == s.local[j]
    requires s'.out[j] == s.out[j] && s'.log[j] == s.log[j]
    requires LogOk(c, s, j) && (s.b.round[j] == r ==> ThreadOk(c, s, j, r))
    ensures LogOk(c, s', j) && (s'.b.round[j] == r ==> ThreadOk(c, s', j, r))
  {
  }

  lemma OthersOk(c: Config, s: State, i: nat, o: Outcome, r: nat)
    requires Inv(c, s, B.Draining, r) && i < c.n && Enabled(c, s, i) && s.b.round[i] == r && OutcomeOk(c, r, o)
    ensures var s' := Next(c, s, i, o);
            && WellFormed(c, s') && s'.net == s.net
            && forall j :: 0 <= j < c.n && j != i ==>
                 LogOk(c, s', j) && (s'.b.round[j] == r ==> ThreadOk(c, s', j, r))
  {
    ControlStep(c, s, i, o, B.Draining, r);
    OthersKept(c, s, i, o, r);
    var s' := Next(c, s, i, o);
    forall j | 0 <= j < c.n && j != i
      ensures LogOk(c, s', j) && (s'.b.round[j] == r ==> ThreadOk(c, s', j, r))
    {
      assert LogOk(c, s, j) && (s.b.round[j] == r ==> ThreadOk(c, s, j, r));
      SameThread(c, s, s', j, r);
    }
  }

  /** The caller's return is the expected one, so the log stays right. */
  lemma ReturnStep(c: Config, s: State, i: nat, o: Outcome, r: nat)
    requires Inv(c, s, B.Draining, r) && i < c.n && s.b.pc[i] == B.CountDown && OutcomeOk(c, r, o)
    ensures var s' := Next(c, s, i, o);
            && WellFormed(c, s') && s'.net == s.net
            && (forall j :: 0 <= j < c.n ==> LogOk(c, s', j))
            && (forall j :: 0 <= j < c.n && s'.b.round[j] == r ==> ThreadOk(c, s', j, r))
  {
    assert s.b.round[i] == r && LogOk(c, s, i) && ThreadOk(c, s, i, r);
    OthersOk(c, s, i, o, r);
    assert LogOk(c, Next(c, s, i, o), i);
  }

  lemma PickUpStep(c: Config, s: State, i: nat, o: Outcome, r: nat)
    requires Inv(c, s, B.Draining, r) && i < c.n && Enabled(c, s, i) && s.b.round[i] == r
    requires s.b.pc[i] != B.CountDown && OutcomeOk(c, r, o)
    ensures Inv(c, Next(c, s, i, o), B.Draining, r)
  {
    ControlStep(c, s, i, o, B.Draining, r);
    ReaderOk(c, s, i, o, r);
    OthersOk(c, s, i, o, r);
    assert LogOk(c, s, i) && LogOk(c, Next(c, s, i, o), i);
  }

  lemma DrainingStep(c: Config, s: State, i: nat, o: Outcome, r: nat)
    requires Inv(c, s, B.Draining, r) && i < c.n && Enabled(c, s, i)
    requires s.b.round[i] < c.rounds ==> OutcomeOk(c, s.b.round[i], o)
    ensures var (ph', r') := B.NextPhase(Shape(c), s.b, i, B.Draining, r); Inv(c, Next(c, s, i, o), ph', r')
  {
    assert s.b.round[i] == r;
    if s.b.pc[i] == B.CountDown {
      ReturnStep(c, s, i, o, r);
      ControlStep(c, s, i, o, B.Draining, r);
    } else {
      PickUpStep(c, s, i, o, r);
    }
  }

  /** Every step of every thread keeps the invariant, whatever the transport answers. */
  lemma InvStep(c: Config, s: State, i: nat, o: Outcome, ph: B.Phase, r: nat)
    requires Inv(c, s, ph, r) && i < c.n && Enabled(c, s, i)
    requires s.b.round[i] < c.rounds ==> OutcomeOk(c, s.b.round[i], o)
    ensures var (ph', r') := B.NextPhase(Shape(c), s.b, i, ph, r); Inv(c, Next(c, s, i, o), ph', r')
  {
    match ph
    case Gathering => GatheringStep(c, s, i, o, r);
    case Working => WorkingStep(c, s, i, o, r);
    case Draining => DrainingStep(c, s, i, o, r);
  }

  /** A thread about to read its message finds a full row of every sender in the table. */
  lemma ReadsInBounds(c: Config, s: State, i: nat, ph: B.Phase, r: nat, k: nat)
    requires Inv(c, s, ph, r) && i < c.n && s.b.pc[i] == B.Read(1) && s.local[i] == Errors.SUCCESS
    requires k < |c.senders[s.b.round[i]]|
    ensures var p := c.senders[s.b.round[i]][k]; p in s.table && i < |s.table[p]|
  {
    assert ph == B.Draining && s.b.round[i] == r && ThreadOk(c, s, i, r);
    match s.net[r]
    case NetError(_) =>
    case NetData(bufs) => DecodeRows(c.n, c.senders[r], bufs);
  }

  // ---------------------------------------------------------------- whole runs

  /** One move: which thread, and what the transport answers if the move fetches. */
  datatype Step = Step(thread: nat, answer: Outcome)

  predicate Legal(c: Config, s: State, e: Step)
    requires ConfigOk(c) && WellFormed(c, s)
  {
    e.thread < c.n && Enabled(c, s, e.thread)
    && (s.b.round[e.thread] < c.rounds ==> OutcomeOk(c, s.b.round[e.thread], e.answer))
  }

  function Run(c: Config, steps: seq<Step>): (o: Option<State>)
    requires ConfigOk(c)
    ensures o.Some? ==> WellFormed(c, o.value)
    decreases |steps|
  {
    if steps == [] then InitInv(c); Some(Init(c))
    else
      var last := |steps| - 1;
      var before, e := Run(c, steps[..last]), steps[last];
      if before.None? || !Legal(c, before.value, e) then None
      else
        var s := Next(c, before.value, e.thread, e.answer);
        if WellFormed(c, s) then Some(s) else None
  }

  lemma {:induction false} RunInv(c: Config, steps: seq<Step>) returns (ph: B.Phase, r: nat)
    requires ConfigOk(c) && Run(c, steps).Some?
    ensures Inv(c, Run(c, steps).value, ph, r)
    ensures B.Measure(Shape(c), Run(c, steps).value.b) + |steps| <= B.Measure(Shape(c), Init(c).b)
    decreases |steps|
  {
    if steps == [] {
      InitInv(c);
      return B.Gathering, 0;
    }
    var last := |steps| - 1;
    var s, e := Run(c, steps[..last]).value, steps[last];
    var ph0, r0 := RunInv(c, steps[..last]);
    InvStep(c, s, e.thread, e.answer, ph0, r0);
    ControlStep(c, s, e.thread, e.answer, ph0, r0);
    var next := B.NextPhase(Shape(c), s.b, e.thread, ph0, r0);
    ph, r := next.0, next.1;
  }

  /** In every run, with any mix of transport errors and malformed bundles, every call returns
      what its round's answer calls for: the error of the transport, or success and the messages if
      every bundle is good, or the code of the first that is not. The N threads of a round return the
      same code; and
      whenever nobody is inside a call both counters are 0, so the next round can start. */
  lemma ReceiveRunSafe(c: Config, steps: seq<Step>)
    requires ConfigOk(c) && Run(c, steps).Some?
    ensures var s := Run(c, steps).value;
            && NetOk(c, s)
            && (forall i :: 0 <= i < c.n ==> LogOk(c, s, i))
            && (forall i :: 0 <= i < c.n ==> AllReport(c, s, i))
            && (forall i, j, k :: 0 <= i < c.n && 0 <= j < c.n && 0 <= k < |s.log[i]| && k < |s.log[j]| ==>
                  s.log[i][k].rv == s.log[j][k].rv)
            && ((forall i :: 0 <= i < c.n ==> s.b.pc[i] == B.Gate) ==> s.b.active == 0 && s.b.ready == 0)
  {
    var s := Run(c, steps).value;
    var ph, r := RunInv(c, steps);
    if forall i :: 0 <= i < c.n ==> s.b.pc[i] == B.Gate {
      B.CountersReset(Shape(c), s.b, ph, r);
    }
    forall i, j, k | 0 <= i < c.n && 0 <= j < c.n && 0 <= k < |s.log[i]| && k < |s.log[j]|
      ensures s.log[i][k].rv == s.log[j][k].rv
    {
      assert LogOk(c, s, i) && LogOk(c, s, j);
    }
    forall i | 0 <= i < c.n ensures AllReport(c, s, i) {
      assert LogOk(c, s, i);
      LogReports(c, s, i);
    }
  }

  /** Every call thread i has returned from reported what its round was answered. */
  ghost predicate AllReport(c: Config, s: State, i: nat)
    requires ConfigOk(c) && i < c.n && i < |s.log|
  {
    |s.log[i]| <= |s.net| && |s.net| <= c.rounds &&
    forall k :: 0 <= k < |s.log[i]| ==> Reports(c, i, k, s.net[k], s.log[i][k])
  }

  lemma LogReports(c: Config, s: State, i: nat)
    requires ConfigOk(c) && NetOk(c, s) && i < c.n && i < |s.log| && i < |s.b.round| && LogOk(c, s, i)
    ensures AllReport(c, s, i)
  {
    forall k | 0 <= k < |s.log[i]| ensures Reports(c, i, k, s.net[k], s.log[i][k]) {
      ExpectedReports(c, i, k, s.net[k]);
    }
  }

  /** Receive rounds always finish, on errors too. */
  lemma ReceiveRunLive(c: Config, steps: seq<Step>)
    requires ConfigOk(c) && Run(c, steps).Some?
    ensures |steps| <= B.Measure(Shape(c), Init(c).b)
    ensures var s := Run(c, steps).value;
            (forall i :: 0 <= i < c.n ==> !Enabled(c, s, i)) ==>
              B.Finished(Shape(c), s.b) && forall i :: 0 <= i < c.n ==> |s.log[i]| == c.rounds
  {
    var s := Run(c, steps).value;
    var ph, r := RunInv(c, steps);
    if !B.Finished(Shape(c), s.b) {
      var i := B.SomeEnabled(Shape(c), s.b, ph, r);
      assert Enabled(c, s, i);
    } else {
      forall i | 0 <= i < c.n ensures |s.log[i]| == c.rounds { assert LogOk(c, s, i); }
    }
  }

  /** Every legal move of a run's last state extends the run: `Run` refuses nothing else. */
  lemma RunExtends(c: Config, steps: seq<Step>, e: Step)
    requires ConfigOk(c) && Run(c, steps).Some? && Legal(c, Run(c, steps).value, e)
    ensures Run(c, steps + [e]).Some?
  {
    var ph, r := RunInv(c, steps);
    InvStep(c, Run(c, steps).value, e.thread, e.answer, ph, r);
    assert (steps + [e])[..|steps|] == steps;
  }
}
