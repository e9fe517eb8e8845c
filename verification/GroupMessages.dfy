/** `group_message` of a multi-party job, round after round: send to every party of one set, then
    receive from every party of another. When the parties' sets agree, N threads of each party get
    through all rounds, and every message is received in the round it was sent in.
 */
module GroupMessages {
  import opened Programs
  import opened Options
  import N = Sessions

  /** The sets each party passes to one group_message. */
  datatype Round = Round(to: seq<set<nat>>, from: seq<set<nat>>)

  predicate RoundsOk(m: nat, rounds: seq<Round>)
  {
    forall k :: 0 <= k < |rounds| ==> |rounds[k].to| == |rounds[k].from| == m
  }

  /** The members of a set among the first n parties, oneself left out, in the order of their numbers. */
  function Peers(n: nat, s: set<nat>, me: nat): (ps: seq<nat>)
    ensures forall q :: q in ps <==> q < n && q in s && q != me
    ensures Distinct(ps)
  {
    if n == 0 then [] else
      var front := Peers(n - 1, s, me);
      if n - 1 in s && n - 1 != me then front + [n - 1] else front
  }

  function SendEach(ps: seq<nat>): (ops: seq<Op>)
    ensures |ops| == |ps| && forall k :: 0 <= k < |ops| ==> ops[k] == Send(ps[k], true)
  {
    seq(|ps|, k requires 0 <= k < |ps| => Send(ps[k], true))
  }

  function SendPart(m: nat, r: Round, p: nat): (ops: seq<Op>)
    requires |r.to| == m && p < m
    ensures forall t :: 0 <= t < |ops| ==> ops[t].Send?
  {
    SendEach(Peers(m, r.to[p], p))
  }

  function ReceivePart(m: nat, r: Round, p: nat): (ops: seq<Op>)
    requires |r.from| == m && p < m
    ensures |ops| <= 1
  {
    if r.from[p] == {} then [] else [ReceiveAll(Peers(m, r.from[p], p), None)]
  }

  /** The calls of party p. */
  function Calls(m: nat, rounds: seq<Round>, p: nat): (ops: seq<Op>)
    requires RoundsOk(m, rounds) && p < m
    decreases |rounds|
  {
    if rounds == [] then [] else
      var k := |rounds| - 1;
      Calls(m, rounds[..k], p) + SendPart(m, rounds[k], p) + ReceivePart(m, rounds[k], p)
  }

  function AllCalls(m: nat, rounds: seq<Round>): (progs: seq<seq<Op>>)
    requires RoundsOk(m, rounds)
    ensures |progs| == m && ProgramsOk(progs) && forall p :: 0 <= p < m ==> progs[p] == Calls(m, rounds, p)
  {
    AllCallsOk(m, rounds);
    seq(m, p requires 0 <= p < m => Calls(m, rounds, p))
  }

  predicate OpsOk(m: nat, ops: seq<Op>) { forall t :: 0 <= t < |ops| ==> OpOk(m, ops[t]) }

  lemma PartsOk(m: nat, r: Round, p: nat)
    requires |r.to| == |r.from| == m && p < m
    ensures OpsOk(m, SendPart(m, r, p)) && OpsOk(m, ReceivePart(m, r, p))
  {
    var to, from := Peers(m, r.to[p], p), Peers(m, r.from[p], p);
    assert (forall k :: 0 <= k < |to| ==> to[k] in to) && forall k :: 0 <= k < |from| ==> from[k] in from;
  }

  lemma {:induction false} CallsOk(m: nat, rounds: seq<Round>, p: nat)
    requires RoundsOk(m, rounds) && p < m
    ensures OpsOk(m, Calls(m, rounds, p))
    decreases |rounds|
  {
    if rounds != [] {
      CallsOk(m, rounds[..|rounds| - 1], p);
      PartsOk(m, rounds[|rounds| - 1], p);
    }
  }

  lemma AllCallsOk(m: nat, rounds: seq<Round>)
    requires RoundsOk(m, rounds)
    ensures forall p :: 0 <= p < m ==> OpsOk(m, Calls(m, rounds, p))
  {
    forall p | 0 <= p < m ensures OpsOk(m, Calls(m, rounds, p)) { CallsOk(m, rounds, p); }
  }

  /** q sends to p, and p waits for q. */
  predicate SendsTo(m: nat, r: Round, q: nat, p: nat)
    requires |r.to| == m && q < m
  {
    p < m && p in r.to[q] && p != q
  }

  predicate WaitsFor(m: nat, r: Round, p: nat, q: nat)
    requires |r.from| == m && p < m
  {
    q < m && q in r.from[p] && q != p
  }

  /** Whoever is waited for sends. */
  predicate Agreed(m: nat, r: Round)
    requires |r.to| == |r.from| == m
  {
    forall p, q :: 0 <= p < m && 0 <= q < m && WaitsFor(m, r, p, q) ==> SendsTo(m, r, q, p)
  }

  /** Whoever is waited for sends, and nobody else. */
  predicate Mutual(m: nat, r: Round)
    requires |r.to| == |r.from| == m
  {
    forall p, q :: 0 <= p < m && 0 <= q < m ==> (WaitsFor(m, r, p, q) <==> SendsTo(m, r, q, p))
  }

  predicate AllAgreed(m: nat, rounds: seq<Round>)
    requires RoundsOk(m, rounds)
  {
    forall k :: 0 <= k < |rounds| ==> Agreed(m, rounds[k])
  }

  predicate AllMutual(m: nat, rounds: seq<Round>)
    requires RoundsOk(m, rounds)
  {
    forall k :: 0 <= k < |rounds| ==> Mutual(m, rounds[k])
  }

  // ---------------------------------------------------------------- counting the calls of a round

  lemma {:induction false} CountAppend(a: seq<Op>, b: seq<Op>, test: Test)
    ensures |Where(a + b, test)| == |Where(a, test)| + |Where(b, test)|
    decreases |b|
  {
    if b == [] {
      assert a + b == a;
    } else {
      var last := |b| - 1;
      assert (a + b)[..|a + b| - 1] == a + b[..last];
      CountAppend(a, b[..last], test);
    }
  }

  lemma FrontHas(ps: seq<nat>, q: nat)
    requires Distinct(ps) && ps != []
    ensures Distinct(ps[..|ps| - 1]) && (q in ps <==> q in ps[..|ps| - 1] || q == ps[|ps| - 1])
    ensures ps[|ps| - 1] !in ps[..|ps| - 1]
  {
    assert ps == ps[..|ps| - 1] + [ps[|ps| - 1]];
  }

  lemma {:induction false} CountSends(ps: seq<nat>, q: nat)
    requires Distinct(ps)
    ensures |Where(SendEach(ps), To(q))| == if q in ps then 1 else 0
    ensures |Where(SendEach(ps), From(q))| == 0
    decreases |ps|
  {
    if ps != [] {
      var last := |ps| - 1;
      assert SendEach(ps)[..last] == SendEach(ps[..last]);
      CountSends(ps[..last], q);
      FrontHas(ps, q);
    }
  }

  lemma CountReceives(m: nat, r: Round, p: nat, q: nat)
    requires |r.from| == m && p < m
    ensures |Where(ReceivePart(m, r, p), From(q))| == if WaitsFor(m, r, p, q) then 1 else 0
    ensures |Where(ReceivePart(m, r, p), To(q))| == 0
  {
    var ops := ReceivePart(m, r, p);
    if ops != [] {
      assert ops[..0] == [];
      assert Meets(ops[0], From(q)) <==> q in Peers(m, r.from[p], p);
    }
  }

  /** What one more round adds. */
  lemma CountRound(m: nat, rounds: seq<Round>, p: nat, q: nat)
    requires RoundsOk(m, rounds) && rounds != [] && p < m
    ensures var k := |rounds| - 1;
            && |Where(Calls(m, rounds, p), From(q))| ==
               |Where(Calls(m, rounds[..k], p), From(q))| + (if WaitsFor(m, rounds[k], p, q) then 1 else 0)
            && |Where(Calls(m, rounds, p), To(q))| ==
               |Where(Calls(m, rounds[..k], p), To(q))| + if SendsTo(m, rounds[k], p, q) then 1 else 0
  {
    var k := |rounds| - 1;
    var before, sends, receives := Calls(m, rounds[..k], p), SendPart(m, rounds[k], p), ReceivePart(m, rounds[k], p);
    CountSends(Peers(m, rounds[k].to[p], p), q);
    CountReceives(m, rounds[k], p, q);
    CountAppend(before, sends, From(q));
    CountAppend(before, sends, To(q));
    CountAppend(before + sends, receives, From(q));
    CountAppend(before + sends, receives, To(q));
  }

  /** How often p waits for q, and how often q sends to p. */
  function Waits(m: nat, rounds: seq<Round>, p: nat, q: nat): nat
    requires RoundsOk(m, rounds) && p < m
  {
    if rounds == [] then 0 else
      var k := |rounds| - 1;
      Waits(m, rounds[..k], p, q) + if WaitsFor(m, rounds[k], p, q) then 1 else 0
  }

  function Sent(m: nat, rounds: seq<Round>, q: nat, p: nat): nat
    requires RoundsOk(m, rounds) && q < m
  {
    if rounds == [] then 0 else
      var k := |rounds| - 1;
      Sent(m, rounds[..k], q, p) + if SendsTo(m, rounds[k], q, p) then 1 else 0
  }

  lemma {:induction false} CountCalls(m: nat, rounds: seq<Round>, p: nat, q: nat)
    requires RoundsOk(m, rounds) && p < m
    ensures |Where(Calls(m, rounds, p), From(q))| == Waits(m, rounds, p, q)
    ensures |Where(Calls(m, rounds, p), To(q))| == Sent(m, rounds, p, q)
    decreases |rounds|
  {
    if rounds != [] {
      CountCalls(m, rounds[..|rounds| - 1], p, q);
      CountRound(m, rounds, p, q);
    }
  }

  /** Over agreed rounds q sends to p as often as p waits for it, over mutual ones exactly as often. */
  lemma {:induction false} EnoughSent(m: nat, rounds: seq<Round>, p: nat, q: nat)
    requires RoundsOk(m, rounds) && p < m && q < m
    ensures AllAgreed(m, rounds) ==> Waits(m, rounds, p, q) <= Sent(m, rounds, q, p)
    ensures AllMutual(m, rounds) ==> Waits(m, rounds, p, q) == Sent(m, rounds, q, p)
    decreases |rounds|
  {
    if rounds != [] { EnoughSent(m, rounds[..|rounds| - 1], p, q); }
  }

  lemma {:induction false} SentGrows(m: nat, rounds: seq<Round>, k: nat, q: nat, p: nat)
    requires RoundsOk(m, rounds) && k <= |rounds| && q < m
    ensures Sent(m, rounds[..k], q, p) <= Sent(m, rounds, q, p)
    decreases |rounds|
  {
    if k < |rounds| {
      assert rounds[..|rounds| - 1][..k] == rounds[..k];
      SentGrows(m, rounds[..|rounds| - 1], k, q, p);
    } else {
      assert rounds[..k] == rounds;
    }
  }

  // ---------------------------------------------------------------- positions in the rounds

  lemma {:induction false} CallsBefore(m: nat, rounds: seq<Round>, k: nat, p: nat)
    requires RoundsOk(m, rounds) && k <= |rounds| && p < m
    ensures RoundsOk(m, rounds[..k]) && Calls(m, rounds[..k], p) <= Calls(m, rounds, p)
    decreases |rounds|
  {
    if k < |rounds| {
      var front := rounds[..|rounds| - 1];
      CallsBefore(m, front, k, p);
      assert front[..k] == rounds[..k];
    } else {
      assert rounds[..k] == rounds;
    }
  }

  /** The calls of p up to its receive in round k, if it has one. */
  function UpToReceive(m: nat, rounds: seq<Round>, k: nat, p: nat): seq<Op>
    requires RoundsOk(m, rounds) && k < |rounds| && p < m
  {
    Calls(m, rounds[..k], p) + SendPart(m, rounds[k], p)
  }

  /** The position of that receive. */
  function ReceiveOfRound(m: nat, rounds: seq<Round>, k: nat, p: nat): nat
    requires RoundsOk(m, rounds) && k < |rounds| && p < m
  {
    |UpToReceive(m, rounds, k, p)|
  }

  lemma RoundParts(m: nat, rounds: seq<Round>, k: nat, p: nat)
    requires RoundsOk(m, rounds) && k < |rounds| && p < m
    ensures var before := Calls(m, rounds[..k], p);
            && UpToReceive(m, rounds, k, p) + ReceivePart(m, rounds[k], p) <= Calls(m, rounds, p)
            && UpToReceive(m, rounds, k, p) <= Calls(m, rounds, p) && before <= Calls(m, rounds, p)
  {
    CallsBefore(m, rounds, k + 1, p);
    assert rounds[..k + 1][..k] == rounds[..k];
  }

  lemma RoundHasReceive(m: nat, rounds: seq<Round>, k: nat, p: nat)
    requires RoundsOk(m, rounds) && k < |rounds| && p < m && rounds[k].from[p] != {}
    ensures var t := ReceiveOfRound(m, rounds, k, p);
            t < |Calls(m, rounds, p)| && Calls(m, rounds, p)[t] == ReceiveAll(Peers(m, rounds[k].from[p], p), None)
  {
    RoundParts(m, rounds, k, p);
    var whole := UpToReceive(m, rounds, k, p) + ReceivePart(m, rounds[k], p);
    assert whole[ReceiveOfRound(m, rounds, k, p)] == ReceivePart(m, rounds[k], p)[0];
  }

  lemma CountUpTo(m: nat, rounds: seq<Round>, k: nat, p: nat, q: nat)
    requires RoundsOk(m, rounds) && k < |rounds| && p < m
    ensures |Where(UpToReceive(m, rounds, k, p), From(q))| == Waits(m, rounds[..k], p, q)
    ensures |Where(UpToReceive(m, rounds, k, p), To(q))| == Sent(m, rounds[..k + 1], p, q)
  {
    CountCalls(m, rounds[..k], p, q);
    CountAppend(Calls(m, rounds[..k], p), SendPart(m, rounds[k], p), From(q));
    CountAppend(Calls(m, rounds[..k], p), SendPart(m, rounds[k], p), To(q));
    CountSends(Peers(m, rounds[k].to[p], p), q);
    assert rounds[..k + 1][..k] == rounds[..k];
  }

  /** Counts at the receive of round k. */
  lemma AtReceive(m: nat, rounds: seq<Round>, k: nat, p: nat, q: nat)
    requires RoundsOk(m, rounds) && k < |rounds| && p < m
    ensures ReceiveOfRound(m, rounds, k, p) <= |Calls(m, rounds, p)|
    ensures Before(Calls(m, rounds, p), ReceiveOfRound(m, rounds, k, p), From(q)) == Waits(m, rounds[..k], p, q)
    ensures Before(Calls(m, rounds, p), ReceiveOfRound(m, rounds, k, p), To(q)) == Sent(m, rounds[..k + 1], p, q)
  {
    RoundParts(m, rounds, k, p);
    CountUpTo(m, rounds, k, p, q);
    assert Calls(m, rounds, p)[..ReceiveOfRound(m, rounds, k, p)] == UpToReceive(m, rounds, k, p);
  }

  // ---------------------------------------------------------------- when rounds complete

  /** Every party has finished some rounds: a party at round k has sent in it and not received. */
  predicate Standing(m: nat, rounds: seq<Round>, d: seq<nat>)
  {
    |d| == m && forall p :: 0 <= p < m ==> d[p] <= |rounds|
  }

  /** The rounds whose sends a party at round k has done. */
  function Begun(rounds: seq<Round>, k: nat): (b: nat)
    requires k <= |rounds|
    ensures b <= |rounds|
  {
    if k < |rounds| then k + 1 else k
  }

  /** p waits in its round for q, and has by then waited for q more often than q has sent to p. */
  predicate Lacks(m: nat, rounds: seq<Round>, d: seq<nat>, p: nat, q: nat)
    requires RoundsOk(m, rounds) && Standing(m, rounds, d) && p < m && d[p] < |rounds| && q < m
  {
    && WaitsFor(m, rounds[d[p]], p, q)
    && Sent(m, rounds[..Begun(rounds, d[q])], q, p) < Waits(m, rounds[..d[p] + 1], p, q)
  }

  /** Somebody has not finished, and everybody who has not lacks something. */
  predicate RoundKnot(m: nat, rounds: seq<Round>, d: seq<nat>)
    requires RoundsOk(m, rounds)
  {
    && Standing(m, rounds, d) && (exists p :: 0 <= p < m && d[p] < |rounds|)
    && forall p :: 0 <= p < m && d[p] < |rounds| ==> exists q :: 0 <= q < m && Lacks(m, rounds, d, p, q)
  }

  /** Where a party at round k stands in its program. */
  function PlaceOf(m: nat, rounds: seq<Round>, p: nat, k: nat): nat
    requires RoundsOk(m, rounds) && p < m && k <= |rounds|
  {
    if k < |rounds| then ReceiveOfRound(m, rounds, k, p) else |Calls(m, rounds, p)|
  }

  lemma AtPlace(m: nat, rounds: seq<Round>, p: nat, q: nat, k: nat)
    requires RoundsOk(m, rounds) && p < m && k <= |rounds|
    ensures PlaceOf(m, rounds, p, k) <= |Calls(m, rounds, p)|
    ensures Before(Calls(m, rounds, p), PlaceOf(m, rounds, p, k), From(q)) == Waits(m, rounds[..k], p, q)
    ensures Before(Calls(m, rounds, p), PlaceOf(m, rounds, p, k), To(q)) == Sent(m, rounds[..Begun(rounds, k)], p, q)
  {
    if k < |rounds| {
      AtReceive(m, rounds, k, p, q);
    } else {
      CountCalls(m, rounds, p, q);
      assert rounds[..k] == rounds && Calls(m, rounds, p)[..|Calls(m, rounds, p)|] == Calls(m, rounds, p);
    }
  }

  predicate StandsAt(m: nat, rounds: seq<Round>, d: seq<nat>, a: Places)
    requires RoundsOk(m, rounds)
  {
    Standing(m, rounds, d) && |a| == m && forall p :: 0 <= p < m ==> a[p] == PlaceOf(m, rounds, p, d[p])
  }

  /** A channel holds something exactly when more was sent than was waited for. */
  lemma WaitingAt(m: nat, rounds: seq<Round>, d: seq<nat>, a: Places, q: nat, p: nat)
    requires RoundsOk(m, rounds) && StandsAt(m, rounds, d, a) && q < m && p < m && PlacesOk(AllCalls(m, rounds), a)
    ensures Waiting(AllCalls(m, rounds), a, q, p) <==>
            Waits(m, rounds[..d[p]], p, q) < Sent(m, rounds[..Begun(rounds, d[q])], q, p)
  {
    AtPlace(m, rounds, p, q, d[p]);
    AtPlace(m, rounds, q, p, d[q]);
  }

  lemma WaitsNext(m: nat, rounds: seq<Round>, k: nat, p: nat, q: nat)
    requires RoundsOk(m, rounds) && k < |rounds| && p < m
    ensures Waits(m, rounds[..k + 1], p, q) ==
            Waits(m, rounds[..k], p, q) + if WaitsFor(m, rounds[k], p, q) then 1 else 0
    ensures Sent(m, rounds[..k + 1], p, q) == Sent(m, rounds[..k], p, q) + if SendsTo(m, rounds[k], p, q) then 1 else 0
  {
    assert rounds[..k + 1][..k] == rounds[..k];
  }

  lemma TakesInRound(m: nat, rounds: seq<Round>, k: nat, p: nat)
    requires RoundsOk(m, rounds) && k < |rounds| && p < m && rounds[k].from[p] != {}
    ensures PlaceOf(m, rounds, p, k) < |AllCalls(m, rounds)[p]|
    ensures Takes(AllCalls(m, rounds)[p][PlaceOf(m, rounds, p, k)]) == Peers(m, rounds[k].from[p], p)
  {
    RoundHasReceive(m, rounds, k, p);
  }

  /** Whoever lacks something finds that channel empty. */
  lemma LackingFindsNothing(m: nat, rounds: seq<Round>, d: seq<nat>, a: Places, p: nat, q: nat)
    requires RoundsOk(m, rounds) && StandsAt(m, rounds, d, a) && PlacesOk(AllCalls(m, rounds), a)
    requires p < m && q < m && d[p] < |rounds| && Lacks(m, rounds, d, p, q)
    ensures !Waiting(AllCalls(m, rounds), a, q, p)
  {
    WaitsNext(m, rounds, d[p], p, q);
    WaitingAt(m, rounds, d, a, q, p);
  }

  lemma LackingIsStuck(m: nat, rounds: seq<Round>, d: seq<nat>, a: Places, p: nat, q: nat)
    requires RoundsOk(m, rounds) && StandsAt(m, rounds, d, a) && PlacesOk(AllCalls(m, rounds), a)
    requires p < m && q < m && d[p] < |rounds| && Lacks(m, rounds, d, p, q)
    ensures !CanMove(AllCalls(m, rounds), a, p)
  {
    LackingFindsNothing(m, rounds, d, a, p, q);
    TakesInRound(m, rounds, d[p], p);
    var k := PeerAt(m, rounds[d[p]].from[p], p, q);
    CannotMove(AllCalls(m, rounds), a, p, k);
  }

  lemma LackingIsShort(m: nat, rounds: seq<Round>, d: seq<nat>, p: nat, q: nat)
    requires RoundsOk(m, rounds) && Standing(m, rounds, d) && p < m
    requires q < m && d[p] < |rounds| && Lacks(m, rounds, d, p, q)
    ensures PlaceOf(m, rounds, p, d[p]) < |Calls(m, rounds, p)|
  {
    RoundHasReceive(m, rounds, d[p], p);
  }

  function PlacesAt(m: nat, rounds: seq<Round>, d: seq<nat>): (a: Places)
    requires RoundsOk(m, rounds) && Standing(m, rounds, d)
    ensures StandsAt(m, rounds, d, a) && PlacesOk(AllCalls(m, rounds), a)
  {
    PlacesAtOk(m, rounds, d);
    seq(m, p requires 0 <= p < m => PlaceOf(m, rounds, p, d[p]))
  }

  lemma PlacesAtOk(m: nat, rounds: seq<Round>, d: seq<nat>)
    requires RoundsOk(m, rounds) && Standing(m, rounds, d)
    ensures forall p :: 0 <= p < m ==> PlaceOf(m, rounds, p, d[p]) <= |Calls(m, rounds, p)|
  {
    forall p | 0 <= p < m ensures PlaceOf(m, rounds, p, d[p]) <= |Calls(m, rounds, p)| {
      AtPlace(m, rounds, p, p, d[p]);
    }
  }

  /** A knot of rounds is a knot of the programs. */
  lemma KnotOfRounds(m: nat, rounds: seq<Round>, d: seq<nat>)
    requires RoundsOk(m, rounds) && RoundKnot(m, rounds, d)
    ensures Knot(AllCalls(m, rounds), PlacesAt(m, rounds, d))
  {
    var progs, a := AllCalls(m, rounds), PlacesAt(m, rounds, d);
    var short :| 0 <= short < m && d[short] < |rounds|;
    var q :| 0 <= q < m && Lacks(m, rounds, d, short, q);
    LackingIsShort(m, rounds, d, short, q);
    assert a[short] != Ends(progs)[short];
    forall p | 0 <= p < m ensures !CanMove(progs, a, p) { PartyIsStuck(m, rounds, d, p); }
  }

  lemma PartyIsStuck(m: nat, rounds: seq<Round>, d: seq<nat>, p: nat)
    requires RoundsOk(m, rounds) && RoundKnot(m, rounds, d) && p < m
    ensures !CanMove(AllCalls(m, rounds), PlacesAt(m, rounds, d), p)
  {
    if d[p] < |rounds| {
      var q :| 0 <= q < m && Lacks(m, rounds, d, p, q);
      LackingIsStuck(m, rounds, d, PlacesAt(m, rounds, d), p, q);
    }
  }

  lemma PeerAt(m: nat, s: set<nat>, p: nat, q: nat) returns (k: nat)
    requires q < m && q in s && q != p
    ensures k < |Peers(m, s, p)| && Peers(m, s, p)[k] == q
  {
    assert q in Peers(m, s, p);
    k :| 0 <= k < |Peers(m, s, p)| && Peers(m, s, p)[k] == q;
  }

  /** The round of a position. */
  lemma {:induction false} RoundOf(m: nat, rounds: seq<Round>, p: nat, t: nat) returns (k: nat)
    requires RoundsOk(m, rounds) && p < m && t < |Calls(m, rounds, p)| && !Calls(m, rounds, p)[t].Send?
    ensures k < |rounds| && t == ReceiveOfRound(m, rounds, k, p) && rounds[k].from[p] != {}
    decreases |rounds|
  {
    var last := |rounds| - 1;
    var front := rounds[..last];
    if t < |Calls(m, front, p)| {
      assert Calls(m, front, p)[t] == Calls(m, rounds, p)[t];
      k := RoundOf(m, front, p, t);
      assert front[..k] == rounds[..k];
    } else {
      k := last;
      NewSends(m, rounds, p);
    }
  }

  lemma NewSends(m: nat, rounds: seq<Round>, p: nat)
    requires RoundsOk(m, rounds) && rounds != [] && p < m
    ensures var up := UpToReceive(m, rounds, |rounds| - 1, p);
            && |up| <= |Calls(m, rounds, p)| <= |up| + 1
            && (|Calls(m, rounds, p)| > |up| ==> rounds[|rounds| - 1].from[p] != {})
            && forall t :: |Calls(m, rounds[..|rounds| - 1], p)| <= t < |up| ==> Calls(m, rounds, p)[t].Send?
  {
  }

  /** A knot of the programs is a knot of rounds. */
  lemma RoundsOfKnot(m: nat, rounds: seq<Round>, a: Places) returns (d: seq<nat>)
    requires RoundsOk(m, rounds) && Knot(AllCalls(m, rounds), a)
    ensures RoundKnot(m, rounds, d)
  {
    d := RoundsOf(m, rounds, a, m);
    assert forall p :: 0 <= p < m ==> IsAt(m, rounds, a, p, d[p]);
    forall p | 0 <= p < m && d[p] < |rounds| ensures exists q :: 0 <= q < m && Lacks(m, rounds, d, p, q) {
      StuckIsLacking(m, rounds, d, a, p);
    }
    var short := KnotIsShort(AllCalls(m, rounds), a);
    assert d[short] < |rounds|;
  }

  /** Party p is at round k, waiting, or at its end. */
  predicate IsAt(m: nat, rounds: seq<Round>, a: Places, p: nat, k: nat)
    requires RoundsOk(m, rounds) && p < m && |a| == m
  {
    && k <= |rounds| && a[p] == PlaceOf(m, rounds, p, k) && (k < |rounds| <==> a[p] < |Calls(m, rounds, p)|)
    && (k < |rounds| ==> rounds[k].from[p] != {})
  }

  /** The rounds of the first n parties. */
  lemma {:induction false} RoundsOf(m: nat, rounds: seq<Round>, a: Places, n: nat) returns (d: seq<nat>)
    requires RoundsOk(m, rounds) && Knot(AllCalls(m, rounds), a) && n <= m
    ensures |d| == n && forall p :: 0 <= p < n ==> IsAt(m, rounds, a, p, d[p])
    decreases n
  {
    if n == 0 { return []; }
    d := RoundsOf(m, rounds, a, n - 1);
    var k := RoundAt(m, rounds, a, n - 1);
    d := d + [k];
  }

  lemma RoundAt(m: nat, rounds: seq<Round>, a: Places, p: nat) returns (k: nat)
    requires RoundsOk(m, rounds) && Knot(AllCalls(m, rounds), a) && p < m
    ensures IsAt(m, rounds, a, p, k)
  {
    k := |rounds|;
    if a[p] < |Calls(m, rounds, p)| {
      KnotReceives(AllCalls(m, rounds), a, p);
      k := RoundOf(m, rounds, p, a[p]);
    }
  }

  lemma StuckIsLacking(m: nat, rounds: seq<Round>, d: seq<nat>, a: Places, p: nat)
    requires RoundsOk(m, rounds) && StandsAt(m, rounds, d, a) && p < m && Knot(AllCalls(m, rounds), a)
    requires d[p] < |rounds| && rounds[d[p]].from[p] != {}
    ensures exists q :: 0 <= q < m && Lacks(m, rounds, d, p, q)
  {
    TakesInRound(m, rounds, d[p], p);
    var q := KnotWaits(AllCalls(m, rounds), a, p);
    EmptyIsLacking(m, rounds, d, a, p, q);
  }

  lemma NotWaiting(m: nat, rounds: seq<Round>, d: seq<nat>, a: Places, q: nat, p: nat)
    requires RoundsOk(m, rounds) && StandsAt(m, rounds, d, a) && q < m && p < m && PlacesOk(AllCalls(m, rounds), a)
    requires !Waiting(AllCalls(m, rounds), a, q, p)
    ensures Sent(m, rounds[..Begun(rounds, d[q])], q, p) <= Waits(m, rounds[..d[p]], p, q)
  {
    WaitingAt(m, rounds, d, a, q, p);
  }

  lemma EmptyIsLacking(m: nat, rounds: seq<Round>, d: seq<nat>, a: Places, p: nat, q: nat)
    requires RoundsOk(m, rounds) && StandsAt(m, rounds, d, a) && PlacesOk(AllCalls(m, rounds), a) && p < m && q < m
    requires d[p] < |rounds| && WaitsFor(m, rounds[d[p]], p, q) && !Waiting(AllCalls(m, rounds), a, q, p)
    ensures Lacks(m, rounds, d, p, q)
  {
    WaitsNext(m, rounds, d[p], p, q);
    NotWaiting(m, rounds, d, a, q, p);
  }

  /** Any number of group messages complete if and only if the parties cannot be placed in rounds such
      that everybody who has not finished has waited for somebody more often than that one has sent.
   */
  lemma RoundsComplete(m: nat, rounds: seq<Round>)
    requires RoundsOk(m, rounds)
    ensures Completes(AllCalls(m, rounds)) <==> forall d :: !RoundKnot(m, rounds, d)
  {
    CompletesWithoutKnot(AllCalls(m, rounds));
    if d :| RoundKnot(m, rounds, d) { KnotOfRounds(m, rounds, d); }
    if a :| Knot(AllCalls(m, rounds), a) { var _ := RoundsOfKnot(m, rounds, a); }
  }

  /** By the end of every round, whoever was waited for in it has sent as often as it was waited for. */
  predicate NeverAhead(m: nat, rounds: seq<Round>)
    requires RoundsOk(m, rounds)
  {
    forall k, p, q :: 0 <= k < |rounds| && 0 <= p < m && 0 <= q < m && WaitsFor(m, rounds[k], p, q) ==>
      Waits(m, rounds[..k + 1], p, q) <= Sent(m, rounds[..k + 1], q, p)
  }

  /** The unfinished party that is furthest behind, among the first n. */
  lemma {:induction false} Furthest(m: nat, rounds: seq<Round>, d: seq<nat>, n: nat) returns (p: nat)
    requires Standing(m, rounds, d) && n <= m && exists q :: 0 <= q < n && d[q] < |rounds|
    ensures p < n && d[p] < |rounds| && forall q :: 0 <= q < n ==> d[p] <= d[q]
    decreases n
  {
    p := n - 1;
    if exists q :: 0 <= q < n - 1 && d[q] < |rounds| {
      var low := Furthest(m, rounds, d, n - 1);
      if d[low] <= d[p] { p := low; }
    }
  }

  /** Sends may run ahead of waits, and not the other way round. */
  lemma NeverAheadCompletes(m: nat, rounds: seq<Round>)
    requires RoundsOk(m, rounds) && NeverAhead(m, rounds)
    ensures Completes(AllCalls(m, rounds))
  {
    forall d ensures !RoundKnot(m, rounds, d) {
      if RoundKnot(m, rounds, d) {
        var p := Furthest(m, rounds, d, m);
        var q :| 0 <= q < m && Lacks(m, rounds, d, p, q);
        var upTo := rounds[..Begun(rounds, d[q])];
        assert upTo[..d[p] + 1] == rounds[..d[p] + 1];
        SentGrows(m, upTo, d[p] + 1, q, p);
      }
    }
    RoundsComplete(m, rounds);
  }

  /** Any number of agreed rounds complete. */
  lemma AgreedRoundsComplete(m: nat, rounds: seq<Round>)
    requires RoundsOk(m, rounds) && AllAgreed(m, rounds)
    ensures Completes(AllCalls(m, rounds))
  {
    forall k, p, q | 0 <= k < |rounds| && 0 <= p < m && 0 <= q < m && WaitsFor(m, rounds[k], p, q)
      ensures Waits(m, rounds[..k + 1], p, q) <= Sent(m, rounds[..k + 1], q, p)
    {
      EnoughSent(m, rounds[..k + 1], p, q);
    }
    NeverAheadCompletes(m, rounds);
  }

  /** One round completes if and only if the parties agree. */
  lemma RoundCompletes(m: nat, r: Round)
    requires |r.to| == |r.from| == m
    ensures Completes(AllCalls(m, [r])) <==> Agreed(m, r)
  {
    var progs := AllCalls(m, [r]);
    if Agreed(m, r) { AgreedRoundsComplete(m, [r]); }
    if order :| Solo(progs, order) == Some(Ends(progs)) {
      forall p, q | 0 <= p < m && 0 <= q < m && WaitsFor(m, r, p, q) ensures SendsTo(m, r, q, p) {
        SoloBalanced(progs, order, q, p);
        assert progs[p][..|progs[p]|] == progs[p] && progs[q][..|progs[q]|] == progs[q];
        CountRound(m, [r], p, q);
        CountRound(m, [r], q, p);
        assert [r][..0] == [];
      }
    }
  }

  // ---------------------------------------------------------------- every message in its round

  /** Call u of party q is one of its sends in round k. */
  predicate SendOfRound(m: nat, rounds: seq<Round>, k: nat, q: nat, u: nat)
    requires RoundsOk(m, rounds) && k < |rounds| && q < m
  {
    |Calls(m, rounds[..k], q)| <= u < |Calls(m, rounds[..k], q)| + |SendPart(m, rounds[k], q)|
  }

  /** What p has taken from q before its receive of round k, q had sent to p before round k, and one more in it. */
  lemma CountsOfRound(m: nat, rounds: seq<Round>, k: nat, p: nat, q: nat)
    requires RoundsOk(m, rounds) && AllMutual(m, rounds) && k < |rounds| && p < m && q < m
    requires WaitsFor(m, rounds[k], p, q)
    ensures |Where(UpToReceive(m, rounds, k, p), From(q))| == |Where(Calls(m, rounds[..k], q), To(p))|
    ensures |Where(UpToReceive(m, rounds, k, q), To(p))| == |Where(Calls(m, rounds[..k], q), To(p))| + 1
  {
    EnoughSent(m, rounds[..k], p, q);
    CountUpTo(m, rounds, k, p, q);
    CountUpTo(m, rounds, k, q, p);
    CountCalls(m, rounds[..k], q, p);
    WaitsNext(m, rounds, k, q, p);
    assert SendsTo(m, rounds[k], q, p);
  }

  /** x names q as often as y sends to p, and z after y sends to p once. */
  predicate Lined(xs: seq<Op>, x: seq<Op>, ys: seq<Op>, y: seq<Op>, z: seq<Op>, p: nat, q: nat)
  {
    && x <= xs && y + z <= ys && |Where(x, From(q))| == |Where(y, To(p))|
    && |Where(y + z, To(p))| == |Where(y, To(p))| + 1
  }

  /** Call t of p is matched, for q, with a call of q from `from` to `end`. */
  predicate MatchedIn(xs: seq<Op>, t: nat, ys: seq<Op>, from: nat, end: nat, p: nat, q: nat)
  {
    && t <= |xs| && Before(xs, t, From(q)) < |Where(ys, To(p))|
    && from <= Where(ys, To(p))[Before(xs, t, From(q))] < end
  }

  /** Then the call right after x is matched within z. */
  lemma MatchedWithin(xs: seq<Op>, x: seq<Op>, ys: seq<Op>, y: seq<Op>, z: seq<Op>, p: nat, q: nat)
    requires Lined(xs, x, ys, y, z, p, q)
    ensures MatchedIn(xs, |x|, ys, |y|, |y| + |z|, p, q)
  {
    assert xs[..|x|] == x && ys[..|y|] == y && ys[..|y + z|] == y + z;
    WhereBetween(ys, |y|, |y + z|, To(p), |Where(y, To(p))|);
  }

  lemma RoundLined(m: nat, rounds: seq<Round>, k: nat, p: nat, q: nat)
    requires RoundsOk(m, rounds) && AllMutual(m, rounds) && k < |rounds| && p < m && q < m
    requires WaitsFor(m, rounds[k], p, q)
    ensures Lined(Calls(m, rounds, p), UpToReceive(m, rounds, k, p),
                  Calls(m, rounds, q), Calls(m, rounds[..k], q), SendPart(m, rounds[k], q), p, q)
  {
    RoundParts(m, rounds, k, p);
    RoundParts(m, rounds, k, q);
    CountsOfRound(m, rounds, k, p, q);
  }

  /** The receive of a round is matched with sends of that round. */
  lemma MatchedInRound(m: nat, rounds: seq<Round>, k: nat, p: nat, q: nat)
    requires RoundsOk(m, rounds) && AllMutual(m, rounds) && k < |rounds| && p < m && q < m
    requires WaitsFor(m, rounds[k], p, q)
    ensures MatchedIn(Calls(m, rounds, p), ReceiveOfRound(m, rounds, k, p), Calls(m, rounds, q),
                      |Calls(m, rounds[..k], q)|, |Calls(m, rounds[..k], q)| + |SendPart(m, rounds[k], q)|, p, q)
  {
    RoundLined(m, rounds, k, p, q);
    MatchedWithin(Calls(m, rounds, p), UpToReceive(m, rounds, k, p),
                  Calls(m, rounds, q), Calls(m, rounds[..k], q), SendPart(m, rounds[k], q), p, q);
  }

  predicate Fitting(c: N.Config, rounds: seq<Round>)
  {
    && N.ConfigOk(c) && RoundsOk(|c.progs|, rounds) && AllMutual(|c.progs|, rounds)
    && c.progs == AllCalls(|c.progs|, rounds)
  }

  lemma SourceWithin(c: N.Config, p: nat, t: nat, j: nat, from: nat, end: nat)
    requires N.ConfigOk(c) && p < |c.progs| && t < |c.progs[p]| && N.Matched(c, p, t) && j < |Takes(c.progs[p][t])|
    requires var q := Takes(c.progs[p][t])[j]; MatchedIn(c.progs[p], t, c.progs[q], from, end, p, q)
    ensures from <= N.Source(c, p, t, j) < end
  {
  }

  /** What p takes from q in its receive of round k was sent to p in round k. */
  predicate SentInRound(c: N.Config, rounds: seq<Round>, p: nat, k: nat, j: nat)
    requires Fitting(c, rounds) && p < |c.progs| && k < |rounds|
  {
    var m, t := |c.progs|, ReceiveOfRound(|c.progs|, rounds, k, p);
    && t < |c.progs[p]| && N.Matched(c, p, t) && j < |Takes(c.progs[p][t])|
    && SendOfRound(m, rounds, k, Takes(c.progs[p][t])[j], N.Source(c, p, t, j))
  }

  lemma PeerWaits(m: nat, r: Round, p: nat, j: nat)
    requires |r.from| == m && p < m && j < |Peers(m, r.from[p], p)|
    ensures WaitsFor(m, r, p, Peers(m, r.from[p], p)[j])
  {
    var ps := Peers(m, r.from[p], p);
    assert ps[j] in ps;
  }

  lemma SourcesInRound(c: N.Config, rounds: seq<Round>, p: nat, k: nat, t: nat, j: nat)
    requires Fitting(c, rounds) && p < |c.progs| && k < |rounds| && t == ReceiveOfRound(|c.progs|, rounds, k, p)
    requires t < |c.progs[p]| && c.progs[p][t] == ReceiveAll(Peers(|c.progs|, rounds[k].from[p], p), None)
    requires N.Matched(c, p, t) && j < |Takes(c.progs[p][t])|
    ensures SentInRound(c, rounds, p, k, j)
  {
    var m, q := |c.progs|, Takes(c.progs[p][t])[j];
    PeerWaits(m, rounds[k], p, j);
    MatchedInRound(m, rounds, k, p, q);
    var from := |Calls(m, rounds[..k], q)|;
    SourceWithin(c, p, t, j, from, from + |SendPart(m, rounds[k], q)|);
  }

  /** Thread i of party p returned from the receive of round k with what thread i of each party it
      waited for sent to p in round k.
   */
  predicate GotRound(c: N.Config, rounds: seq<Round>, y: N.Party, p: nat, i: nat, k: nat)
    requires Fitting(c, rounds) && p < |c.progs| && i < c.n && k < |rounds|
  {
    var t, qs := ReceiveOfRound(|c.progs|, rounds, k, p), Peers(|c.progs|, rounds[k].from[p], p);
    && t < |c.progs[p]| && c.progs[p][t] == ReceiveAll(qs, None) && N.Got(c, y, p, i, t)
    && forall j :: 0 <= j < |qs| ==> SentInRound(c, rounds, p, k, j)
  }

  lemma DoneGot(c: N.Config, schedule: seq<N.Actor>, p: nat, i: nat, t: nat)
    requires N.ConfigOk(c) && N.Run(c, schedule).Some? && N.AllDone(c, N.Run(c, schedule).value)
    requires p < |c.progs| && i < c.n && t < |c.progs[p]| && !c.progs[p][t].Send?
    ensures N.Got(c, N.Run(c, schedule).value.parties[p], p, i, t)
  {
    assert N.Through(c, N.Run(c, schedule).value.parties[p], i, |c.progs[p]|);
    N.SessionsAreFifo(c, schedule, p, i, t);
  }

  lemma RoundGot(c: N.Config, rounds: seq<Round>, schedule: seq<N.Actor>, p: nat, i: nat, k: nat)
    requires Fitting(c, rounds) && p < |c.progs| && i < c.n && k < |rounds| && rounds[k].from[p] != {}
    requires N.Run(c, schedule).Some? && N.AllDone(c, N.Run(c, schedule).value)
    ensures GotRound(c, rounds, N.Run(c, schedule).value.parties[p], p, i, k)
  {
    var t, qs := ReceiveOfRound(|c.progs|, rounds, k, p), Peers(|c.progs|, rounds[k].from[p], p);
    RoundHasReceive(|c.progs|, rounds, k, p);
    DoneGot(c, schedule, p, i, t);
    forall j | 0 <= j < |qs| ensures SentInRound(c, rounds, p, k, j) { SourcesInRound(c, rounds, p, k, t, j); }
  }

  /** Any number of rounds in which the parties' sets agree exactly, on any number of threads: a run
      that cannot be extended has taken every thread through all rounds, and every message was
      received in the round it was sent in.
   */
  lemma GroupMessagesArrive(c: N.Config, rounds: seq<Round>, schedule: seq<N.Actor>)
    requires Fitting(c, rounds)
    requires N.Run(c, schedule).Some? && forall a :: !N.Enabled(c, N.Run(c, schedule).value, a)
    ensures N.AllDone(c, N.Run(c, schedule).value)
    ensures forall p, i, k :: 0 <= p < |c.progs| && 0 <= i < c.n && 0 <= k < |rounds| && rounds[k].from[p] != {} ==>
              GotRound(c, rounds, N.Run(c, schedule).value.parties[p], p, i, k)
  {
    AgreedRoundsComplete(|c.progs|, rounds);
    N.SessionsComplete(c, schedule);
    forall p, i, k | 0 <= p < |c.progs| && 0 <= i < c.n && 0 <= k < |rounds| && rounds[k].from[p] != {}
      ensures GotRound(c, rounds, N.Run(c, schedule).value.parties[p], p, i, k)
    {
      RoundGot(c, rounds, schedule, p, i, k);
    }
  }
}
