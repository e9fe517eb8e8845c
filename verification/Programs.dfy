/** What the parties of a protocol do with the network, one party at a time and one thread each:
    programs of sends and receives over first-in-first-out channels, and when they all complete.
 */
module Programs {
  import opened Counting
  import opened Options

  /** One call of a job, `send_impl`, `receive_impl` or `receive_many_impl`, and what the transport
      makes of it: a send may be refused, and a receive may be answered with something else than what
      was sent, be it an error or other bytes, after taking the oldest message of some channels.
   */
  datatype Op =
    | Send(to: nat, taken: bool)
    | Receive(from: nat, fault: Option<seq<nat>>)
    | ReceiveAll(froms: seq<nat>, fault: Option<seq<nat>>)

  datatype Kind = Sends | Receives | Gathers

  function KindOf(op: Op): Kind
  {
    match op
    case Send(_, _) => Sends
    case Receive(_, _) => Receives
    case ReceiveAll(_, _) => Gathers
  }

  /** The parties a receive names. */
  function Named(op: Op): seq<nat>
  {
    match op
    case Send(_, _) => []
    case Receive(q, _) => [q]
    case ReceiveAll(qs, _) => qs
  }

  predicate Faulty(op: Op) { !op.Send? && op.fault.Some? }

  /** The parties a call waits for, and takes the oldest message of. */
  function Takes(op: Op): seq<nat> { if Faulty(op) then op.fault.value else Named(op) }

  predicate Distinct(s: seq<nat>) { forall i, j :: 0 <= i < j < |s| ==> s[i] != s[j] }

  /** Calls that name and take from m parties, none of them twice. */
  predicate OpOk(m: nat, op: Op)
  {
    && (op.Send? ==> op.to < m)
    && (forall k :: 0 <= k < |Named(op)| ==> Named(op)[k] < m) && Distinct(Named(op))
    && (forall k :: 0 <= k < |Takes(op)| ==> Takes(op)[k] < m) && Distinct(Takes(op))
  }

  predicate ProgramsOk(progs: seq<seq<Op>>)
  {
    forall p, t :: 0 <= p < |progs| && 0 <= t < |progs[p]| ==> OpOk(|progs|, progs[p][t])
  }

  // ---------------------------------------------------------------- counting calls

  /** A kind of call; a send to p, taken, refused or either; a call that takes from p. */
  datatype Test = Is(kind: Kind) | To(p: nat) | RefusedTo(p: nat) | AnyTo(p: nat) | From(p: nat)

  predicate Meets(op: Op, test: Test)
  {
    match test
    case Is(kind) => KindOf(op) == kind
    case To(p) => op == Send(p, true)
    case RefusedTo(p) => op == Send(p, false)
    case AnyTo(p) => op.Send? && op.to == p
    case From(p) => p in Takes(op)
  }

  /** The positions of the calls that meet a test. */
  function Where(prog: seq<Op>, test: Test): (at: seq<nat>)
    ensures forall k :: 0 <= k < |at| ==> at[k] < |prog| && Meets(prog[at[k]], test)
  {
    if prog == [] then [] else
      var last := |prog| - 1;
      var front := Where(prog[..last], test);
      if Meets(prog[last], test) then front + [last] else front
  }

  /** How many of the first t calls meet a test. */
  function Before(prog: seq<Op>, t: nat, test: Test): nat
    requires t <= |prog|
  {
    |Where(prog[..t], test)|
  }

  lemma WhereNext(prog: seq<Op>, t: nat, test: Test)
    requires t < |prog|
    ensures Where(prog[..t + 1], test) ==
            if Meets(prog[t], test) then Where(prog[..t], test) + [t] else Where(prog[..t], test)
  {
    assert prog[..t + 1][..t] == prog[..t];
  }

  lemma CountNext(prog: seq<Op>, t: nat, test: Test)
    requires t < |prog|
    ensures Before(prog, t + 1, test) == Before(prog, t, test) + if Meets(prog[t], test) then 1 else 0
  {
    WhereNext(prog, t, test);
  }

  lemma {:induction false} WherePrefix(prog: seq<Op>, t: nat, u: nat, test: Test)
    requires t <= u <= |prog|
    ensures Where(prog[..t], test) <= Where(prog[..u], test)
    decreases u - t
  {
    if t < u {
      WherePrefix(prog, t, u - 1, test);
      WhereNext(prog, u - 1, test);
    }
  }

  /** A call that meets the test stands at its own number. */
  lemma WhereAt(prog: seq<Op>, t: nat, test: Test)
    requires t < |prog| && Meets(prog[t], test)
    ensures Before(prog, t, test) < |Where(prog, test)| && Where(prog, test)[Before(prog, t, test)] == t
  {
    WhereNext(prog, t, test);
    WherePrefix(prog, t + 1, |prog|, test);
    assert prog[..|prog|] == prog;
  }

  /** The first calls that meet the test are those before. */
  lemma WhereBefore(prog: seq<Op>, t: nat, test: Test)
    requires t <= |prog|
    ensures Where(prog[..t], test) <= Where(prog, test) && Before(prog, t, test) <= |Where(prog, test)|
  {
    WherePrefix(prog, t, |prog|, test);
    assert prog[..|prog|] == prog;
  }

  lemma BeforeGrows(prog: seq<Op>, t: nat, u: nat, test: Test)
    requires t <= u <= |prog|
    ensures Before(prog, t, test) <= Before(prog, u, test)
  {
    WherePrefix(prog, t, u, test);
  }

  /** Position t is the only one of its kind with its number, from t on. */
  lemma SameNumber(prog: seq<Op>, t: nat, u: nat, test: Test)
    requires t < |prog| && t <= u <= |prog| && Meets(prog[t], test) && Before(prog, u, test) == Before(prog, t, test)
    ensures u == t
  {
    CountNext(prog, t, test);
    if t < u { BeforeGrows(prog, t + 1, u, test); }
  }

  /** The calls numbered from the count before t on stand at t or later. */
  lemma {:induction false} WhereFrom(prog: seq<Op>, t: nat, u: nat, test: Test, k: nat)
    requires t <= u <= |prog| && Before(prog, t, test) <= k < Before(prog, u, test)
    ensures t <= Where(prog[..u], test)[k]
    decreases u
  {
    assert t != u;
    var v := u - 1;
    WhereNext(prog, v, test);
    if k < Before(prog, v, test) { WhereFrom(prog, t, v, test, k); }
  }

  lemma WhereBetween(prog: seq<Op>, t: nat, u: nat, test: Test, k: nat)
    requires t <= u <= |prog| && Before(prog, t, test) <= k < Before(prog, u, test)
    ensures k < |Where(prog, test)| && t <= Where(prog, test)[k] < u
  {
    WhereFrom(prog, t, u, test, k);
    WhereBefore(prog, u, test);
    assert Where(prog, test)[k] == Where(prog[..u], test)[k];
  }

  lemma {:induction false} WhereRises(prog: seq<Op>, test: Test, j: nat, k: nat)
    requires j < k < |Where(prog, test)|
    ensures Where(prog, test)[j] < Where(prog, test)[k]
    decreases |prog|
  {
    var front := prog[..|prog| - 1];
    if k < |Where(front, test)| { WhereRises(front, test, j, k); }
  }

  /** The k-th call that meets the test has k such calls before it. */
  lemma WhereNumber(prog: seq<Op>, test: Test, k: nat)
    requires k < |Where(prog, test)|
    ensures Before(prog, Where(prog, test)[k], test) == k
  {
    var u := Where(prog, test)[k];
    var n := Before(prog, u, test);
    WhereAt(prog, u, test);
    if n < k { WhereRises(prog, test, n, k); }
    if k < n { WhereRises(prog, test, k, n); }
  }

  lemma {:induction false} SendsAddUp(prog: seq<Op>, t: nat, p: nat)
    requires t <= |prog|
    ensures Before(prog, t, AnyTo(p)) == Before(prog, t, To(p)) + Before(prog, t, RefusedTo(p))
  {
    if t > 0 {
      SendsAddUp(prog, t - 1, p);
      CountNext(prog, t - 1, AnyTo(p));
      CountNext(prog, t - 1, To(p));
      CountNext(prog, t - 1, RefusedTo(p));
    }
  }

  lemma {:induction false} KindsAddUp(prog: seq<Op>, t: nat)
    requires t <= |prog|
    ensures Before(prog, t, Is(Sends)) + Before(prog, t, Is(Receives)) + Before(prog, t, Is(Gathers)) == t
  {
    if t > 0 {
      KindsAddUp(prog, t - 1);
      CountNext(prog, t - 1, Is(Sends));
      CountNext(prog, t - 1, Is(Receives));
      CountNext(prog, t - 1, Is(Gathers));
    }
  }

  // ---------------------------------------------------------------- one thread for each party

  /** How many calls each party has done. */
  type Places = seq<nat>

  predicate PlacesOk(progs: seq<seq<Op>>, a: Places)
  {
    |a| == |progs| && forall p :: 0 <= p < |a| ==> a[p] <= |progs[p]|
  }

  /** The channel from q to p holds something: p has taken less from q than q has sent to p. */
  predicate Waiting(progs: seq<seq<Op>>, a: Places, q: nat, p: nat)
    requires PlacesOk(progs, a) && q < |progs| && p < |progs|
  {
    Before(progs[p], a[p], From(q)) < Before(progs[q], a[q], To(p))
  }

  /** Party p can do its next call: a send always, a receive once every channel it names holds something. */
  predicate CanMove(progs: seq<seq<Op>>, a: Places, p: nat)
    requires ProgramsOk(progs) && PlacesOk(progs, a) && p < |progs|
  {
    a[p] < |progs[p]| &&
    forall k :: 0 <= k < |Takes(progs[p][a[p]])| ==> Waiting(progs, a, Takes(progs[p][a[p]])[k], p)
  }

  function Start(progs: seq<seq<Op>>): (a: Places)
    ensures PlacesOk(progs, a)
  {
    seq(|progs|, _ => 0)
  }

  function Ends(progs: seq<seq<Op>>): (a: Places)
    ensures PlacesOk(progs, a)
  {
    seq(|progs|, p requires 0 <= p < |progs| => |progs[p]|)
  }

  /** Where the parties are after moving in the given order, if every move was possible. */
  function Solo(progs: seq<seq<Op>>, order: seq<nat>): (o: Option<Places>)
    requires ProgramsOk(progs)
    ensures o.Some? ==> PlacesOk(progs, o.value)
  {
    if order == [] then Some(Start(progs)) else
      var last := |order| - 1;
      var before, p := Solo(progs, order[..last]), order[last];
      if before.None? || p >= |progs| || !CanMove(progs, before.value, p) then None
      else Some(before.value[p := before.value[p] + 1])
  }

  /** There is an order in which all calls of all parties can be done one after the other. */
  ghost predicate Completes(progs: seq<seq<Op>>)
    requires ProgramsOk(progs)
  {
    exists order :: Solo(progs, order) == Some(Ends(progs))
  }

  lemma SoloNext(progs: seq<seq<Op>>, order: seq<nat>, a: Places, p: nat)
    requires ProgramsOk(progs) && Solo(progs, order) == Some(a) && p < |progs| && CanMove(progs, a, p)
    ensures Solo(progs, order + [p]) == Some(a[p := a[p] + 1])
  {
    var longer := order + [p];
    assert longer[..|longer| - 1] == order && longer[|longer| - 1] == p;
  }

  /** What p has taken from q, q has sent to p. */
  predicate Balanced(progs: seq<seq<Op>>, a: Places, q: nat, p: nat)
    requires PlacesOk(progs, a) && q < |progs| && p < |progs|
  {
    Before(progs[p], a[p], From(q)) <= Before(progs[q], a[q], To(p))
  }

  /** Nobody takes more from a channel than has been sent. */
  lemma {:induction false} SoloBalanced(progs: seq<seq<Op>>, order: seq<nat>, q: nat, p: nat)
    requires ProgramsOk(progs) && Solo(progs, order).Some? && q < |progs| && p < |progs|
    ensures Balanced(progs, Solo(progs, order).value, q, p)
    decreases |order|
  {
    if order == [] {
      assert progs[p][..0] == [] && progs[q][..0] == [];
    } else {
      var last := |order| - 1;
      SoloBalanced(progs, order[..last], q, p);
      BalancedStep(progs, Solo(progs, order[..last]).value, order[last], q, p);
    }
  }

  lemma CountMoved(progs: seq<seq<Op>>, a: Places, mover: nat, r: nat, test: Test)
    requires PlacesOk(progs, a) && mover < |progs| && a[mover] < |progs[mover]| && r < |progs|
    ensures var b := a[mover := a[mover] + 1];
            Before(progs[r], b[r], test) ==
            Before(progs[r], a[r], test) + if r == mover && Meets(progs[r][a[r]], test) then 1 else 0
  {
    if r == mover { CountNext(progs[r], a[r], test); }
  }

  lemma BalancedStep(progs: seq<seq<Op>>, a: Places, mover: nat, q: nat, p: nat)
    requires ProgramsOk(progs) && PlacesOk(progs, a) && mover < |progs| && CanMove(progs, a, mover)
    requires q < |progs| && p < |progs| && Balanced(progs, a, q, p)
    ensures Balanced(progs, a[mover := a[mover] + 1], q, p)
  {
    CountMoved(progs, a, mover, p, From(q));
    CountMoved(progs, a, mover, q, To(p));
    if mover == p && q in Takes(progs[p][a[p]]) { CanTake(progs, a, q, p); }
  }

  lemma CanTake(progs: seq<seq<Op>>, a: Places, q: nat, p: nat)
    requires ProgramsOk(progs) && PlacesOk(progs, a) && p < |progs| && q < |progs| && CanMove(progs, a, p)
    requires q in Takes(progs[p][a[p]])
    ensures Waiting(progs, a, q, p)
  {
    var qs := Takes(progs[p][a[p]]);
    var k :| 0 <= k < |qs| && qs[k] == q;
  }

  // ---------------------------------------------------------------- when programs complete

  /** A call that could be done still can be when the others have gone on. */
  lemma MovesLater(progs: seq<seq<Op>>, a: Places, b: Places, p: nat)
    requires ProgramsOk(progs) && PlacesOk(progs, a) && PlacesOk(progs, b) && p < |progs| && a[p] == b[p]
    requires CanMove(progs, a, p) && forall q :: 0 <= q < |progs| ==> a[q] <= b[q]
    ensures CanMove(progs, b, p)
  {
    var qs := Takes(progs[p][a[p]]);
    forall k | 0 <= k < |qs| ensures Waiting(progs, b, qs[k], p) {
      BeforeGrows(progs[qs[k]], a[qs[k]], b[qs[k]], To(p));
      assert Waiting(progs, a, qs[k], p);
    }
  }

  lemma {:induction false} SoloSum(progs: seq<seq<Op>>, order: seq<nat>)
    requires ProgramsOk(progs) && Solo(progs, order).Some?
    ensures Sum(Solo(progs, order).value) == |order|
  {
    if order == [] {
      SumZero(Start(progs));
    } else {
      var last := |order| - 1;
      SoloSum(progs, order[..last]);
      var a, p := Solo(progs, order[..last]).value, order[last];
      SumUpdate(a, p, a[p] + 1);
    }
  }

  lemma {:induction false} SumZero(a: Places)
    requires forall p :: 0 <= p < |a| ==> a[p] == 0
    ensures Sum(a) == 0
  {
    if a != [] { SumZero(a[..|a| - 1]); }
  }

  lemma {:induction false} SumBelow(a: Places, b: Places)
    requires |a| == |b| && forall p :: 0 <= p < |a| ==> a[p] <= b[p]
    ensures Sum(a) <= Sum(b)
    ensures Sum(a) == Sum(b) ==> a == b
  {
    if a != [] { SumBelow(a[..|a| - 1], b[..|b| - 1]); }
  }

  /** Some are not at their ends, and nobody can move. */
  predicate Knot(progs: seq<seq<Op>>, a: Places)
    requires ProgramsOk(progs)
  {
    PlacesOk(progs, a) && a != Ends(progs) && forall p :: 0 <= p < |progs| ==> !CanMove(progs, a, p)
  }

  lemma KnotIsShort(progs: seq<seq<Op>>, a: Places) returns (p: nat)
    requires ProgramsOk(progs) && Knot(progs, a)
    ensures p < |progs| && a[p] < |progs[p]|
  {
    p :| 0 <= p < |progs| && a[p] != Ends(progs)[p];
  }

  /** In a knot the next call of a party is a receive. */
  lemma KnotReceives(progs: seq<seq<Op>>, a: Places, p: nat)
    requires ProgramsOk(progs) && Knot(progs, a) && p < |progs| && a[p] < |progs[p]|
    ensures !progs[p][a[p]].Send?
  {
    assert !CanMove(progs, a, p);
  }

  lemma KnotWaits(progs: seq<seq<Op>>, a: Places, p: nat) returns (q: nat)
    requires ProgramsOk(progs) && Knot(progs, a) && p < |progs| && a[p] < |progs[p]|
    ensures q in Takes(progs[p][a[p]]) && q < |progs| && !Waiting(progs, a, q, p)
  {
    var qs := Takes(progs[p][a[p]]);
    assert !CanMove(progs, a, p);
    var k :| 0 <= k < |qs| && !Waiting(progs, a, qs[k], p);
    q := qs[k];
  }

  lemma CannotMove(progs: seq<seq<Op>>, a: Places, p: nat, k: nat)
    requires ProgramsOk(progs) && PlacesOk(progs, a) && p < |progs| && a[p] < |progs[p]|
    requires k < |Takes(progs[p][a[p]])| && !Waiting(progs, a, Takes(progs[p][a[p]])[k], p)
    ensures !CanMove(progs, a, p)
  {
  }

  /** No order gets past a knot. */
  lemma {:induction false} BehindKnot(progs: seq<seq<Op>>, order: seq<nat>, a: Places)
    requires ProgramsOk(progs) && Knot(progs, a) && Solo(progs, order).Some?
    ensures forall p :: 0 <= p < |progs| ==> Solo(progs, order).value[p] <= a[p]
    decreases |order|
  {
    if order != [] {
      var last := |order| - 1;
      var before, p := Solo(progs, order[..last]).value, order[last];
      BehindKnot(progs, order[..last], a);
      if before[p] == a[p] { MovesLater(progs, before, a, p); }
    }
  }

  /** Without a knot every order goes on to the ends. */
  lemma {:induction false} Proceed(progs: seq<seq<Op>>, order: seq<nat>) returns (whole: seq<nat>)
    requires ProgramsOk(progs) && (forall a :: !Knot(progs, a)) && Solo(progs, order).Some?
    ensures Solo(progs, whole) == Some(Ends(progs))
    decreases Sum(Ends(progs)) - |order|
  {
    var a := Solo(progs, order).value;
    SoloSum(progs, order);
    SumBelow(a, Ends(progs));
    if a == Ends(progs) { return order; }
    assert !Knot(progs, a);
    var p :| 0 <= p < |progs| && CanMove(progs, a, p);
    SoloNext(progs, order, a, p);
    whole := Proceed(progs, order + [p]);
  }

  /** Programs complete if and only if there is no knot, reachable or not. */
  lemma CompletesWithoutKnot(progs: seq<seq<Op>>)
    requires ProgramsOk(progs)
    ensures Completes(progs) <==> forall a :: !Knot(progs, a)
  {
    if forall a :: !Knot(progs, a) { var _ := Proceed(progs, []); }
    if order :| Solo(progs, order) == Some(Ends(progs)) {
      forall a ensures !Knot(progs, a) {
        if Knot(progs, a) {
          var p := KnotIsShort(progs, a);
          BehindKnot(progs, order, a);
        }
      }
    }
  }

  /** Call t of p comes after enough sends of q to p, in the order of the stamps. */
  ghost predicate SentEarlier(progs: seq<seq<Op>>, stamps: seq<seq<nat>>, q: nat, p: nat, t: nat)
    requires |stamps| == |progs| && q < |progs| && p < |progs| && t < |progs[p]| && t < |stamps[p]|
    requires |stamps[q]| <= |progs[q]|
  {
    exists u: nat :: u <= |stamps[q]| && Before(progs[p], t, From(q)) < Before(progs[q], u, To(p))
      && forall v :: 0 <= v < u ==> stamps[q][v] < stamps[p][t]
  }

  lemma SentBy(progs: seq<seq<Op>>, stamps: seq<seq<nat>>, q: nat, p: nat, t: nat, u: nat)
    requires |stamps| == |progs| && q < |progs| && p < |progs| && t < |progs[p]| && t < |stamps[p]|
    requires |stamps[q]| <= |progs[q]| && u <= |stamps[q]|
    requires Before(progs[p], t, From(q)) < Before(progs[q], u, To(p))
    requires forall v :: 0 <= v < u ==> stamps[q][v] < stamps[p][t]
    ensures SentEarlier(progs, stamps, q, p, t)
  {
  }

  /** Longer programs with the same beginnings. */
  lemma SentEarlierStill(progs: seq<seq<Op>>, stamps: seq<seq<nat>>, progs': seq<seq<Op>>, stamps': seq<seq<nat>>,
                         q: nat, p: nat, t: nat)
    requires |stamps| == |progs| == |stamps'| == |progs'| && q < |progs|
    requires p < |progs| && t < |progs[p]| && t < |stamps[p]|
    requires progs[p] <= progs'[p] && progs[q] <= progs'[q] && stamps[p] <= stamps'[p] && stamps[q] <= stamps'[q]
    requires |stamps[q]| <= |progs[q]| && |stamps'[q]| <= |progs'[q]| && SentEarlier(progs, stamps, q, p, t)
    ensures SentEarlier(progs', stamps', q, p, t)
  {
    var u: nat :| u <= |stamps[q]| && Before(progs[p], t, From(q)) < Before(progs[q], u, To(p))
                  && forall v :: 0 <= v < u ==> stamps[q][v] < stamps[p][t];
    assert progs'[p][..t] == progs[p][..t] && progs'[q][..u] == progs[q][..u];
    SentBy(progs', stamps', q, p, t, u);
  }

  /** A time for each of the first calls of every party: never decreasing along a program, and
      later than the sends a call waits for.
   */
  ghost predicate Timed(progs: seq<seq<Op>>, a: Places, stamps: seq<seq<nat>>)
    requires ProgramsOk(progs) && PlacesOk(progs, a)
  {
    && |stamps| == |progs|
    && (forall p :: 0 <= p < |progs| ==> |stamps[p]| == a[p])
    && (forall p, t, u :: 0 <= p < |progs| && 0 <= t <= u < |stamps[p]| ==> stamps[p][t] <= stamps[p][u])
    && (forall p, t :: 0 <= p < |progs| && 0 <= t < |stamps[p]| ==> OnTime(progs, a, stamps, p, t))
  }

  ghost predicate OnTime(progs: seq<seq<Op>>, a: Places, stamps: seq<seq<nat>>, p: nat, t: nat)
    requires ProgramsOk(progs) && PlacesOk(progs, a) && |stamps| == |progs| && p < |progs| && t < |stamps[p]|
    requires forall q :: 0 <= q < |progs| ==> |stamps[q]| == a[q]
  {
    forall k :: 0 <= k < |Takes(progs[p][t])| ==> SentEarlier(progs, stamps, Takes(progs[p][t])[k], p, t)
  }

  /** The party whose next call has the lowest stamp. */
  lemma {:induction false} Lowest(progs: seq<seq<Op>>, a: Places, stamps: seq<seq<nat>>, m: nat) returns (p: nat)
    requires ProgramsOk(progs) && PlacesOk(progs, a) && Timed(progs, Ends(progs), stamps)
    requires m <= |progs| && exists q :: 0 <= q < m && a[q] < |progs[q]|
    ensures p < m && a[p] < |progs[p]|
    ensures forall q :: 0 <= q < m && a[q] < |progs[q]| ==> stamps[p][a[p]] <= stamps[q][a[q]]
    decreases m
  {
    p := m - 1;
    if exists q :: 0 <= q < m - 1 && a[q] < |progs[q]| {
      var low := Lowest(progs, a, stamps, m - 1);
      if a[p] == |progs[p]| || stamps[low][a[low]] <= stamps[p][a[p]] { p := low; }
    }
  }

  lemma LowestMoves(progs: seq<seq<Op>>, a: Places, stamps: seq<seq<nat>>, p: nat)
    requires ProgramsOk(progs) && PlacesOk(progs, a) && Timed(progs, Ends(progs), stamps)
    requires p < |progs| && a[p] < |progs[p]|
    requires forall q :: 0 <= q < |progs| && a[q] < |progs[q]| ==> stamps[p][a[p]] <= stamps[q][a[q]]
    ensures CanMove(progs, a, p)
  {
    var t := a[p];
    assert OnTime(progs, Ends(progs), stamps, p, t);
    forall k | 0 <= k < |Takes(progs[p][t])| ensures Waiting(progs, a, Takes(progs[p][t])[k], p) {
      var q := Takes(progs[p][t])[k];
      assert SentEarlier(progs, stamps, q, p, t);
      var u: nat :| u <= |stamps[q]| && Before(progs[p], t, From(q)) < Before(progs[q], u, To(p))
                    && forall v :: 0 <= v < u ==> stamps[q][v] < stamps[p][t];
      BeforeGrows(progs[q], u, a[q], To(p));
    }
  }

  /** The stamps of an order: each call has its number in it. */
  lemma {:induction false} Stamps(progs: seq<seq<Op>>, order: seq<nat>) returns (stamps: seq<seq<nat>>)
    requires ProgramsOk(progs) && Solo(progs, order).Some?
    ensures Timed(progs, Solo(progs, order).value, stamps)
    ensures forall p, t :: 0 <= p < |progs| && 0 <= t < |stamps[p]| ==> stamps[p][t] < |order|
  {
    if order == [] {
      stamps := seq(|progs|, _ => []);
    } else {
      var last := |order| - 1;
      var before := Stamps(progs, order[..last]);
      stamps := StampNext(progs, Solo(progs, order[..last]).value, before, order[last], last);
    }
  }

  lemma StampNext(progs: seq<seq<Op>>, a: Places, stamps: seq<seq<nat>>, p: nat, now: nat)
    returns (stamps': seq<seq<nat>>)
    requires ProgramsOk(progs) && PlacesOk(progs, a) && Timed(progs, a, stamps) && p < |progs| && CanMove(progs, a, p)
    requires forall q, t :: 0 <= q < |progs| && 0 <= t < |stamps[q]| ==> stamps[q][t] < now
    ensures Timed(progs, a[p := a[p] + 1], stamps')
    ensures forall q, t :: 0 <= q < |progs| && 0 <= t < |stamps'[q]| ==> stamps'[q][t] <= now
  {
    stamps' := stamps[p := stamps[p] + [now]];
    var b := a[p := a[p] + 1];
    forall r, t | 0 <= r < |progs| && 0 <= t < |stamps'[r]| ensures OnTime(progs, b, stamps', r, t) {
      var qs := Takes(progs[r][t]);
      forall k | 0 <= k < |qs| ensures SentEarlier(progs, stamps', qs[k], r, t) {
        assert t < |stamps[r]| ==> OnTime(progs, a, stamps, r, t);
        assert t == |stamps[r]| ==> Waiting(progs, a, qs[k], p);
        StampedNext(progs, a, stamps, p, now, stamps', qs[k], r, t);
      }
    }
  }

  lemma StampedNext(progs: seq<seq<Op>>, a: Places, stamps: seq<seq<nat>>, p: nat, now: nat, stamps': seq<seq<nat>>,
                    q: nat, r: nat, t: nat)
    requires PlacesOk(progs, a) && |stamps| == |progs| && p < |progs| && a[p] < |progs[p]| && q < |progs| && r < |progs|
    requires (forall x :: 0 <= x < |progs| ==> |stamps[x]| == a[x]) && stamps' == stamps[p := stamps[p] + [now]]
    requires forall v :: 0 <= v < |stamps[q]| ==> stamps[q][v] < now
    requires t < |stamps'[r]|
    requires if t < |stamps[r]| then SentEarlier(progs, stamps, q, r, t) else Waiting(progs, a, q, p)
    ensures SentEarlier(progs, stamps', q, r, t)
  {
    if t < |stamps[r]| {
      SentEarlierStill(progs, stamps, progs, stamps', q, r, t);
    } else {
      SentBy(progs, stamps', q, r, t, a[q]);
    }
  }

  /** Programs complete if and only if their calls can be given times that respect the programs and
      the channels.
   */
  lemma CompletesWhenTimed(progs: seq<seq<Op>>)
    requires ProgramsOk(progs)
    ensures Completes(progs) <==> exists stamps :: Timed(progs, Ends(progs), stamps)
  {
    if stamps :| Timed(progs, Ends(progs), stamps) {
      forall a ensures !Knot(progs, a) { if Knot(progs, a) { TimedHasNoKnot(progs, stamps, a); } }
      CompletesWithoutKnot(progs);
    }
    if order :| Solo(progs, order) == Some(Ends(progs)) { var _ := Stamps(progs, order); }
  }

  lemma TimedHasNoKnot(progs: seq<seq<Op>>, stamps: seq<seq<nat>>, a: Places)
    requires ProgramsOk(progs) && Timed(progs, Ends(progs), stamps)
    ensures !Knot(progs, a)
  {
    if PlacesOk(progs, a) && a != Ends(progs) {
      assert exists q :: 0 <= q < |progs| && a[q] != Ends(progs)[q];
      var p := Lowest(progs, a, stamps, |progs|);
      LowestMoves(progs, a, stamps, p);
    }
  }
}
