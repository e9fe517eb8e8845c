/** Multiplication of the generator by a scalar (`ecurve_core_t::mul_to_generator`): a precomputed
    table with one line of multiples for each window, and one addition for each forward Booth digit.

    Points are written as their multiples of the generator.
 */
module GeneratorMul {
  import opened Arithmetic
  import opened Bits
  import opened Booth
  import opened BoothStreams

  const MULG_WIN := 6
  const MULG_LINE := 32

  /** Entry j of line i is (j + 1) * 2^(6 i) * G; the table starts with one unused entry. */
  predicate Precomputed(t: seq<int>, n: nat)
  {
    |t| == 1 + n * MULG_LINE
    && forall i, j :: 0 <= i < n && 0 <= j < MULG_LINE ==> t[Place(i, j)] == Multiple(i, j)
  }

  function Place(i: nat, j: nat): nat { 1 + i * MULG_LINE + j }

  function Multiple(i: nat, j: nat): int { (j + 1) * Pow2(i * MULG_WIN) }

  /** The line of one window: row goes through the multiples of base. */
  method Line(base: int, i: nat) returns (line: seq<int>)
    requires base == Pow2(i * MULG_WIN)
    ensures |line| == MULG_LINE && forall j :: 0 <= j < MULG_LINE ==> line[j] == Multiple(i, j)
  {
    line := [];
    var row := base;
    for j := 0 to MULG_LINE
      invariant |line| == j && row == (j + 1) * base && forall k :: 0 <= k < j ==> line[k] == Multiple(i, k)
    {
      line := line + [row];
      row := row + base;
    }
  }

  /** The doublings that move to the next window. */
  method NextBase(base: int) returns (next: int)
    ensures next == base * Pow2(MULG_WIN)
  {
    next := base;
    for j := 0 to MULG_WIN
      invariant next == base * Pow2(j)
    {
      next := next + next;
    }
  }

  /** precompute. */
  method Precompute(n: nat) returns (t: seq<int>)
    ensures Precomputed(t, n)
  {
    t := [0];
    var base := 1;
    for i := 0 to n
      invariant base == Pow2(i * MULG_WIN) && Precomputed(t, i)
    {
      var line := Line(base, i);
      LineAdded(t, line, i);
      t := t + line;
      base := NextBase(base);
      Pow2Add(i * MULG_WIN, MULG_WIN);
    }
  }

  lemma LineAdded(t: seq<int>, line: seq<int>, i: nat)
    requires Precomputed(t, i) && |line| == MULG_LINE
    requires forall j :: 0 <= j < MULG_LINE ==> line[j] == Multiple(i, j)
    ensures Precomputed(t + line, i + 1)
  {
    forall k, j | 0 <= k < i + 1 && 0 <= j < MULG_LINE ensures (t + line)[Place(k, j)] == Multiple(k, j) {
      if k < i { assert t[Place(k, j)] == Multiple(k, j); }
    }
  }

  /** Looking up digit value `ind` from the start of line i, one entry before its first multiple. */
  lemma LineEntry(t: seq<int>, n: nat, i: nat, ind: nat)
    requires Precomputed(t, n) && i < n && ind <= MULG_LINE
    ensures i * MULG_LINE + ind < |t|
    ensures ind > 0 ==> t[i * MULG_LINE + ind] == ind * Pow2(i * MULG_WIN)
  {
    if ind > 0 { assert t[Place(i, ind - 1)] == Multiple(i, ind - 1); }
  }

  /** One addition: nothing for the digit 0, and the entry itself as long as the sum is infinity. */
  function AddEntry(sum: int, pre: int, sumIsInf: bool, addInf: bool): int
  {
    if addInf then sum else if sumIsInf then pre else sum + pre
  }

  /** mul_to_generator: the result is the weighted digit sum, and so the scalar if the number of bits
      of the group order is not a multiple of the window size. */
  method MulToGenerator(limbs: seq<nat>, qbits: nat, t: seq<int>) returns (sum: int)
    requires 1 <= qbits <= 256 && |limbs| <= 4 && LimbsOk(limbs) && Precomputed(t, ForwardCount(MULG_WIN, qbits))
    ensures sum == Total(Stream(FromLimbs(limbs), MULG_WIN, qbits, false))
    ensures FromLimbs(limbs) < Pow2(qbits) && qbits % MULG_WIN != 0 ==> sum == FromLimbs(limbs)
  {
    var w := NewReader(MULG_WIN, limbs, qbits, false);
    sum := AddEntries(w, FromLimbs(limbs), qbits, t);
    if FromLimbs(limbs) < Pow2(qbits) && qbits % MULG_WIN != 0 { ForwardCovers(FromLimbs(limbs), MULG_WIN, qbits); }
  }

  /** The sum of the first k digits, and whether it is still infinity. */
  ghost predicate SoFar(x: nat, k: nat, sum: int, sumIsInf: bool)
  {
    sum == Total(Forward(x, MULG_WIN, k)) && (sumIsInf ==> sum == 0)
  }

  /** The loop over the digits. */
  method AddEntries(w: BoothWnaf, ghost x: nat, qbits: nat, t: seq<int>) returns (sum: int)
    requires 1 <= qbits <= 256 && Reads(w, x, MULG_WIN, qbits, false, 0)
    requires Precomputed(t, ForwardCount(MULG_WIN, qbits))
    modifies w`index
    ensures sum == Total(Stream(x, MULG_WIN, qbits, false))
  {
    sum := 0;
    var line, sumIsInf, more := 0, true, true;
    ghost var k, m := 0, ForwardCount(MULG_WIN, qbits);
    while more
      invariant k <= m && (!more ==> k == m) && line == k * MULG_LINE
      invariant Reads(w, x, MULG_WIN, qbits, false, k) && SoFar(x, k, sum, sumIsInf)
      decreases m - k, more
    {
      var ind, neg;
      more, ind, neg := NextDigit(w, x, MULG_WIN, qbits, false, k);
      if more {
        sum, sumIsInf := OneEntry(t, sum, sumIsInf, line, ind, neg, x, m, k);
        line, k := line + MULG_LINE, k + 1;
      }
    }
  }

  /** The body of the loop. */
  method OneEntry(t: seq<int>, sum: int, sumIsInf: bool, line: nat, ind: nat, neg: bool,
                  ghost x: nat, ghost n: nat, ghost k: nat) returns (sum': int, sumIsInf': bool)
    requires Precomputed(t, n) && k < n && line == k * MULG_LINE && ind <= Pow2(MULG_WIN - 1)
    requires SoFar(x, k, sum, sumIsInf) && Signed(ind, neg) == Digit(x, k * MULG_WIN, MULG_WIN)
    ensures SoFar(x, k + 1, sum', sumIsInf')
  {
    assert Pow2(5) == 32;
    LineEntry(t, n, k, ind);
    var pre := t[line + ind];
    if neg { pre := -pre; }
    sum' := AddEntry(sum, pre, sumIsInf, ind == 0);
    sumIsInf' := sumIsInf && ind == 0;
    DigitAdded(x, k, sum, ind, neg);
  }

  lemma DigitAdded(x: nat, k: nat, sum: int, ind: nat, neg: bool)
    requires sum == Total(Forward(x, MULG_WIN, k)) && Signed(ind, neg) == Digit(x, k * MULG_WIN, MULG_WIN)
    ensures Total(Forward(x, MULG_WIN, k + 1)) ==
            sum + if neg then -(ind * Pow2(k * MULG_WIN)) else ind * Pow2(k * MULG_WIN)
  {
    var f, e := Forward(x, MULG_WIN, k), Entry(k * MULG_WIN, Digit(x, k * MULG_WIN, MULG_WIN));
    assert Forward(x, MULG_WIN, k + 1) == f + [e];
    TotalSnoc(f, e);
    SignedTimes(ind, neg, Pow2(k * MULG_WIN));
  }

  lemma SignedTimes(ind: nat, neg: bool, p: int)
    ensures Signed(ind, neg) * p == if neg then -(ind * p) else ind * p
  {
    var i: int := ind;
    assert (-i) * p == -(i * p);
  }
}
