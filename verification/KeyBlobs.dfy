/** The key blobs of the threshold ECDSA interface and the detaching and attaching of their private
    scalar (`ecdsa_mp.cpp`, `ecdsa2pc.cpp`).

    Points are named by their discrete logarithm, so a group of prime order q is the residues modulo
    q with generator 1. Point decoding and the Paillier operations are parameters.
 */
module KeyBlobs {
  import opened Options
  import opened Wire
  import Errors
  import opened Counting
  import opened Arithmetic
  import B = Bits
  import F = Field

  const P256 := 1
  const SECP256K1 := 2
  const VERSION_V1 := 1
  const VERSION_AC := 2
  const PAILLIER_BITS := 2048

  /** The outcome of coinbase::convert on the input bytes, or of the size checks before it. */
  datatype Input<B> = Blob(blob: B) | Malformed(rv: int)

  datatype Decoded = Point(log: nat) | BadPoint(rv: int)

  datatype Paillier = Paillier(hasPrivate: bool, N: nat, primes: (nat, nat))

  /** The cryptographic layer: group orders by curve id, from_bin and to_compressed_bin, Paillier. */
  datatype Crypto = Crypto(order: nat -> nat,
                           decode: (nat, Bytes) -> Decoded,
                           encode: (nat, nat) -> Bytes,
                           cipherOk: (Paillier, int) -> bool,
                           decrypt: (Paillier, int) -> int)

  ghost predicate CurveOk(curve: nat) { curve == P256 || curve == SECP256K1 }

  /** What the model asks of the group layer. */
  ghost predicate Proper(w: Crypto)
  {
    && (forall c :: CurveOk(c) ==> w.order(c) > 1)
    && (forall c, b :: CurveOk(c) ==> DecodesProperly(w, c, b))
    && (forall c, p :: CurveOk(c) && 0 < p < w.order(c) ==>
          w.decode(c, w.encode(c, p)) == Point(p) && w.encode(c, p) != [])
  }

  predicate DecodesProperly(w: Crypto, c: nat, b: Bytes)
  {
    match w.decode(c, b)
    case Point(p) => b != [] && p < w.order(c)
    case BadPoint(rv) => rv != Errors.SUCCESS
  }

  /** A cryptographic layer that meets the demands: a group of order 5 with one-byte encodings. */
  function Toy(): Crypto
  {
    Crypto(_ => 5,
           (c: nat, b: Bytes) => if |b| == 1 && b[0] < 5 then Point(b[0]) else BadPoint(Errors.E_CRYPTO),
           (c: nat, p: nat) => if p < 5 then [p] else [],
           (p, c) => true,
           (p, c) => 0)
  }

  lemma ToyIsProper()
    ensures Proper(Toy())
  {
  }

  // ---------------------------------------------------------------- scalars as bytes

  /** bn_t::get_bin_size. */
  function BinSize(x: nat): nat
  {
    if x == 0 then 0 else 1 + BinSize(x / 256)
  }

  /** bn_t::get_bits_count. */
  function BitsCount(x: nat): nat
  {
    if x == 0 then 0 else 1 + BitsCount(x / 2)
  }

  /** x has exactly n binary digits when 2^(n-1) <= x < 2^n. */
  lemma {:induction false} BitsCountRange(x: nat)
    requires x > 0
    ensures BitsCount(x) > 0 && B.Pow2(BitsCount(x) - 1) <= x < B.Pow2(BitsCount(x))
  {
    if x > 1 { BitsCountRange(x / 2); }
  }

  /** At least k binary digits: the condition on the number itself. */
  lemma EnoughBits(x: nat, k: nat)
    requires k > 0
    ensures BitsCount(x) >= k <==> x >= B.Pow2(k - 1)
  {
    if x > 0 {
      var n := BitsCount(x);
      BitsCountRange(x);
      if n >= k { B.Pow2Bound(k - 1, n - 1); } else { B.Pow2Bound(n, k - 1); }
    }
  }

  /** n is the least number of bytes that hold x. */
  ghost predicate HasBytes(x: nat, n: nat)
  {
    x < Pow256(n) && (n > 0 ==> Pow256(n - 1) <= x)
  }

  lemma {:induction false} SizeInBytes(x: nat, n: nat)
    ensures HasBytes(x, n) <==> n == BinSize(x)
    decreases x
  {
    if x > 0 {
      SizeInBytes(x / 256, if n > 0 then n - 1 else 0);
      if n > 1 { assert Pow256(n - 1) == 256 * Pow256(n - 2); }
    }
  }

  lemma {:induction false} FitsItsSize(x: nat, y: nat)
    requires x <= y
    ensures BinSize(x) <= BinSize(y) && x < Pow256(BinSize(y))
    decreases y
  {
    if y > 0 { FitsItsSize(x / 256, y / 256); }
  }

  /** A scalar of the field survives the fixed-width encoding, and every scalar the minimal one. */
  lemma ScalarRoundTrip(x: nat, bound: nat)
    requires x <= bound
    ensures FromBigEndian(BigEndian(x, BinSize(bound))) == x
  {
    FitsItsSize(x, bound);
    BigEndianRoundTrip(x, BinSize(bound));
  }

  // ---------------------------------------------------------------- sums of share points

  ghost function MapSum(m: map<string, nat>): nat
    decreases |m|
  {
    if m == map[] then 0 else var k :| k in m; m[k] + MapSum(m - {k})
  }

  /** The sum does not depend on the order in which the map is walked. */
  lemma {:induction false} MapSumRemove(m: map<string, nat>, k: string)
    requires k in m
    ensures MapSum(m) == m[k] + MapSum(m - {k})
    decreases |m|
  {
    var j :| j in m && MapSum(m) == m[j] + MapSum(m - {j});
    if j != k {
      MapSumRemove(m - {j}, k);
      MapSumRemove(m - {k}, j);
      assert m - {j} - {k} == m - {k} - {j};
    }
  }

  predicate Distinct(names: seq<string>) { forall i, j :: 0 <= i < j < |names| ==> names[i] != names[j] }

  /** Walking the names sums the map they are the keys of. */
  lemma {:induction false} SumByNames(names: seq<string>, m: map<string, nat>, s: seq<int>)
    requires Distinct(names) && SetOf(names) == m.Keys && |s| == |names|
    requires forall i :: 0 <= i < |names| ==> names[i] in m && s[i] == m[names[i]]
    ensures SumInt(s) == MapSum(m)
    decreases |names|
  {
    if names == [] {
      assert m == map[];
    } else {
      var k := |names| - 1;
      MapSumRemove(m, names[k]);
      AllButLast(names, m);
      SumByNames(names[..k], m - {names[k]}, s[..k]);
    }
  }

  lemma AllButLast(names: seq<string>, m: map<string, nat>)
    requires Distinct(names) && SetOf(names) == m.Keys && names != []
    ensures SetOf(names[..|names| - 1]) == (m - {names[|names| - 1]}).Keys
  {
    var k := |names| - 1;
    forall x ensures x in SetOf(names[..k]) <==> x in m.Keys && x != names[k] {
      if x in m.Keys && x != names[k] {
        assert x in SetOf(names);
        var i :| 0 <= i < |names| && names[i] == x;
        assert names[..k][i] == x;
      }
      if x in SetOf(names[..k]) { assert x in SetOf(names); }
    }
  }

  /** A list has as many different names as entries exactly when none repeats. */
  lemma {:induction false} DistinctCount(names: seq<string>)
    ensures |SetOf(names)| <= |names|
    ensures |SetOf(names)| == |names| <==> Distinct(names)
    decreases |names|
  {
    if names != [] {
      var k := |names| - 1;
      DistinctCount(names[..k]);
      assert SetOf(names) == SetOf(names[..k]) + {names[k]} by { SetOfNext(names, k); assert names[..k + 1] == names; }
      LastRepeats(names);
    }
  }

  lemma LastRepeats(names: seq<string>)
    requires names != []
    ensures var k := |names| - 1; Distinct(names) <==> Distinct(names[..k]) && names[k] !in SetOf(names[..k])
  {
    var k := |names| - 1;
    if Distinct(names[..k]) && names[k] !in SetOf(names[..k]) {
      forall i, j | 0 <= i < j < |names| ensures names[i] != names[j] {
        assert names[..k][i] == names[i];
        if j < k { assert names[..k][j] == names[j]; }
      }
    }
  }

  lemma {:induction false} SubsetOfSameSize(a: set<string>, b: set<string>)
    requires a <= b && |a| == |b|
    ensures a == b
  {
    forall x | x in b ensures x in a {
      if x !in a { SubsetSmaller(a, b - {x}); }
    }
  }

  lemma {:induction false} SubsetSmaller(a: set<string>, b: set<string>)
    requires a <= b
    ensures |a| <= |b|
    decreases a
  {
    if x :| x in a { SubsetSmaller(a - {x}, b - {x}); }
  }

  /** Equal sizes and one-way containment are equality of the name sets exactly when no name repeats. */
  lemma NamesMatch(names: seq<string>, keys: set<string>)
    requires |names| == |keys| && SetOf(names) <= keys
    ensures SetOf(names) == keys <==> Distinct(names)
  {
    DistinctCount(names);
    if Distinct(names) { SubsetOfSameSize(SetOf(names), keys); }
  }

  // ---------------------------------------------------------------- the multi-party blob

  datatype MpBlob = MpBlob(version: nat, curve: nat, party: string, Q: Bytes, Qis: map<string, Bytes>, x: int)

  datatype MpKey = MpKey(party: string, curve: nat, x: int, Qis: map<string, nat>, Q: nat)

  /** validate_job_mp. */
  predicate JobOk(names: seq<string>, self: int)
  {
    2 <= |names| <= 64 && 0 <= self < |names| && "" !in names && Distinct(names)
  }

  method ValidateJob(names: seq<string>, self: int) returns (rv: int)
    ensures rv == Errors.SUCCESS <==> JobOk(names, self)
    ensures rv == Errors.E_RANGE <==> |names| > 64
  {
    if |names| < 2 { return Errors.E_BADARG; }
    if |names| > 64 { return Errors.E_RANGE; }
    if self < 0 || self >= |names| { return Errors.E_BADARG; }
    var seen: set<string> := {};
    for i := 0 to |names|
      invariant seen == SetOf(names[..i])
      invariant "" !in names[..i] && Distinct(names[..i])
    {
      assert names[i] == names[..i + 1][i];
      if names[i] == "" { return Errors.E_BADARG; }
      if names[i] in seen {
        var j :| 0 <= j < i && names[..i][j] == names[i];
        assert names[j] == names[i];
        return Errors.E_BADARG;
      }
      seen := seen + {names[i]};
      assert names[..i + 1] == names[..i] + [names[i]];
      SetOfNext(names, i);
    }
    assert names[..|names|] == names;
    return Errors.SUCCESS;
  }

  lemma SetOfNext(names: seq<string>, i: nat)
    requires i < |names|
    ensures SetOf(names[..i + 1]) == SetOf(names[..i]) + {names[i]}
  {
    var a, b := names[..i], names[..i + 1];
    assert b == a + [names[i]];
    forall x ensures x in SetOf(b) <==> x in SetOf(a) || x == names[i] {
      if x in SetOf(a) {
        var j :| 0 <= j < i && a[j] == x;
        assert b[j] == x;
      }
      assert b[i] == names[i];
    }
  }

  /** The share points of the named parties decode. */
  predicate AllDecode(w: Crypto, b: MpBlob, s: set<string>)
  {
    forall n :: n in s ==> n in b.Qis && w.decode(b.curve, b.Qis[n]).Point?
  }

  function Points(w: Crypto, b: MpBlob, s: set<string>): map<string, nat>
    requires AllDecode(w, b, s)
  {
    map n | n in s :: w.decode(b.curve, b.Qis[n]).log
  }

  /** A blob that is the key of the party at index self of the job. The names are compared by number
      and containment, and only the points of the job's names are looked at. */
  ghost predicate Accepts(w: Crypto, names: seq<string>, self: int, b: MpBlob)
  {
    && 0 <= self < |names| && b.version == VERSION_V1
    && b.party != "" && b.party == names[self] && |names| == |b.Qis| && SetOf(names) <= b.Qis.Keys
    && CurveOk(b.curve) && 0 <= b.x < w.order(b.curve)
    && AllDecode(w, b, SetOf(names)) && SumIsKey(w, b, SetOf(names))
    && w.decode(b.curve, b.Qis[b.party]) == Point(b.x)
  }

  /** The share points add up to the public key. */
  ghost predicate SumIsKey(w: Crypto, b: MpBlob, s: set<string>)
    requires AllDecode(w, b, s) && w.order(b.curve) > 0
  {
    w.decode(b.curve, b.Q) == Point(MapSum(Points(w, b, s)) % w.order(b.curve))
  }

  ghost function KeyOf(w: Crypto, b: MpBlob, s: set<string>): MpKey
    requires AllDecode(w, b, s) && w.order(b.curve) > 0
  {
    MpKey(b.party, b.curve, b.x, Points(w, b, s), MapSum(Points(w, b, s)) % w.order(b.curve))
  }

  /** An accepted blob names exactly the parties of the job if and only if no name repeats in the job. */
  lemma AcceptedNames(w: Crypto, names: seq<string>, self: int, b: MpBlob)
    requires Accepts(w, names, self, b)
    ensures b.Qis.Keys == SetOf(names) <==> Distinct(names)
  {
    NamesMatch(names, b.Qis.Keys);
  }

  /** The loop that checks containment. */
  method AllPresent(names: seq<string>, keys: set<string>) returns (ok: bool)
    ensures ok <==> SetOf(names) <= keys
  {
    for i := 0 to |names|
      invariant forall j :: 0 <= j < i ==> names[j] in keys
    {
      if names[i] !in keys {
        assert names[i] in SetOf(names);
        return false;
      }
    }
    return true;
  }

  /** The loop that decodes the share points, name by name. */
  method DecodePoints(w: Crypto, b: MpBlob, names: seq<string>) returns (rv: int, points: map<string, nat>)
    requires Proper(w) && CurveOk(b.curve) && SetOf(names) <= b.Qis.Keys
    ensures rv == Errors.SUCCESS <==> AllDecode(w, b, SetOf(names))
    ensures rv == Errors.SUCCESS ==> points == Points(w, b, SetOf(names))
  {
    points := map[];
    for i := 0 to |names|
      invariant points.Keys == SetOf(names[..i])
      invariant forall n :: n in points ==> n in b.Qis && w.decode(b.curve, b.Qis[n]) == Point(points[n])
    {
      assert names[i] in SetOf(names);
      match w.decode(b.curve, b.Qis[names[i]])
      case BadPoint(e) =>
        assert DecodesProperly(w, b.curve, b.Qis[names[i]]);
        return e, points;
      case Point(p) =>
        points := points[names[i] := p];
        SetOfNext(names, i);
    }
    assert names[..|names|] == names;
    return Errors.SUCCESS, points;
  }

  /** The loop over the map that adds the points up. */
  method SumPoints(q: nat, points: map<string, nat>) returns (sum: nat)
    requires q > 0
    ensures sum == MapSum(points) % q
  {
    sum := 0;
    var rest := points;
    while rest.Keys != {}
      invariant rest.Keys <= points.Keys && forall n :: n in rest ==> rest[n] == points[n]
      invariant (sum + MapSum(rest)) % q == MapSum(points) % q && sum < q
      decreases |rest|
    {
      var n :| n in rest.Keys;
      MapSumRemove(rest, n);
      F.CongMod(sum + rest[n], q);
      F.CongAdd((sum + rest[n]) % q, sum + rest[n], MapSum(rest - {n}), MapSum(rest - {n}), q);
      sum, rest := (sum + rest[n]) % q, rest - {n};
    }
    assert rest == map[];
    RemainderUnique(sum, 0, sum, q);
  }

  /** deserialize_key_blob: it accepts exactly the consistent blobs. */
  method Deserialize(w: Crypto, names: seq<string>, self: int, input: Input<MpBlob>)
    returns (rv: int, key: Option<MpKey>)
    requires Proper(w) && (input.Malformed? ==> input.rv != Errors.SUCCESS)
    ensures rv == Errors.SUCCESS <==> input.Blob? && Accepts(w, names, self, input.blob)
    ensures key == if rv == Errors.SUCCESS then Some(KeyOf(w, input.blob, SetOf(names))) else None
    ensures input.Malformed? && 0 <= self < |names| ==> rv == input.rv
  {
    key := None;
    if self < 0 || self >= |names| { return Errors.E_BADARG, key; }
    if input.Malformed? { return input.rv, key; }
    var b := input.blob;
    if b.version != VERSION_V1 { return Errors.E_FORMAT, key; }
    if b.party == "" { return Errors.E_FORMAT, key; }
    if b.party != names[self] { return Errors.E_BADARG, key; }
    if |names| != |b.Qis| { return Errors.E_BADARG, key; }
    var present := AllPresent(names, b.Qis.Keys);
    if !present { return Errors.E_BADARG, key; }
    if b.curve != P256 && b.curve != SECP256K1 { return Errors.E_FORMAT, key; }
    rv, key := CheckPoints(w, names, b);
  }

  /** The part of deserialize_key_blob after the names and the curve. */
  method CheckPoints(w: Crypto, names: seq<string>, b: MpBlob) returns (rv: int, key: Option<MpKey>)
    requires Proper(w) && CurveOk(b.curve) && SetOf(names) <= b.Qis.Keys && b.party in SetOf(names)
    ensures rv == Errors.SUCCESS <==>
            && 0 <= b.x < w.order(b.curve)
            && AllDecode(w, b, SetOf(names)) && SumIsKey(w, b, SetOf(names))
            && w.decode(b.curve, b.Qis[b.party]) == Point(b.x)
    ensures key == if rv == Errors.SUCCESS then Some(KeyOf(w, b, SetOf(names))) else None
  {
    key := None;
    var q := w.order(b.curve);
    if !(0 <= b.x < q) { return Errors.E_FORMAT, key; }
    var points, Q;
    rv, points, Q := CheckSum(w, names, b);
    if rv != Errors.SUCCESS { return; }
    RemainderUnique(b.x, 0, b.x, q);
    if b.party !in points { return Errors.E_FORMAT, key; }
    if b.x % q != points[b.party] { return Errors.E_FORMAT, key; }
    key := Some(MpKey(b.party, b.curve, b.x, points, Q));
  }

  /** The public key, the share points, and their sum. */
  method CheckSum(w: Crypto, names: seq<string>, b: MpBlob) returns (rv: int, points: map<string, nat>, Q: nat)
    requires Proper(w) && CurveOk(b.curve) && SetOf(names) <= b.Qis.Keys
    ensures rv == Errors.SUCCESS <==> AllDecode(w, b, SetOf(names)) && SumIsKey(w, b, SetOf(names))
    ensures rv == Errors.SUCCESS ==> points == Points(w, b, SetOf(names)) && Q == MapSum(points) % w.order(b.curve)
  {
    points, Q := map[], 0;
    var d := w.decode(b.curve, b.Q);
    assert DecodesProperly(w, b.curve, b.Q);
    if d.BadPoint? { return d.rv, points, Q; }
    rv, points := DecodePoints(w, b, names);
    if rv != Errors.SUCCESS { return; }
    var sum := SumPoints(w.order(b.curve), points);
    if d.log != sum { return Errors.E_FORMAT, points, Q; }
    Q := d.log;
  }

  /** Every party of the job holds an accepted blob, and all blobs carry the same share points. */
  ghost predicate Holders(w: Crypto, names: seq<string>, blobs: seq<MpBlob>)
  {
    && |blobs| == |names|
    && (forall i :: 0 <= i < |names| ==> Accepts(w, names, i, blobs[i]))
    && (forall i :: 0 <= i < |names| ==> SamePoints(w, blobs[0], blobs[i], SetOf(names)))
  }

  ghost predicate KeyIs(w: Crypto, b: MpBlob, secret: int)
  {
    w.order(b.curve) > 0 && w.decode(b.curve, b.Q) == Point(secret % w.order(b.curve))
  }

  /** The private shares then add up to the secret behind everybody's public key. */
  lemma SharesAddUp(w: Crypto, names: seq<string>, blobs: seq<MpBlob>, i: nat)
    requires Distinct(names) && Holders(w, names, blobs) && i < |names|
    ensures KeyIs(w, blobs[i], SumInt(Shares(blobs)))
  {
    var m := Points(w, blobs[0], SetOf(names));
    forall j | 0 <= j < |names| ensures names[j] in m && Shares(blobs)[j] == m[names[j]] {
      HolderPoint(w, names, blobs, j);
    }
    KeyIsSum(w, names, blobs[i], m, Shares(blobs), i) by { assert SamePoints(w, blobs[0], blobs[i], SetOf(names)); }
  }

  /** If every party has loaded its key in its own valid job, the private shares add up to the secret
      behind everybody's public key, and every blob is about exactly the parties of the job.
   */
  lemma LoadedKeysAddUp(w: Crypto, names: seq<string>, blobs: seq<MpBlob>, i: nat)
    requires i < |names| && JobOk(names, i) && Holders(w, names, blobs)
    ensures KeyIs(w, blobs[i], SumInt(Shares(blobs))) && blobs[i].Qis.Keys == SetOf(names)
  {
    SharesAddUp(w, names, blobs, i);
    ValidJobNames(w, names, i, blobs[i]);
  }

  lemma HolderPoint(w: Crypto, names: seq<string>, blobs: seq<MpBlob>, j: nat)
    requires Holders(w, names, blobs) && j < |names|
    ensures AllDecode(w, blobs[0], SetOf(names)) && names[j] in Points(w, blobs[0], SetOf(names))
    ensures Points(w, blobs[0], SetOf(names))[names[j]] == blobs[j].x
  {
    OwnPoint(w, names, j, blobs[j]);
    assert SamePoints(w, blobs[0], blobs[j], SetOf(names));
  }

  lemma KeyIsSum(w: Crypto, names: seq<string>, b: MpBlob, m: map<string, nat>, s: seq<int>, i: nat)
    requires Distinct(names) && Accepts(w, names, i, b) && Points(w, b, SetOf(names)) == m && |s| == |names|
    requires forall j :: 0 <= j < |names| ==> names[j] in m && s[j] == m[names[j]]
    ensures KeyIs(w, b, SumInt(s))
  {
    SumByNames(names, m, s);
  }

  lemma OwnPoint(w: Crypto, names: seq<string>, j: nat, b: MpBlob)
    requires Accepts(w, names, j, b)
    ensures names[j] in Points(w, b, SetOf(names)) && Points(w, b, SetOf(names))[names[j]] == b.x
  {
    assert names[j] in SetOf(names);
  }

  function Shares(blobs: seq<MpBlob>): (s: seq<int>)
    ensures |s| == |blobs| && forall i :: 0 <= i < |s| ==> s[i] == blobs[i].x
  {
    seq(|blobs|, i requires 0 <= i < |blobs| => blobs[i].x)
  }

  predicate SamePoints(w: Crypto, a: MpBlob, b: MpBlob, s: set<string>)
  {
    a.curve == b.curve && AllDecode(w, a, s) && AllDecode(w, b, s) && Points(w, a, s) == Points(w, b, s)
  }

  /** What refresh and sign do first: the job is validated before the blob is looked at, so the blob
      of an accepted call has share points for exactly the parties of the job.
   */
  method LoadKey(w: Crypto, names: seq<string>, self: int, input: Input<MpBlob>) returns (rv: int, key: Option<MpKey>)
    requires Proper(w) && (input.Malformed? ==> input.rv != Errors.SUCCESS)
    ensures rv == Errors.SUCCESS <==> JobOk(names, self) && input.Blob? && Accepts(w, names, self, input.blob)
    ensures rv == Errors.SUCCESS ==>
              input.blob.Qis.Keys == SetOf(names) && key == Some(KeyOf(w, input.blob, input.blob.Qis.Keys))
    ensures rv != Errors.SUCCESS ==> key == None
    ensures JobOk(names, self) && input.Malformed? ==> rv == input.rv
  {
    rv := ValidateJob(names, self);
    if rv != Errors.SUCCESS { return rv, None; }
    rv, key := Deserialize(w, names, self, input);
    if rv == Errors.SUCCESS { ValidJobNames(w, names, self, input.blob); }
  }

  lemma ValidJobNames(w: Crypto, names: seq<string>, self: int, b: MpBlob)
    requires JobOk(names, self) && Accepts(w, names, self, b)
    ensures b.Qis.Keys == SetOf(names)
  {
    AcceptedNames(w, names, self, b);
  }

  /** Taken alone, without the validation that comes first in every caller, the check of the names
      lets through a job that repeats a name, with a blob of a party that is not in it.
   */
  lemma RepeatedNameAccepted(b: MpBlob)
    requires b == MpBlob(VERSION_V1, P256, "a", [3], map["a" := [3], "b" := []], 3)
    ensures Accepts(Toy(), ["a", "a"], 0, b) && "b" in b.Qis && "b" !in SetOf(["a", "a"])
  {
    var names := ["a", "a"];
    assert names[0] == "a" && b.Qis.Keys == {"a", "b"};
    assert SetOf(names) == {"a"};
    var m := Points(Toy(), b, {"a"});
    assert m == map["a" := 3];
    SingleSum("a", 3);
  }

  lemma SingleSum(k: string, v: nat)
    ensures MapSum(map[k := v]) == v
  {
    MapSumRemove(map[k := v], k);
    assert map[k := v] - {k} == map[];
  }

  // ---------------------------------------------------------------- detach and attach, many parties

  /** detach_private_scalar. */
  method Detach(w: Crypto, input: Input<MpBlob>) returns (rv: int, public: Option<MpBlob>, scalar: Bytes)
    requires Proper(w) && (input.Malformed? ==> input.rv != Errors.SUCCESS)
    ensures rv == Errors.SUCCESS <==> input.Blob? && Detachable(w, input.blob)
    ensures rv == Errors.SUCCESS ==>
            public == Some(input.blob.(x := 0))
            && HasBytes(w.order(input.blob.curve), |scalar|) && FromBigEndian(scalar) == input.blob.x
    ensures rv != Errors.SUCCESS ==> public == None && scalar == []
  {
    public, scalar := None, [];
    if input.Malformed? { return input.rv, public, scalar; }
    var b := input.blob;
    if b.version != VERSION_V1 && b.version != VERSION_AC { return Errors.E_FORMAT, public, scalar; }
    if b.curve != P256 && b.curve != SECP256K1 { return Errors.E_FORMAT, public, scalar; }
    var q := w.order(b.curve);
    if !(0 <= b.x < q) { return Errors.E_FORMAT, public, scalar; }
    scalar := BigEndian(b.x, BinSize(q));
    SizeInBytes(q, |scalar|);
    ScalarRoundTrip(b.x, q);
    b := b.(x := 0);
    public := Some(b);
    rv := Errors.SUCCESS;
  }

  /** parse_key_blob_any_version. */
  ghost predicate Parses(b: MpBlob) { (b.version == VERSION_V1 || b.version == VERSION_AC) && CurveOk(b.curve) }

  ghost predicate Detachable(w: Crypto, b: MpBlob) { Parses(b) && 0 <= b.x < w.order(b.curve) }

  /** The scalar, reduced, is the discrete logarithm of the blob's own share point, and that point
      is the one the caller names. */
  ghost predicate Fits(w: Crypto, b: MpBlob, scalar: Bytes, pub: Bytes)
  {
    && Parses(b) && w.order(b.curve) > 1 && HasBytes(w.order(b.curve), |scalar|)
    && b.party != "" && b.party in b.Qis && pub == b.Qis[b.party]
    && FromBigEndian(scalar) % w.order(b.curve) != 0
    && w.decode(b.curve, pub) == Point(FromBigEndian(scalar) % w.order(b.curve))
  }

  /** attach_private_scalar; curve.check rejects the point at infinity. */
  method Attach(w: Crypto, input: Input<MpBlob>, scalar: Bytes, pub: Bytes) returns (rv: int, out: Option<MpBlob>)
    requires Proper(w) && (input.Malformed? ==> input.rv != Errors.SUCCESS)
    ensures rv == Errors.SUCCESS <==> input.Blob? && Fits(w, input.blob, scalar, pub)
    ensures out == if rv == Errors.SUCCESS
                   then Some(input.blob.(x := FromBigEndian(scalar) % w.order(input.blob.curve))) else None
  {
    out := None;
    if input.Malformed? { return input.rv, out; }
    var b := input.blob;
    if b.version != VERSION_V1 && b.version != VERSION_AC { return Errors.E_FORMAT, out; }
    if b.curve != P256 && b.curve != SECP256K1 { return Errors.E_FORMAT, out; }
    var q := w.order(b.curve);
    SizeInBytes(q, |scalar|);
    if scalar == [] { SizePositive(q); return Errors.E_BADARG, out; }
    if |scalar| != BinSize(q) { return Errors.E_BADARG, out; }
    if pub == [] { assert DecodesProperly(w, b.curve, pub); return Errors.E_BADARG, out; }
    if b.party == "" || b.party !in b.Qis || b.Qis[b.party] == [] { return Errors.E_FORMAT, out; }
    if pub != b.Qis[b.party] { return Errors.E_BADARG, out; }
    assert DecodesProperly(w, b.curve, pub);
    match w.decode(b.curve, pub)
    case BadPoint(e) => return e, out;
    case Point(own) =>
      if own == 0 { return Errors.E_CRYPTO, out; }
      var x := FromBigEndian(scalar) % q;
      if x != own { return Errors.E_FORMAT, out; }
      b := b.(x := x);
      return Errors.SUCCESS, Some(b);
  }

  lemma SizePositive(q: nat)
    requires q > 1
    ensures BinSize(q) > 0
  {
  }

  /** Whatever is attached to the public part of an accepted blob either fails or restores it, and it
      succeeds exactly for the encodings of the share, modulo q, with the own share point. */
  lemma AttachRestores(w: Crypto, names: seq<string>, self: int, b: MpBlob, scalar: Bytes, pub: Bytes)
    requires Proper(w) && Accepts(w, names, self, b)
    ensures var q := w.order(b.curve);
            Fits(w, b.(x := 0), scalar, pub) <==>
              b.x != 0 && HasBytes(q, |scalar|) && FromBigEndian(scalar) % q == b.x && pub == b.Qis[b.party]
    ensures Fits(w, b.(x := 0), scalar, pub) ==>
              b.(x := 0).(x := FromBigEndian(scalar) % w.order(b.curve)) == b
  {
    assert b.party in SetOf(names);
  }

  /** A detached blob is still a key only if the share was zero to begin with. */
  lemma DetachedRejected(w: Crypto, names: seq<string>, self: int, b: MpBlob)
    requires Proper(w) && Accepts(w, names, self, b)
    ensures Accepts(w, names, self, b.(x := 0)) <==> b.x == 0
  {
    assert Points(w, b.(x := 0), SetOf(names)) == Points(w, b, SetOf(names));
    assert b.party in SetOf(names);
  }
}
