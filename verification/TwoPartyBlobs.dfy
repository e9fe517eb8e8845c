/** The key blobs of two-party ECDSA (`ecdsa2pc.cpp`): what is accepted, and what detaching and
    attaching the private scalar does for the party with the Paillier private key (role 0) and for
    the other one (role 1).
 */
module TwoPartyBlobs {
  import opened Options
  import opened Wire
  import opened KeyBlobs
  import Errors
  import opened Arithmetic
  import B = Bits
  import F = Field

  datatype TwoBlob = TwoBlob(version: nat, role: nat, curve: nat, Q: Bytes, x: int, cKey: int, paillier: Paillier)

  datatype TwoKey = TwoKey(role: nat, curve: nat, x: int, cKey: int, paillier: Paillier, Q: nat)

  /** The Paillier material of a blob is well formed, and fits its role: the modulus is at least 2^2047. */
  ghost predicate PaillierOk(w: Crypto, b: TwoBlob)
  {
    && b.role <= 1 && CurveOk(b.curve) && (b.role == 0 <==> b.paillier.hasPrivate)
    && b.paillier.N >= B.Pow2(2047) && w.cipherOk(b.paillier, b.cKey)
  }

  /** A blob that is a key: the share is in Z_N, role 0 holds the plaintext of its ciphertext, and
      the public key is a point other than infinity. */
  ghost predicate TwoAccepts(w: Crypto, b: TwoBlob)
  {
    && b.version == VERSION_V1 && PaillierOk(w, b) && 0 <= b.x < b.paillier.N
    && (b.role == 0 ==> w.decrypt(b.paillier, b.cKey) == b.x)
    && w.decode(b.curve, b.Q).Point? && w.decode(b.curve, b.Q).log != 0
  }

  ghost function TwoKeyOf(w: Crypto, b: TwoBlob): TwoKey
    requires TwoAccepts(w, b)
  {
    TwoKey(b.role, b.curve, b.x, b.cKey, b.paillier, w.decode(b.curve, b.Q).log)
  }

  /** The check of the modulus by its number of bits. */
  method TooShort(N: nat) returns (short: bool)
    ensures short <==> N < B.Pow2(2047)
  {
    EnoughBits(N, PAILLIER_BITS);
    short := BitsCount(N) < PAILLIER_BITS;
  }

  /** deserialize_key_blob and blob_to_key. */
  method DeserializeTwo(w: Crypto, input: Input<TwoBlob>) returns (rv: int, key: Option<TwoKey>)
    requires Proper(w) && (input.Malformed? ==> input.rv != Errors.SUCCESS)
    ensures rv == Errors.SUCCESS <==> input.Blob? && TwoAccepts(w, input.blob)
    ensures key == if rv == Errors.SUCCESS then Some(TwoKeyOf(w, input.blob)) else None
  {
    key := None;
    if input.Malformed? { return input.rv, key; }
    var b := input.blob;
    if b.version != VERSION_V1 { return Errors.E_FORMAT, key; }
    if b.role > 1 { return Errors.E_FORMAT, key; }
    if b.curve != P256 && b.curve != SECP256K1 { return Errors.E_FORMAT, key; }
    if (b.role == 0) != b.paillier.hasPrivate { return Errors.E_FORMAT, key; }
    var N := b.paillier.N;
    var short := TooShort(N);
    if short { return Errors.E_FORMAT, key; }
    if !(0 <= b.x < N) { return Errors.E_FORMAT, key; }
    if !w.cipherOk(b.paillier, b.cKey) { return Errors.E_FORMAT, key; }
    RemainderUnique(b.x, 0, b.x, N);
    if b.paillier.hasPrivate && w.decrypt(b.paillier, b.cKey) != b.x % N { return Errors.E_FORMAT, key; }
    assert DecodesProperly(w, b.curve, b.Q);
    match w.decode(b.curve, b.Q)
    case BadPoint(e) => return e, key;
    case Point(Q) =>
      if Q == 0 { return Errors.E_FORMAT, key; }
      return Errors.SUCCESS, Some(TwoKey(b.role, b.curve, b.x, b.cKey, b.paillier, Q));
  }

  /** The blob with the scalar taken out: the share becomes N, and the point is encoded afresh. */
  ghost function Redacted(w: Crypto, b: TwoBlob): TwoBlob
    requires TwoAccepts(w, b)
  {
    b.(Q := w.encode(b.curve, w.decode(b.curve, b.Q).log), x := b.paillier.N)
  }

  /** detach_private_scalar. */
  method DetachTwo(w: Crypto, input: Input<TwoBlob>) returns (rv: int, detached: Option<TwoBlob>, scalar: Bytes)
    requires Proper(w) && (input.Malformed? ==> input.rv != Errors.SUCCESS)
    ensures rv == Errors.SUCCESS <==> input.Blob? && TwoAccepts(w, input.blob)
    ensures rv == Errors.SUCCESS ==>
            detached == Some(Redacted(w, input.blob))
            && FromBigEndian(scalar) == input.blob.x && HasBytes(input.blob.x, |scalar|)
    ensures rv != Errors.SUCCESS ==> detached == None && scalar == []
  {
    detached, scalar := None, [];
    var key;
    rv, key := DeserializeTwo(w, input);
    if rv != Errors.SUCCESS { return; }
    var k := key.value;
    scalar := BigEndian(k.x, BinSize(k.x));
    ScalarRoundTrip(k.x, k.x);
    SizeInBytes(k.x, |scalar|);
    detached := Some(TwoBlob(VERSION_V1, k.role, k.curve, w.encode(k.curve, k.Q), k.paillier.N, k.cKey, k.paillier));
  }

  /** A point other than infinity that the bytes decode to. */
  predicate IsPoint(w: Crypto, curve: nat, b: Bytes, log: nat)
  {
    w.decode(curve, b) == Point(log) && log != 0
  }

  /** What attaching demands: with the scalar in place and the key encoded afresh the blob is a key,
      and the caller's point belongs to the scalar. */
  ghost predicate FitsTwo(w: Crypto, d: TwoBlob, scalar: Bytes, pub: Bytes)
  {
    && scalar != [] && TwoAccepts(w, d.(x := FromBigEndian(scalar)))
    && w.order(d.curve) > 0 && IsPoint(w, d.curve, pub, FromBigEndian(scalar) % w.order(d.curve))
  }

  ghost function AttachedTwo(w: Crypto, d: TwoBlob, scalar: Bytes): TwoBlob
    requires w.decode(d.curve, d.Q).Point?
  {
    d.(Q := w.encode(d.curve, w.decode(d.curve, d.Q).log), x := FromBigEndian(scalar))
  }

  /** attach_private_scalar. */
  method AttachTwo(w: Crypto, input: Input<TwoBlob>, scalar: Bytes, pub: Bytes)
    returns (rv: int, out: Option<TwoBlob>)
    requires Proper(w) && (input.Malformed? ==> input.rv != Errors.SUCCESS)
    ensures rv == Errors.SUCCESS <==> input.Blob? && FitsTwo(w, input.blob, scalar, pub)
    ensures out == if rv == Errors.SUCCESS then Some(AttachedTwo(w, input.blob, scalar)) else None
  {
    out := None;
    if input.Malformed? { return input.rv, out; }
    var d := input.blob;
    if d.version != VERSION_V1 { return Errors.E_FORMAT, out; }
    if d.role > 1 { return Errors.E_FORMAT, out; }
    if d.curve != P256 && d.curve != SECP256K1 { return Errors.E_FORMAT, out; }
    if scalar == [] { return Errors.E_BADARG, out; }
    if pub == [] { assert DecodesProperly(w, d.curve, pub); return Errors.E_BADARG, out; }
    if (d.role == 0) != d.paillier.hasPrivate { return Errors.E_FORMAT, out; }
    var N := d.paillier.N;
    var short := TooShort(N);
    if short { return Errors.E_FORMAT, out; }
    if !w.cipherOk(d.paillier, d.cKey) { return Errors.E_FORMAT, out; }
    var x := FromBigEndian(scalar);
    if !(0 <= x < N) { return Errors.E_FORMAT, out; }
    RemainderUnique(x, 0, x, N);
    if d.paillier.hasPrivate && w.decrypt(d.paillier, d.cKey) != x % N { return Errors.E_FORMAT, out; }
    rv := CheckScalarPoint(w, d.curve, x, pub);
    if rv != Errors.SUCCESS { return; }
    assert DecodesProperly(w, d.curve, d.Q);
    match w.decode(d.curve, d.Q)
    case BadPoint(e) => return e, out;
    case Point(Q) =>
      if Q == 0 { return Errors.E_CRYPTO, out; }
      d := d.(Q := w.encode(d.curve, Q), x := x);
      return Errors.SUCCESS, Some(d);
  }

  /** The scalar, reduced, is the logarithm of the caller's point. */
  method CheckScalarPoint(w: Crypto, curve: nat, x: nat, pub: Bytes) returns (rv: int)
    requires Proper(w) && CurveOk(curve)
    ensures rv == Errors.SUCCESS <==> IsPoint(w, curve, pub, x % w.order(curve))
  {
    var own := x % w.order(curve);
    assert DecodesProperly(w, curve, pub);
    match w.decode(curve, pub)
    case BadPoint(e) => return e;
    case Point(p) =>
      if p == 0 { return Errors.E_CRYPTO; }
      if own != p { return Errors.E_FORMAT; }
      return Errors.SUCCESS;
  }

  // ---------------------------------------------------------------- the laws

  /** A detached blob is never a key. */
  lemma RedactedRejected(w: Crypto, b: TwoBlob)
    requires TwoAccepts(w, b)
    ensures !TwoAccepts(w, Redacted(w, b))
  {
  }

  /** The blob up to the encoding of its public key, which the code normalises. */
  ghost predicate SameKeyBlob(w: Crypto, a: TwoBlob, b: TwoBlob)
  {
    TwoAccepts(w, a) && TwoAccepts(w, b) && TwoKeyOf(w, a) == TwoKeyOf(w, b)
  }

  /** Everything attach lets through is a key again. */
  lemma AttachedAccepted(w: Crypto, d: TwoBlob, scalar: Bytes, pub: Bytes)
    requires Proper(w) && FitsTwo(w, d, scalar, pub)
    ensures TwoAccepts(w, AttachedTwo(w, d, scalar))
    ensures TwoKeyOf(w, AttachedTwo(w, d, scalar)) == TwoKeyOf(w, d.(x := FromBigEndian(scalar)))
  {
    assert DecodesProperly(w, d.curve, d.Q);
  }

  /** Role 0: the ciphertext binds the integer, so attaching restores the original key or fails. */
  lemma FirstPartyExact(w: Crypto, b: TwoBlob, scalar: Bytes, pub: Bytes)
    requires Proper(w) && TwoAccepts(w, b) && b.role == 0 && FitsTwo(w, Redacted(w, b), scalar, pub)
    ensures FromBigEndian(scalar) == b.x
    ensures SameKeyBlob(w, AttachedTwo(w, Redacted(w, b), scalar), b)
  {
    assert DecodesProperly(w, b.curve, b.Q);
    AttachedAccepted(w, Redacted(w, b), scalar, pub);
  }

  /** Role 1: only the caller's point binds the scalar, so with the original share point the share
      comes back modulo the group order, and the rest of the key exactly. */
  lemma SecondPartyCongruent(w: Crypto, b: TwoBlob, scalar: Bytes, pub: Bytes)
    requires Proper(w) && TwoAccepts(w, b) && FitsTwo(w, Redacted(w, b), scalar, pub)
    requires w.decode(b.curve, pub) == Point(b.x % w.order(b.curve))
    ensures F.Cong(FromBigEndian(scalar), b.x, w.order(b.curve))
    ensures SameKeyBlob(w, AttachedTwo(w, Redacted(w, b), scalar), b.(x := FromBigEndian(scalar)))
  {
    assert DecodesProperly(w, b.curve, b.Q);
    AttachedAccepted(w, Redacted(w, b), scalar, pub);
  }

  /** Role 1 is not bound to the integer: every congruent scalar in Z_N is attached just as well. */
  lemma SecondPartyShifts(w: Crypto, b: TwoBlob, scalar: Bytes, pub: Bytes)
    requires Proper(w) && TwoAccepts(w, b) && b.role == 1
    requires w.decode(b.curve, pub) == Point(b.x % w.order(b.curve))
    ensures FitsTwo(w, Redacted(w, b), scalar, pub) <==>
            && scalar != [] && FromBigEndian(scalar) < b.paillier.N
            && F.Cong(FromBigEndian(scalar), b.x, w.order(b.curve)) && b.x % w.order(b.curve) != 0
  {
    assert DecodesProperly(w, b.curve, b.Q);
  }

  /** Giving back the detached scalar with the share point works exactly when the share is not
      0 modulo the group order: infinity is refused, and a zero share is detached as no bytes. */
  lemma DetachThenAttach(w: Crypto, b: TwoBlob, scalar: Bytes, pub: Bytes)
    requires Proper(w) && TwoAccepts(w, b) && FromBigEndian(scalar) == b.x && (scalar == [] <==> b.x == 0)
    requires w.decode(b.curve, pub) == Point(b.x % w.order(b.curve))
    ensures FitsTwo(w, Redacted(w, b), scalar, pub) <==> b.x % w.order(b.curve) != 0
    ensures FitsTwo(w, Redacted(w, b), scalar, pub) ==>
              SameKeyBlob(w, AttachedTwo(w, Redacted(w, b), scalar), b)
  {
    assert DecodesProperly(w, b.curve, b.Q);
    if FitsTwo(w, Redacted(w, b), scalar, pub) {
      AttachedAccepted(w, Redacted(w, b), scalar, pub);
    }
  }
}
