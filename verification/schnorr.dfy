/** The Schnorr non-interactive zero-knowledge proof of `jpake/__init__.py`
    (`_zkp_hash`, `_zkp`, `_verify_zkp`), following section 2.3 of RFC 8235
    except for the challenge-hash input, which is kept exactly as the code
    builds it. SHA-1 is a parameter: any function from bytes to bytes. */
module Schnorr {
  import opened Results
  import opened Errors
  import opened ModArith
  import opened Bytes

  /** The group a session works in: modulus p, generator g, subgroup order q. */
  datatype Params = Params(p: int, g: int, q: int) {
    /** The published tiers have a prime p and a prime q; the arithmetic of
        the engine needs no more than a modulus above 1 and a positive order. */
    predicate Valid() {
      p > 1 && q > 0
    }

    /** g generates a subgroup whose order divides q. */
    predicate OrderHolds() {
      Valid() && ModPow(g, q, p) == 1
    }
  }

  /** The digest function (`hashlib.sha1(...).digest()`). */
  type Digest = Bytes -> Bytes

  /** A proof `{'gr': gr, 'b': b, 'id': id}`. */
  datatype Zkp = Zkp(gr: int, b: int, id: Bytes)

  /** A number the hash input can carry: `_to_bytes` accepts it and the
      2-byte length header can hold its length. */
  predicate Encodable(n: int) {
    n >= 0 && ByteLength(n) < 65536
  }

  /** `pascal(s)` as the code has it: the 2-byte big-endian length of s and
      nothing else, the payload being dropped. A length of exactly 2^16 passes
      the explicit guard but does not fit `to_bytes(2)`. */
  function Pascal(s: Bytes): (r: Result<Bytes, Error>)
    ensures r.Ok? <==> |s| < 65536
    ensures r.Ok? ==> |r.value| == 2 && FromBytes(r.value) == |s|
    ensures |s| > 65536 ==> r == Err(FieldTooLong)
    ensures |s| == 65536 ==> r == Err(Overflow)
  {
    assert Pow(256, 2) == 65536;
    if |s| > 65536 then Err(FieldTooLong) else IntToBytes(|s|, 2)
  }

  /** The byte string `_zkp_hash` feeds to the digest. */
  function HashInput(generator: int, gr: int, gx: int, id: Bytes): (r: Result<Bytes, Error>)
    ensures r.Ok? ==> |r.value| == 8
    ensures r.Err? ==> r.error == Overflow || r.error == FieldTooLong
  {
    var f1 :- ToBytes(generator);
    var h1 :- Pascal(f1);
    var f2 :- ToBytes(gr);
    var h2 :- Pascal(f2);
    var f3 :- ToBytes(gx);
    var h3 :- Pascal(f3);
    var h4 :- Pascal(id);
    Ok(h1 + h2 + h3 + h4)
  }

  /** The hash input is exactly eight bytes: the big-endian 2-byte lengths of
      the encodings of generator, gr and gx and of the signer id, in that
      order. It can be built exactly when every field is encodable; a
      negative number is an `OverflowError`, and the only other failure is
      a field too long for its length prefix. */
  lemma HashInputLayout(generator: int, gr: int, gx: int, id: Bytes)
    ensures var r := HashInput(generator, gr, gx, id);
      && (r.Ok? <==> Encodable(generator) && Encodable(gr) && Encodable(gx) && |id| < 65536)
      && (generator < 0 ==> r == Err(Overflow))
      && (r.Err? ==> r.error == Overflow || r.error == FieldTooLong)
      && (r.Ok? ==>
            && |r.value| == 8
            && FromBytes(r.value[0..2]) == ByteLength(generator)
            && FromBytes(r.value[2..4]) == ByteLength(gr)
            && FromBytes(r.value[4..6]) == ByteLength(gx)
            && FromBytes(r.value[6..8]) == |id|)
  {
    var r := HashInput(generator, gr, gx, id);
    if r.Ok? {
      var h1 := Pascal(ToBytes(generator).value).value;
      var h2 := Pascal(ToBytes(gr).value).value;
      var h3 := Pascal(ToBytes(gx).value).value;
      var h4 := Pascal(id).value;
      assert r.value == h1 + h2 + h3 + h4;
      assert r.value[0..2] == h1;
      assert r.value[2..4] == h2;
      assert r.value[4..6] == h3;
      assert r.value[6..8] == h4;
    }
  }

  /** `_zkp_hash`: the digest of the hash input read as a big-endian integer. */
  function Challenge(sha1: Digest, generator: int, gr: int, gx: int, id: Bytes): (r: Result<nat, Error>)
    ensures r.Ok? <==> Encodable(generator) && Encodable(gr) && Encodable(gx) && |id| < 65536
    ensures r.Err? ==> r.error == Overflow || r.error == FieldTooLong
  {
    HashInputLayout(generator, gr, gx, id);
    var s :- HashInput(generator, gr, gx, id);
    Ok(FromBytes(sha1(s)))
  }

  /** Since only lengths are hashed, the challenge is the same for any two
      field tuples whose encodings have the same lengths; in particular it does
      not depend on the value of gr. */
  lemma ChallengeSeesOnlyLengths(sha1: Digest, g1: int, gr1: int, gx1: int, id1: Bytes,
                                 g2: int, gr2: int, gx2: int, id2: Bytes)
    requires Encodable(g1) && Encodable(gr1) && Encodable(gx1)
    requires Encodable(g2) && Encodable(gr2) && Encodable(gx2)
    requires ByteLength(g1) == ByteLength(g2) && ByteLength(gr1) == ByteLength(gr2)
    requires ByteLength(gx1) == ByteLength(gx2) && |id1| == |id2|
    ensures Challenge(sha1, g1, gr1, gx1, id1) == Challenge(sha1, g2, gr2, gx2, id2)
  {
    assert ToBytes(g1).Ok? && ToBytes(g2).Ok?;
    assert Pascal(ToBytes(g1).value) == Pascal(ToBytes(g2).value);
    assert Pascal(ToBytes(gr1).value) == Pascal(ToBytes(gr2).value);
    assert Pascal(ToBytes(gx1).value) == Pascal(ToBytes(gx2).value);
    assert Pascal(id1) == Pascal(id2);
  }

  /** `_zkp(generator, exponent, gx)` for the prover `signerId`, with r the
      value `randrange(q)` draws. When gx is not given it is computed as
      `pow(generator, exponent, p)`. */
  function Prove(pr: Params, sha1: Digest, signerId: Bytes,
                 generator: int, exponent: int, gx: Option<int>, r: int): (res: Result<Zkp, Error>)
    requires pr.Valid() && 0 <= r < pr.q
    ensures res.Ok? ==> res.value.id == signerId
    ensures res.Ok? ==> res.value.gr == ModPow(generator, r, pr.p)
    ensures res.Ok? ==> 0 <= res.value.b < pr.q
    ensures res.Err? ==> res.error == NotInvertible || res.error == Overflow || res.error == FieldTooLong
    ensures gx.Some? ==>
      (res.Ok? <==> Encodable(generator) && Encodable(ModPow(generator, r, pr.p))
                    && Encodable(gx.value) && |signerId| < 65536)
  {
    var y :- if gx.Some? then Ok(gx.value) else PyPow(generator, exponent, pr.p);
    var gr := ModPow(generator, r, pr.p);
    HashInputLayout(generator, gr, y, signerId);
    var h :- Challenge(sha1, generator, gr, y, signerId);
    Ok(Zkp(gr, Response(r, exponent, h, pr.q), signerId))
  }

  /** The prover's response `(r - exponent*h) % q`; Python's `%` with a
      positive modulus is the non-negative remainder, as in Dafny. */
  function Response(r: int, exponent: int, h: int, q: int): (b: int)
    requires q > 0
    ensures 0 <= b < q
  {
    (r - exponent * h) % q
  }

  /** `_verify_zkp(generator, gx, zkp)` run by the party `verifierId`. */
  function Verify(pr: Params, sha1: Digest, verifierId: Bytes,
                  generator: int, gx: int, zkp: Zkp): (res: Result<(), Error>)
    requires pr.Valid()
    ensures zkp.id == verifierId ==> res == Err(DuplicateSigner)
    ensures res.Err? ==> res.error in {DuplicateSigner, InvalidProof, NotInvertible, Overflow, FieldTooLong}
    // acceptance needs a hashable challenge input
    ensures res.Ok? ==> zkp.id != verifierId && Challenge(sha1, generator, zkp.gr, gx, zkp.id).Ok?
  {
    if zkp.id == verifierId then Err(DuplicateSigner)
    else
      var h :- Challenge(sha1, generator, zkp.gr, gx, zkp.id);
      var gb :- PyPow(generator, zkp.b, pr.p);
      var y := ModPow(gx, h, pr.p);
      if zkp.gr != (gb * y) % pr.p then Err(InvalidProof) else Ok(())
  }

  /** What `_verify_zkp` decides: a proof carrying the verifier's own id is a
      `DuplicateSignerError` before any arithmetic; otherwise, once the
      challenge h is computed, the proof is accepted exactly when
      gr = generator^b * gx^h mod p, and rejected with `InvalidProofError`
      otherwise. */
  lemma VerifyDecides(pr: Params, sha1: Digest, verifierId: Bytes,
                      generator: int, gx: int, zkp: Zkp)
    requires pr.Valid()
    ensures zkp.id == verifierId ==> Verify(pr, sha1, verifierId, generator, gx, zkp) == Err(DuplicateSigner)
    ensures zkp.id != verifierId && zkp.b >= 0 && Challenge(sha1, generator, zkp.gr, gx, zkp.id).Ok? ==>
      var h := Challenge(sha1, generator, zkp.gr, gx, zkp.id).value;
      var accepted := zkp.gr == (ModPow(generator, zkp.b, pr.p) * ModPow(gx, h, pr.p)) % pr.p;
      Verify(pr, sha1, verifierId, generator, gx, zkp) == if accepted then Ok(()) else Err(InvalidProof)
    // for any b, negative ones included: generator^b is Python's pow, which
    // raises ValueError for a negative b when generator has no inverse mod p
    ensures zkp.id != verifierId && Challenge(sha1, generator, zkp.gr, gx, zkp.id).Ok? ==>
      var h := Challenge(sha1, generator, zkp.gr, gx, zkp.id).value;
      var gb := PyPow(generator, zkp.b, pr.p);
      Verify(pr, sha1, verifierId, generator, gx, zkp) ==
        if gb.Err? then Err(NotInvertible)
        else if zkp.gr == (gb.value * ModPow(gx, h, pr.p)) % pr.p then Ok(())
        else Err(InvalidProof)
    // an unhashable field fails before any arithmetic
    ensures zkp.id != verifierId && Challenge(sha1, generator, zkp.gr, gx, zkp.id).Err? ==>
      Verify(pr, sha1, verifierId, generator, gx, zkp) == Err(Challenge(sha1, generator, zkp.gr, gx, zkp.id).error)
  {
    if zkp.id != verifierId && zkp.b >= 0 {
      ModPowIsPow(generator, zkp.b, pr.p);
    }
  }

  /** For a challenge h and a random r in [0, q), the response
      b = (r - x*h) mod q satisfies b + x*h = r + q*k for some k >= 0. */
  lemma ResponseExponent(r: int, xh: nat, q: int) returns (k: nat)
    requires 0 <= r < q
    ensures (r - xh) % q + xh == r + q * k
  {
    var y := r - xh;
    var d := y / q;
    assert y == q * d + y % q;
    if d > 0 {
      MulAtLeast(q, d);
      assert false;
    }
    k := -d;
  }

  /** The Schnorr equation holds for the honest response: with
      b = (r - x*h) mod q, generator^b * (generator^x)^h = generator^r mod p
      when generator^q = 1 mod p. */
  lemma HonestResponse(generator: int, x: nat, r: int, h: nat, p: int, q: int)
    requires p > 1 && 0 <= r < q
    requires ModPow(generator, q, p) == 1
    ensures (ModPow(generator, Response(r, x, h, q), p) * ModPow(ModPow(generator, x, p), h, p)) % p
            == ModPow(generator, r, p)
  {
    var xh := x * h;
    var b := Response(r, x, h, q);
    assert b == (r - xh) % q;
    var k := ResponseExponent(r, xh, q);
    calc {
      (ModPow(generator, b, p) * ModPow(ModPow(generator, x, p), h, p)) % p;
      { ModPowMul(generator, x, h, p); }
      (ModPow(generator, b, p) * ModPow(generator, xh, p)) % p;
      { ModPowAdd(generator, b, xh, p); }
      ModPow(generator, b + xh, p);
      { assert b + xh == r + q * k; }
      ModPow(generator, r + q * k, p);
      { ExpShiftOrder(generator, q, r, k, p); }
      ModPow(generator, r, p);
    }
  }

  /** Completeness: an honestly generated proof of knowledge of x, for
      gx = generator^x mod p, is accepted by any verifier with a different
      signer id, provided generator^q = 1 mod p. */
  lemma Completeness(pr: Params, sha1: Digest, proverId: Bytes, verifierId: Bytes,
                     generator: int, x: nat, gx: Option<int>, r: int)
    requires pr.Valid() && 0 <= r < pr.q
    requires ModPow(generator, pr.q, pr.p) == 1
    requires gx.Some? ==> gx.value == ModPow(generator, x, pr.p)
    requires proverId != verifierId
    ensures var res := Prove(pr, sha1, proverId, generator, x, gx, r);
      res.Ok? ==> Verify(pr, sha1, verifierId, generator, ModPow(generator, x, pr.p), res.value) == Ok(())
  {
    var res := Prove(pr, sha1, proverId, generator, x, gx, r);
    if res.Ok? {
      var y := ModPow(generator, x, pr.p);
      assert PyPow(generator, x, pr.p) == Ok(y) by {
        ModPowIsPow(generator, x, pr.p);
      }
      var gr := ModPow(generator, r, pr.p);
      var y' := if gx.Some? then gx.value else PyPow(generator, x, pr.p).value;
      assert y' == y;
      var c := Challenge(sha1, generator, gr, y, proverId);
      assert c.Ok?;
      var h := c.value;
      assert res.value.b == Response(r, x, h, pr.q);
      HonestResponse(generator, x, r, h, pr.p, pr.q);
      VerifyDecides(pr, sha1, verifierId, generator, y, res.value);
    }
  }

  /** The challenge does not bind gr, so a proof can be made without knowing
      any exponent: fix b, take the challenge h for a guessed gr, and set
      gr := generator^b * gx^h mod p. Whenever that gr has the byte length
      of the guess, the verifier accepts. */
  lemma ForgeryWithoutExponent(pr: Params, sha1: Digest, forgerId: Bytes, verifierId: Bytes,
                               generator: int, gx: int, b: nat, guess: int)
    requires pr.Valid() && forgerId != verifierId
    requires Challenge(sha1, generator, guess, gx, forgerId).Ok?
    ensures var h := Challenge(sha1, generator, guess, gx, forgerId).value;
      var gr := (ModPow(generator, b, pr.p) * ModPow(gx, h, pr.p)) % pr.p;
      ByteLength(gr) == ByteLength(guess) ==>
        Verify(pr, sha1, verifierId, generator, gx, Zkp(gr, b, forgerId)) == Ok(())
  {
    var h := Challenge(sha1, generator, guess, gx, forgerId).value;
    var gr := (ModPow(generator, b, pr.p) * ModPow(gx, h, pr.p)) % pr.p;
    HashInputLayout(generator, guess, gx, forgerId);
    if ByteLength(gr) == ByteLength(guess) {
      HashInputLayout(generator, gr, gx, forgerId);
      ChallengeSeesOnlyLengths(sha1, generator, guess, gx, forgerId, generator, gr, gx, forgerId);
      VerifyDecides(pr, sha1, verifierId, generator, gx, Zkp(gr, b, forgerId));
    }
  }
}
