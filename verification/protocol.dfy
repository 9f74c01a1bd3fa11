/** Properties of whole J-PAKE runs: the constructor's resume path, the
    absence of sequencing, the algebra behind `A` and `K`, and agreement of
    two honest parties on `K`. */
module Protocol {
  import opened Results
  import opened Errors
  import opened ModArith
  import opened Bytes
  import opened Schnorr
  import opened Session

  /** Parameters under which no honest hash input can fail: g is a residue,
      its order divides q, and every residue fits the 2-byte length header. */
  predicate WellFormedGroup(pr: Params) {
    pr.OrderHolds() && 0 <= pr.g < pr.p && ByteLength(pr.p) < 65536
  }

  /** g^e mod p. */
  function G(pr: Params, e: nat): int
    requires pr.Valid()
  {
    ModPow(pr.g, e, pr.p)
  }

  lemma ResidueEncodable(pr: Params, n: int)
    requires WellFormedGroup(pr) && 0 <= n < pr.p
    ensures Encodable(n)
  {
    ByteLengthMonotone(n, pr.p);
  }

  // ---------------------------------------------------------------------------
  // Resume path and (absence of) sequencing.
  // ---------------------------------------------------------------------------

  /** Constructing with `gx3`, `gx4` and `B` gives the same result as
      constructing a fresh session and then calling `process_one` with the
      keyword values and `verify=False`, then `process_two(B=B)` with its
      default `verify=False`. */
  lemma ResumeMatchesSteps(pr: Params, sha1: Digest, id: SignerIdInput, x1: int, x2: int,
                           secret: SecretInput, r1: int, r2: int, gx3: int, gx4: int, b: int, r3: int)
    requires pr.Valid()
    requires id.DefaultId? ==> id.draw < 65536
    requires 0 <= r1 < pr.q && 0 <= r2 < pr.q && 0 <= r3 < pr.q
    ensures var resumed := New(pr, sha1, id, x1, x2, secret, r1, r2, Some(gx3), Some(gx4), Some(b), r3);
      match New(pr, sha1, id, x1, x2, secret, r1, r2, None, None, None, r3)
      case Err(e) => resumed == Err(e)
      case Ok(s0) =>
        match ProcessOne(s0, sha1, None, Some(gx3), Some(gx4), None, None, false, r3)
        case Err(e) => resumed == Err(e)
        case Ok(s1) => resumed == ProcessTwo(s1, sha1, None, Some(b), None, false)
  {
  }

  /** `process_one` enforces no order: running it again with the same inputs
      and draw yields the same session as running it once. */
  lemma ProcessOneIdempotent(s: Session, sha1: Digest, data: Option<Round1>,
                             gx3: Option<int>, gx4: Option<int>, zkpX3: Option<Zkp>, zkpX4: Option<Zkp>,
                             verify: bool, r: int)
    requires s.params.Valid() && 0 <= r < s.params.q
    ensures var once := ProcessOne(s, sha1, data, gx3, gx4, zkpX3, zkpX4, verify, r);
      once.Ok? ==> ProcessOne(once.value, sha1, data, gx3, gx4, zkpX3, zkpX4, verify, r) == once
  {
  }

  /** `process_two` enforces no order either: a second call with the same
      message overwrites `K` with the same value. */
  lemma ProcessTwoIdempotent(s: Session, sha1: Digest, data: Option<Round2>,
                             b: Option<int>, zkpB: Option<Zkp>, verify: bool)
    requires s.params.Valid()
    ensures var once := ProcessTwo(s, sha1, data, b, zkpB, verify);
      once.Ok? ==> ProcessTwo(once.value, sha1, data, b, zkpB, verify) == once
  {
  }

  /** Verification in `process_two` only adds ways to fail: when the peer's
      proof is accepted against g^x1 * g^x2 * g^x3, the call with
      `verify=True` has the same outcome as the call without it. */
  lemma VerifiedTwoMatchesUnverified(s: Session, sha1: Digest, msg: Round2)
    requires s.params.Valid() && s.round1.Some?
    requires Verify(s.params, sha1, s.signerId, RoundTwoGenerator(s), msg.a, msg.zkpA) == Ok(())
    ensures ProcessTwo(s, sha1, Some(msg), None, None, true) == ProcessTwo(s, sha1, Some(msg), None, None, false)
  {
    VerifyDecides(s.params, sha1, s.signerId, RoundTwoGenerator(s), msg.a, msg.zkpA);
  }

  /** Two sessions whose signer ids were both defaulted get the same id
      exactly when their 16-bit draws coincide, since `bytes(n)` is n zero
      bytes. */
  lemma DefaultIdsCollide(n: nat, m: nat)
    ensures SignerId(DefaultId(n)) == SignerId(DefaultId(m)) <==> n == m
  {
    if n == m {
      assert SignerId(DefaultId(n)) == SignerId(DefaultId(m));
    }
  }

  /** A party that processes its own round-one message (or any message whose
      first proof carries its own id) with verification is refused with
      `DuplicateSignerError`, unless the gx4 check already refused it. */
  lemma OwnMessageRejected(s: Session, sha1: Digest, r: int)
    requires s.params.Valid() && 0 <= r < s.params.q
    requires s.zkpX1.id == s.signerId
    ensures var res := ProcessOne(s, sha1, Some(One(s)), None, None, None, None, true, r);
      res == Err(if s.gx2 % s.params.p == 1 then DegenerateGx4 else DuplicateSigner)
  {
  }

  // ---------------------------------------------------------------------------
  // Algebra of the round-two values.
  // ---------------------------------------------------------------------------

  /** Multiplying residues g^e1 and g^e2 adds the exponents. */
  lemma GMul(pr: Params, e1: nat, e2: nat)
    requires pr.Valid()
    ensures (G(pr, e1) * G(pr, e2)) % pr.p == G(pr, e1 + e2)
  {
    ModPowAdd(pr.g, e1, e2, pr.p);
  }

  /** Raising g^e1 to e2 multiplies the exponents. */
  lemma GPow(pr: Params, e1: nat, e2: nat)
    requires pr.Valid()
    ensures ModPow(G(pr, e1), e2, pr.p) == G(pr, e1 * e2)
  {
    ModPowMul(pr.g, e1, e2, pr.p);
  }

  /** The generator of the round-two proof as both sides see it:
      g^x1 * g^x2 * g^x3 = g^(x1+x2+x3). */
  lemma ThreeProduct(pr: Params, e1: nat, e2: nat, e3: nat)
    requires pr.Valid()
    ensures ((G(pr, e1) * G(pr, e2)) % pr.p * G(pr, e3)) % pr.p == G(pr, e1 + e2 + e3)
  {
    GMul(pr, e1, e2);
    GMul(pr, e1 + e2, e3);
  }

  /** The factor `bottom = gx4^(x2*(q - s))` of `process_two` is the inverse
      of g^(x4*x2*s): their product is 1 modulo p. Here d = x2*(q - s) and
      e = x4*x2*s. */
  lemma BottomCancels(pr: Params, x2: nat, x4: nat, sec: nat, d: nat, e: nat)
    requires pr.OrderHolds() && sec <= pr.q
    requires d == x2 * (pr.q - sec) && e == x4 * x2 * sec
    ensures (ModPow(G(pr, x4), d, pr.p) * G(pr, e)) % pr.p == 1
  {
    var k: nat := x4 * x2;
    ProductNonNegative(x4, d);
    var e1: nat := x4 * d;
    assert e1 + e == pr.q * k by {
      SplitOrder(x2, x4, sec, pr.q);
    }
    calc {
      (ModPow(G(pr, x4), d, pr.p) * G(pr, e)) % pr.p;
      { GPow(pr, x4, d); }
      (G(pr, e1) * G(pr, e)) % pr.p;
      { GMul(pr, e1, e); }
      G(pr, pr.q * k);
      { OrderMultiple(pr.g, pr.q, k, pr.p); }
      1;
    }
  }

  lemma SplitOrder(x2: nat, x4: nat, sec: nat, q: nat)
    requires sec <= q
    ensures x4 * (x2 * (q - sec)) + x4 * x2 * sec == q * (x4 * x2)
  {
    var d := q - sec;
    assert x4 * (x2 * d) + x4 * x2 * sec == x4 * x2 * (d + sec);
  }

  /** The exponent each party's `K` ends with, before reduction modulo q. */
  lemma KeyExponent(x1: nat, x2: nat, x3: nat, x4: nat, sec: nat, q: nat)
    requires sec <= q
    ensures ((x3 + x1 + x2) * (x4 * sec) + x4 * (x2 * (q - sec))) * x2
            == (x1 + x3) * x2 * x4 * sec + q * (x4 * x2 * x2)
  {
    var d := q - sec;
    var u := x4 * sec;
    var w := x4 * x2;
    // the peer's share x2 of the generator meets the bottom factor
    assert (x3 + x1 + x2) * u == (x3 + x1) * u + x2 * u;
    assert x2 * u + x4 * (x2 * d) == w * q by {
      assert x2 * u == w * sec;
      assert x4 * (x2 * d) == w * d;
      assert w * sec + w * d == w * (sec + d);
    }
    // what is left is the agreed exponent plus a multiple of q
    MulDistributes((x3 + x1) * u, w * q, x2);
    assert (x3 + x1) * u * x2 == (x1 + x3) * x2 * x4 * sec by {
      assert (x3 + x1) * u * x2 == (x1 + x3) * (u * x2);
      assert u * x2 == x2 * x4 * sec;
    }
    MulRotate(w, q, x2);
  }
}
