/** Honest runs: two parties that share a secret and use different signer
    ids, exchanging `one()` and then `two()` as in jpake/tests/__init__.py,
    both succeed at every step and end with the same `K`. */
module Agreement {
  import opened Results
  import opened ModArith
  import opened Bytes
  import opened Schnorr
  import opened Session
  import opened Protocol

  /** A fresh honest session: construction succeeds, the round-one values are
      g^x1 and g^x2, and both proofs convince any party with another id. */
  lemma NewHonest(pr: Params, sha1: Digest, id: Bytes, x1: nat, x2: nat, secret: SecretInput,
                  r1: int, r2: int, otherId: Bytes)
    requires WellFormedGroup(pr) && |id| < 65536 && id != otherId
    requires 0 <= r1 < pr.q && 0 <= r2 < pr.q
    ensures var res := New(pr, sha1, GivenId(id), x1, x2, secret, r1, r2, None, None, None, 0);
      && res.Ok?
      && res.value.signerId == id && res.value.x1 == x1 && res.value.x2 == x2
      && res.value.secret == SecretValue(secret)
      && res.value.gx1 == G(pr, x1) && res.value.gx2 == G(pr, x2)
      && res.value.round1.None?
      && Verify(pr, sha1, otherId, pr.g, res.value.gx1, res.value.zkpX1) == Ok(())
      && Verify(pr, sha1, otherId, pr.g, res.value.gx2, res.value.zkpX2) == Ok(())
  {
    var p, g := pr.p, pr.g;
    PyPowNonNegative(g, x1, p);
    PyPowNonNegative(g, x2, p);
    ResidueEncodable(pr, g);
    ResidueEncodable(pr, G(pr, x1));
    ResidueEncodable(pr, G(pr, x2));
    ResidueEncodable(pr, ModPow(g, r1, p));
    ResidueEncodable(pr, ModPow(g, r2, p));
    Completeness(pr, sha1, id, otherId, g, x1, Some(G(pr, x1)), r1);
    Completeness(pr, sha1, id, otherId, g, x2, Some(G(pr, x2)), r2);
  }

  /** An honest `process_one`: given the peer's round-one values g^x3 and
      g^x4 (g^x4 != 1) with proofs this party accepts, it succeeds, stores
      them, and sets A = g^((x1+x3+x4) * x2*s) with a proof any other party
      accepts against the generator g^(x1+x3+x4). Here e = x1+x3+x4 and
      t2 = x2*s. */
  lemma ProcessOneHonest(s: Session, sha1: Digest, peer: Round1, verify: bool, r: int,
                         x1: nat, x2: nat, x3: nat, x4: nat, e: nat, sec: nat, t2: nat, eA: nat, otherId: Bytes)
    requires WellFormedGroup(s.params) && 0 <= r < s.params.q
    requires s.gx1 == G(s.params, x1) && s.x2 == x2 && s.secret == Some(sec)
    requires t2 == x2 * sec && t2 < s.params.p && e == x1 + x3 + x4 && eA == e * t2
    requires |s.signerId| < 65536 && otherId != s.signerId
    requires peer.gx1 == G(s.params, x3) && peer.gx2 == G(s.params, x4) && G(s.params, x4) != 1
    requires verify ==>
      Verify(s.params, sha1, s.signerId, s.params.g, peer.gx1, peer.zkpX1) == Ok(()) &&
      Verify(s.params, sha1, s.signerId, s.params.g, peer.gx2, peer.zkpX2) == Ok(())
    ensures var res := ProcessOne(s, sha1, Some(peer), None, None, None, None, verify, r);
      && res.Ok?
      && res.value.round1.value.gx3 == peer.gx1
      && res.value.round1.value.gx4 == peer.gx2
      && res.value.round1.value.a == G(s.params, eA)
      && Verify(s.params, sha1, otherId, G(s.params, e),
                res.value.round1.value.a, res.value.round1.value.zkpA) == Ok(())
  {
    var pr := s.params;
    var p := pr.p;
    assert peer.gx1 % p == peer.gx1 && peer.gx2 % p == peer.gx2 by {
      ModSmall(peer.gx1, p);
      ModSmall(peer.gx2, p);
    }
    var t1 := ((s.gx1 * peer.gx1) % p * peer.gx2) % p;
    assert t1 == G(pr, e) by {
      ThreeProduct(pr, x1, x3, x4);
    }
    assert (s.x2 * sec) % p == t2 by {
      ModSmall(t2, p);
    }
    var a := ModPow(t1, t2, p);
    assert a == G(pr, eA) by {
      GPow(pr, e, t2);
    }
    ResidueEncodable(pr, t1);
    ResidueEncodable(pr, a);
    ResidueEncodable(pr, ModPow(t1, r, p));
    var zkpA := Prove(pr, sha1, s.signerId, t1, t2, Some(a), r);
    assert zkpA.Ok?;
    assert ProcessOne(s, sha1, Some(peer), None, None, None, None, verify, r)
        == Ok(s.(round1 := Some(PeerRound1(peer.gx1, peer.gx2, a, zkpA.value))));
    PowerKeepsOrder(pr.g, pr.q, e, p);
    Completeness(pr, sha1, s.signerId, otherId, t1, t2, Some(a), r);
  }

  /** An honest `process_two`: with round one stored as g^x3, g^x4, and the
      peer's value B = g^eB proved against g^e, e = x1+x2+x3, it succeeds
      and sets K = g^eK where eK = (eB + x4*x2*(q - s)) * x2. */
  lemma ProcessTwoHonest(pr: Params, s: Session, sha1: Digest, msg: Round2, verify: bool,
                         x1: nat, x2: nat, x3: nat, x4: nat, sec: nat, e: nat, eB: nat, eK: nat)
    requires WellFormedGroup(pr) && s.params == pr && e == x1 + x2 + x3
    requires s.x2 == x2 && s.gx1 == G(pr, x1) && s.gx2 == G(pr, x2)
    requires s.secret == Some(sec) && sec <= pr.q
    requires s.round1.Some? && s.round1.value.gx3 == G(pr, x3) && s.round1.value.gx4 == G(pr, x4)
    requires msg.a == G(pr, eB)
    requires verify ==> Verify(pr, sha1, s.signerId, G(pr, e), msg.a, msg.zkpA) == Ok(())
    requires eK == (eB + x4 * (x2 * (pr.q - sec))) * x2
    ensures ProcessTwo(s, sha1, Some(msg), None, None, verify) == Ok(s.(k := Some(G(pr, eK))))
  {
    HonestUnverifiedTwo(pr, s, sha1, msg, x2, x4, sec, eB, eK);
    HonestGenerator(pr, s, x1, x2, x3, e);
    EitherWay(s, sha1, msg, verify, s.(k := Some(G(pr, eK))));
  }

  /** The generator `process_two` checks B's proof against, for round-one
      values g^x1, g^x2 and g^x3. */
  lemma HonestGenerator(pr: Params, s: Session, x1: nat, x2: nat, x3: nat, e: nat)
    requires pr.Valid() && s.params == pr && e == x1 + x2 + x3
    requires s.gx1 == G(pr, x1) && s.gx2 == G(pr, x2)
    requires s.round1.Some? && s.round1.value.gx3 == G(pr, x3)
    ensures RoundTwoGenerator(s) == G(pr, e)
  {
    ThreeProduct(pr, x1, x2, x3);
  }

  /** `process_two(data, verify=False)` of an honest run sets K = g^eK. */
  lemma HonestUnverifiedTwo(pr: Params, s: Session, sha1: Digest, msg: Round2,
                            x2: nat, x4: nat, sec: nat, eB: nat, eK: nat)
    requires pr.Valid() && s.params == pr && s.x2 == x2 && s.secret == Some(sec) && sec <= pr.q
    requires s.round1.Some? && s.round1.value.gx4 == G(pr, x4)
    requires msg.a == G(pr, eB)
    requires eK == (eB + x4 * (x2 * (pr.q - sec))) * x2
    ensures ProcessTwo(s, sha1, Some(msg), None, None, false) == Ok(s.(k := Some(G(pr, eK))))
  {
    var bottom := RoundTwoKey(pr, s.round1.value.gx4, msg.a, x2, x4, sec, eB, eK);
    UnverifiedTwo(s, sha1, msg, bottom, G(pr, eK));
  }

  /** `process_two` with a proof it accepts ends as it does without `verify`.
      This is `Protocol.VerifiedTwoMatchesUnverified` with the `verify` flag
      as a variable; it keeps `ProcessTwo`'s unfolding out of the larger
      context of `ProcessTwoHonest`, where the solver would otherwise need
      several times the resources. */
  lemma EitherWay(s: Session, sha1: Digest, msg: Round2, verify: bool, after: Session)
    requires s.params.Valid() && s.round1.Some?
    requires ProcessTwo(s, sha1, Some(msg), None, None, false) == Ok(after)
    requires verify ==> Verify(s.params, sha1, s.signerId, RoundTwoGenerator(s), msg.a, msg.zkpA) == Ok(())
    ensures ProcessTwo(s, sha1, Some(msg), None, None, verify) == Ok(after)
  {
    if verify {
      VerifiedTwoMatchesUnverified(s, sha1, msg);
    }
  }

  /** `process_two(verify=False)` once its two `pow` calls are known, for
      any x2 and secret (negative ones take `pow`'s inverse path), and alike
      whether B comes in the round-two message or as the keyword `B=`. */
  lemma UnverifiedTwo(s: Session, sha1: Digest, msg: Round2, bottom: int, key: int)
    requires s.params.Valid() && s.round1.Some? && s.secret.Some?
    requires PyPow(s.round1.value.gx4, s.x2 * (s.params.q - s.secret.value), s.params.p) == Ok(bottom)
    requires PyPow((msg.a * bottom) % s.params.p, s.x2, s.params.p) == Ok(key)
    ensures ProcessTwo(s, sha1, Some(msg), None, None, false) == Ok(s.(k := Some(key)))
    ensures ProcessTwo(s, sha1, None, Some(msg.a), None, false) == Ok(s.(k := Some(key)))
  {
  }

  /** The key computation of `process_two` for gx4 = g^x4 and B = g^eB:
      `bottom = pow(gx4, x2*(q - s), p)` is g^(x4*x2*(q - s)) and
      `pow(B * bottom % p, x2, p)` is g^eK, eK = (eB + x4*x2*(q - s)) * x2. */
  lemma RoundTwoKey(pr: Params, gx4: int, b: int, x2: nat, x4: nat, sec: nat, eB: nat, eK: nat)
    returns (bottom: int)
    requires pr.Valid() && sec <= pr.q && gx4 == G(pr, x4) && b == G(pr, eB)
    requires eK == (eB + x4 * (x2 * (pr.q - sec))) * x2
    ensures PyPow(gx4, x2 * (pr.q - sec), pr.p) == Ok(bottom)
    ensures PyPow((b * bottom) % pr.p, x2, pr.p) == Ok(G(pr, eK))
  {
    var eBottom := BottomFactor(pr, x2, x4, sec);
    bottom := G(pr, eBottom);
    var inner := (b * bottom) % pr.p;
    assert inner == G(pr, eB + eBottom) by {
      GMul(pr, eB, eBottom);
    }
    PyPowNonNegative(inner, x2, pr.p);
    GPow(pr, eB + eBottom, x2);
  }

  /** `bottom = pow(gx4, x2*(q - s), p)` for gx4 = g^x4 is g^(x4*x2*(q - s)). */
  lemma BottomFactor(pr: Params, x2: nat, x4: nat, sec: nat) returns (eBottom: nat)
    requires pr.Valid() && sec <= pr.q
    ensures eBottom == x4 * (x2 * (pr.q - sec))
    ensures PyPow(G(pr, x4), x2 * (pr.q - sec), pr.p) == Ok(G(pr, eBottom))
  {
    var d: nat := x2 * (pr.q - sec);
    eBottom := x4 * d;
    PyPowNonNegative(G(pr, x4), d, pr.p);
    GPow(pr, x4, d);
  }

  /** `ModArith.ExpShiftOrder` stated for `G`: this lemma puts that instance in
      scope of `HonestKey` without unfolding `G` into its nonlinear context. */
  lemma ShiftedExponent(pr: Params, e: nat, c: nat, k: nat)
    requires pr.OrderHolds() && e == c + pr.q * k
    ensures G(pr, e) == G(pr, c)
  {
    ExpShiftOrder(pr.g, pr.q, c, k, pr.p);
  }

  /** Each party's K collapses to g^((x1+x3)*x2*x4*s): the exponent eK of
      `ProcessTwoHonest` differs from that by a multiple of q. */
  lemma HonestKey(pr: Params, x1: nat, x2: nat, x3: nat, x4: nat, sec: nat, eB: nat, eK: nat, c: nat)
    requires pr.OrderHolds() && sec <= pr.q
    requires eB == (x3 + x1 + x2) * (x4 * sec) && eK == (eB + x4 * (x2 * (pr.q - sec))) * x2
    requires c == (x1 + x3) * x2 * x4 * sec
    ensures G(pr, eK) == G(pr, c)
  {
    var k: nat := x4 * x2 * x2;
    assert eK == c + pr.q * k by {
      KeyExponent(x1, x2, x3, x4, sec, pr.q);
    }
    ShiftedExponent(pr, eK, c, k);
  }

  /** A session that belongs to the party with exponents x1, x2, secret s
      and signer id `id`. */
  predicate Party(s: Session, pr: Params, id: Bytes, x1: nat, x2: nat, sec: nat)
    requires pr.Valid()
  {
    && s.params == pr && s.signerId == id && s.x2 == x2 && s.secret == Some(sec)
    && s.gx1 == G(pr, x1) && s.gx2 == G(pr, x2)
  }

  /** The state after construction: a party's session whose two round-one
      proofs the peer `otherId` accepts. */
  predicate Constructed(pr: Params, sha1: Digest, s: Session, id: Bytes, otherId: Bytes,
                        x1: nat, x2: nat, sec: nat)
    requires pr.Valid()
  {
    && Party(s, pr, id, x1, x2, sec)
    && Verify(pr, sha1, otherId, pr.g, s.gx1, s.zkpX1) == Ok(())
    && Verify(pr, sha1, otherId, pr.g, s.gx2, s.zkpX2) == Ok(())
  }

  /** The state after round one: the peer's g^y1 and g^y2 are stored, and
      A = g^eA carries a proof the peer accepts against g^e. */
  predicate RoundOneDone(pr: Params, sha1: Digest, s: Session, id: Bytes, otherId: Bytes,
                         x1: nat, x2: nat, y1: nat, y2: nat, sec: nat, e: nat, eA: nat)
    requires pr.Valid()
  {
    && Party(s, pr, id, x1, x2, sec)
    && s.round1.Some? && s.round1.value.gx3 == G(pr, y1) && s.round1.value.gx4 == G(pr, y2)
    && s.round1.value.a == G(pr, eA)
    && Verify(pr, sha1, otherId, G(pr, e), s.round1.value.a, s.round1.value.zkpA) == Ok(())
  }

  /** The exponents of an honest run: each side's x2*s (tA, tB), the
      exponents of the generators it proves A and B against (gA, gB) and of
      A and B themselves (eA, eB), each side's raw K exponent (kA, kB), and
      the common reduced exponent c. */
  predicate RunExponents(a1: nat, a2: nat, b1: nat, b2: nat, sec: nat, q: nat, p: int,
                         tA: nat, tB: nat, gA: nat, gB: nat, eA: nat, eB: nat, kA: nat, kB: nat, c: nat)
  {
    && sec <= q
    && tA == a2 * sec && tB == b2 * sec && tA < p && tB < p
    && gA == a1 + b1 + b2 && gB == b1 + a1 + a2
    && eA == gA * tA && eB == gB * tB
    && eA == (a1 + b1 + b2) * (a2 * sec) && eB == (b1 + a1 + a2) * (b2 * sec)
    && kA == (eB + b2 * (a2 * (q - sec))) * a2
    && kB == (eA + a2 * (b2 * (q - sec))) * b2
    && c == (a1 + b1) * a2 * b2 * sec && c == (b1 + a1) * b2 * a2 * sec
  }

  /** Every honest run with x2*s below p on both sides has its exponents. */
  lemma ComputeExponents(a1: nat, a2: nat, b1: nat, b2: nat, sec: nat, q: nat, p: int)
    returns (tA: nat, tB: nat, gA: nat, gB: nat, eA: nat, eB: nat, kA: nat, kB: nat, c: nat)
    requires sec <= q && a2 * sec < p && b2 * sec < p
    ensures RunExponents(a1, a2, b1, b2, sec, q, p, tA, tB, gA, gB, eA, eB, kA, kB, c)
  {
    ProductNonNegative(a2, sec);
    ProductNonNegative(b2, sec);
    tA, tB := a2 * sec, b2 * sec;
    gA, gB := a1 + b1 + b2, b1 + a1 + a2;
    ProductNonNegative(gA, tA);
    ProductNonNegative(gB, tB);
    eA, eB := gA * tA, gB * tB;
    ProductNonNegative(a2, q - sec);
    ProductNonNegative(b2, q - sec);
    kA := (eB + b2 * (a2 * (q - sec))) * a2;
    kB := (eA + a2 * (b2 * (q - sec))) * b2;
    c := (a1 + b1) * a2 * b2 * sec;
    KeySymmetry(a1 + b1, a2, b2, sec);
  }

  /** The reduced key exponent does not depend on which side computes it.
      The solver proves this alone; the lemma hands it the one instance
      `ComputeExponents` needs. */
  lemma KeySymmetry(u: int, x: int, y: int, s: int)
    ensures u * x * y * s == u * y * x * s
  {
    assert x * y == y * x;
    assert u * x * y == u * (x * y);
    assert u * y * x == u * (y * x);
  }

  /** Construction of an honest party, as a session value. */
  lemma HonestNew(pr: Params, sha1: Digest, id: Bytes, otherId: Bytes, x1: nat, x2: nat,
                  secret: SecretInput, sec: nat, r1: int, r2: int)
    returns (s: Session)
    requires WellFormedGroup(pr) && |id| < 65536 && id != otherId
    requires SecretValue(secret) == Some(sec)
    requires 0 <= r1 < pr.q && 0 <= r2 < pr.q
    ensures New(pr, sha1, GivenId(id), x1, x2, secret, r1, r2, None, None, None, 0) == Ok(s)
    ensures Constructed(pr, sha1, s, id, otherId, x1, x2, sec)
  {
    NewHonest(pr, sha1, id, x1, x2, secret, r1, r2, otherId);
    s := New(pr, sha1, GivenId(id), x1, x2, secret, r1, r2, None, None, None, 0).value;
  }

  /** Round one of an honest run, for one side: a party with exponents x1,
      x2 processes, with verification, the `one()` of a peer with exponents
      y1, y2; it succeeds, stores g^y1 and g^y2 and sets
      A = g^((x1+y1+y2) * x2*s) with a proof the peer accepts. */
  lemma HonestRoundOne(pr: Params, sha1: Digest, me: Session, peer: Session, id: Bytes, otherId: Bytes,
                       x1: nat, x2: nat, y1: nat, y2: nat, sec: nat, t: nat, e: nat, eA: nat, r: int)
    returns (me1: Session)
    requires WellFormedGroup(pr) && |id| < 65536 && id != otherId
    requires t == x2 * sec && t < pr.p && e == x1 + y1 + y2 && eA == e * t
    requires G(pr, y2) != 1 && 0 <= r < pr.q
    requires Constructed(pr, sha1, me, id, otherId, x1, x2, sec)
    requires Constructed(pr, sha1, peer, otherId, id, y1, y2, sec)
    ensures ProcessOne(me, sha1, Some(One(peer)), None, None, None, None, true, r) == Ok(me1)
    ensures RoundOneDone(pr, sha1, me1, id, otherId, x1, x2, y1, y2, sec, e, eA)
  {
    ProcessOneHonest(me, sha1, One(peer), true, r, x1, x2, y1, y2, e, sec, t, eA, otherId);
    me1 := ProcessOne(me, sha1, Some(One(peer)), None, None, None, None, true, r).value;
  }

  /** Round two of an honest run, for one side: the party processes the
      peer's `two()` and its K is g^((x1+y1)*x2*y2*s), a value symmetric in
      the two parties. */
  lemma HonestRoundTwo(pr: Params, sha1: Digest, me1: Session, peer1: Session, id: Bytes, otherId: Bytes,
                       x1: nat, x2: nat, y1: nat, y2: nat, sec: nat, e: nat, eA: nat, eP: nat, eB: nat,
                       k: nat, c: nat, verify: bool)
    returns (me2: Session)
    requires WellFormedGroup(pr) && sec <= pr.q
    requires eP == y1 + x1 + x2 && eB == (y1 + x1 + x2) * (y2 * sec)
    requires k == (eB + y2 * (x2 * (pr.q - sec))) * x2 && c == (x1 + y1) * x2 * y2 * sec
    requires RoundOneDone(pr, sha1, me1, id, otherId, x1, x2, y1, y2, sec, e, eA)
    requires RoundOneDone(pr, sha1, peer1, otherId, id, y1, y2, x1, x2, sec, eP, eB)
    ensures Two(peer1).Ok?
    ensures ProcessTwo(me1, sha1, Some(Two(peer1).value), None, None, verify) == Ok(me2)
    ensures me2.k == Some(G(pr, c))
  {
    ProcessTwoHonest(pr, me1, sha1, Two(peer1).value, verify, x1, x2, y1, y2, sec, eP, eB, k);
    assert G(pr, k) == G(pr, c) by {
      HonestKey(pr, x1, x2, y1, y2, sec, eB, k, c);
    }
    me2 := me1.(k := Some(G(pr, k)));
  }

  /** Both parties construct their sessions and process each other's
      `one()` with verification. */
  lemma HonestRoundsOne(pr: Params, sha1: Digest, idA: Bytes, idB: Bytes,
                        a1: nat, a2: nat, b1: nat, b2: nat, secret: SecretInput, sec: nat,
                        tA: nat, tB: nat, gA: nat, gB: nat, eA: nat, eB: nat, kA: nat, kB: nat, c: nat,
                        rA1: int, rA2: int, rA3: int, rB1: int, rB2: int, rB3: int)
    returns (alice: Session, bob: Session, alice1: Session, bob1: Session)
    requires WellFormedGroup(pr)
    requires |idA| < 65536 && |idB| < 65536 && idA != idB
    requires SecretValue(secret) == Some(sec)
    requires RunExponents(a1, a2, b1, b2, sec, pr.q, pr.p, tA, tB, gA, gB, eA, eB, kA, kB, c)
    requires G(pr, a2) != 1 && G(pr, b2) != 1
    requires 0 <= rA1 < pr.q && 0 <= rA2 < pr.q && 0 <= rA3 < pr.q
    requires 0 <= rB1 < pr.q && 0 <= rB2 < pr.q && 0 <= rB3 < pr.q
    ensures New(pr, sha1, GivenId(idA), a1, a2, secret, rA1, rA2, None, None, None, 0) == Ok(alice)
    ensures New(pr, sha1, GivenId(idB), b1, b2, secret, rB1, rB2, None, None, None, 0) == Ok(bob)
    ensures alice.params == pr && bob.params == pr
    ensures ProcessOne(alice, sha1, Some(One(bob)), None, None, None, None, true, rA3) == Ok(alice1)
    ensures ProcessOne(bob, sha1, Some(One(alice)), None, None, None, None, true, rB3) == Ok(bob1)
    ensures RoundOneDone(pr, sha1, alice1, idA, idB, a1, a2, b1, b2, sec, gA, eA)
    ensures RoundOneDone(pr, sha1, bob1, idB, idA, b1, b2, a1, a2, sec, gB, eB)
  {
    alice := HonestNew(pr, sha1, idA, idB, a1, a2, secret, sec, rA1, rA2);
    bob := HonestNew(pr, sha1, idB, idA, b1, b2, secret, sec, rB1, rB2);
    alice1 := HonestRoundOne(pr, sha1, alice, bob, idA, idB, a1, a2, b1, b2, sec, tA, gA, eA, rA3);
    bob1 := HonestRoundOne(pr, sha1, bob, alice, idB, idA, b1, b2, a1, a2, sec, tB, gB, eB, rB3);
  }

  /** Both parties process each other's `two()` after an honest round one;
      both succeed and end with the same K. */
  lemma HonestRoundsTwo(pr: Params, sha1: Digest, idA: Bytes, idB: Bytes,
                        a1: nat, a2: nat, b1: nat, b2: nat, sec: nat,
                        tA: nat, tB: nat, gA: nat, gB: nat, eA: nat, eB: nat, kA: nat, kB: nat, c: nat,
                        alice1: Session, bob1: Session, verify: bool)
    returns (alice2: Session, bob2: Session)
    requires WellFormedGroup(pr)
    requires RunExponents(a1, a2, b1, b2, sec, pr.q, pr.p, tA, tB, gA, gB, eA, eB, kA, kB, c)
    requires RoundOneDone(pr, sha1, alice1, idA, idB, a1, a2, b1, b2, sec, gA, eA)
    requires RoundOneDone(pr, sha1, bob1, idB, idA, b1, b2, a1, a2, sec, gB, eB)
    ensures Two(alice1).Ok? && Two(bob1).Ok?
    ensures ProcessTwo(alice1, sha1, Some(Two(bob1).value), None, None, verify) == Ok(alice2)
    ensures ProcessTwo(bob1, sha1, Some(Two(alice1).value), None, None, verify) == Ok(bob2)
    ensures alice2.k == Some(G(pr, c)) && bob2.k == Some(G(pr, c))
  {
    alice2 := HonestRoundTwo(pr, sha1, alice1, bob1, idA, idB, a1, a2, b1, b2, sec, gA, eA, gB, eB, kA, c, verify);
    bob2 := HonestRoundTwo(pr, sha1, bob1, alice1, idB, idA, b1, b2, a1, a2, sec, gB, eB, gA, eA, kB, c, verify);
  }

  /** The key of section 2.2 of RFC 8236: g^((x1+x3)*x2*x4*s), where x1, x2
      are one party's exponents and x3, x4 the other's. */
  function AgreedKey(pr: Params, x1: nat, x2: nat, x3: nat, x4: nat, sec: nat): int
    requires pr.Valid()
  {
    G(pr, (x1 + x3) * x2 * x4 * sec)
  }

  /** Agreement: alice and bob, with the same secret s (0 <= s <= q,
      x2*s < p on both sides) and different ids, construct their sessions,
      process each other's `one()` with verification, then each other's
      `two()` (with or without verification). Every step succeeds and both
      end with the same K, g^((x1+x3)*x2*x4*s) from either side. */
  lemma Agreement(pr: Params, sha1: Digest, idA: Bytes, idB: Bytes,
                  a1: nat, a2: nat, b1: nat, b2: nat, secret: SecretInput,
                  rA1: int, rA2: int, rA3: int, rB1: int, rB2: int, rB3: int, verify2: bool)
    returns (alice: Session, bob: Session, alice1: Session, bob1: Session, alice2: Session, bob2: Session)
    requires WellFormedGroup(pr)
    requires |idA| < 65536 && |idB| < 65536 && idA != idB
    requires SecretValue(secret).Some? && 0 <= SecretValue(secret).value <= pr.q
    requires a2 * SecretValue(secret).value < pr.p && b2 * SecretValue(secret).value < pr.p
    requires G(pr, a2) != 1 && G(pr, b2) != 1
    requires 0 <= rA1 < pr.q && 0 <= rA2 < pr.q && 0 <= rA3 < pr.q
    requires 0 <= rB1 < pr.q && 0 <= rB2 < pr.q && 0 <= rB3 < pr.q
    ensures New(pr, sha1, GivenId(idA), a1, a2, secret, rA1, rA2, None, None, None, 0) == Ok(alice)
    ensures New(pr, sha1, GivenId(idB), b1, b2, secret, rB1, rB2, None, None, None, 0) == Ok(bob)
    ensures alice.params == pr && bob.params == pr
    ensures ProcessOne(alice, sha1, Some(One(bob)), None, None, None, None, true, rA3) == Ok(alice1)
    ensures ProcessOne(bob, sha1, Some(One(alice)), None, None, None, None, true, rB3) == Ok(bob1)
    ensures alice1.params == pr && bob1.params == pr
    ensures Two(alice1).Ok? && Two(bob1).Ok?
    ensures ProcessTwo(alice1, sha1, Some(Two(bob1).value), None, None, verify2) == Ok(alice2)
    ensures ProcessTwo(bob1, sha1, Some(Two(alice1).value), None, None, verify2) == Ok(bob2)
    ensures alice2.k.Some? && alice2.k == bob2.k
    // the shared key is g^((x1+x3)*x2*x4*s), seen from alice's side
    ensures alice2.k == Some(AgreedKey(pr, a1, a2, b1, b2, SecretValue(secret).value))
  {
    var sec: nat := SecretValue(secret).value;
    var tA, tB, gA, gB, eA, eB, kA, kB, c := ComputeExponents(a1, a2, b1, b2, sec, pr.q, pr.p);
    alice, bob, alice1, bob1 := HonestRoundsOne(pr, sha1, idA, idB, a1, a2, b1, b2, secret, sec,
                                                tA, tB, gA, gB, eA, eB, kA, kB, c, rA1, rA2, rA3, rB1, rB2, rB3);
    alice2, bob2 := HonestRoundsTwo(pr, sha1, idA, idB, a1, a2, b1, b2, sec,
                                    tA, tB, gA, gB, eA, eB, kA, kB, c, alice1, bob1, verify2);
    assert AgreedKey(pr, a1, a2, b1, b2, sec) == G(pr, c);
  }
}
