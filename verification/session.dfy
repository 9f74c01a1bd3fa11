/** One party's J-PAKE session over a finite field (section 2.2 of RFC 8236)
    as `jpake/__init__.py` implements it: the constructor with its resume
    path, `process_one`, `process_two`, `one` and `two`. The session is an
    immutable record; each step returns either the updated record or the
    exception the code would raise. Random draws are parameters. */
module Session {
  import opened Results
  import opened Errors
  import opened ModArith
  import opened Bytes
  import opened Schnorr

  /** The `secret` argument: absent, an integer, or a byte string read as a
      big-endian integer. */
  datatype SecretInput = NoSecret | IntSecret(n: int) | BytesSecret(bs: Bytes)

  /** The `signer_id` argument: given, or left out, in which case the code
      draws n = `getrandbits(16)` and uses `bytes(n)`. */
  datatype SignerIdInput = GivenId(id: Bytes) | DefaultId(draw: nat)

  /** The round-one message returned by `one()`. */
  datatype Round1 = Round1(gx1: int, zkpX1: Zkp, gx2: int, zkpX2: Zkp)

  /** The round-two message returned by `two()`. */
  datatype Round2 = Round2(a: int, zkpA: Zkp)

  /** What `process_one` stores: the peer's reduced `gx3`, `gx4`, and this
      party's round-two value `A` with its proof. */
  datatype PeerRound1 = PeerRound1(gx3: int, gx4: int, a: int, zkpA: Zkp)

  /** The attributes of a `JPAKE` object. `round1` is `None` until
      `process_one` has run and `k` is `None` until `process_two` has run. */
  datatype Session = Session(
    params: Params,
    signerId: Bytes,
    x1: int,
    x2: int,
    secret: Option<int>,
    gx1: int,
    gx2: int,
    zkpX1: Zkp,
    zkpX2: Zkp,
    round1: Option<PeerRound1>,
    k: Option<int>)

  /** The signer id a session ends up with. `bytes(n)` for an integer n is a
      run of n zero bytes, not an encoding of n. */
  function SignerId(input: SignerIdInput): (id: Bytes)
    ensures input.GivenId? ==> id == input.id
    ensures input.DefaultId? ==> |id| == input.draw && forall i :: 0 <= i < |id| ==> id[i] == 0
  {
    match input
    case GivenId(id) => id
    case DefaultId(n) => seq(n, _ => 0)
  }

  /** The integer the code keeps as `self.secret`. */
  function SecretValue(input: SecretInput): (s: Option<int>)
    ensures input.NoSecret? <==> s.None?
    ensures input.IntSecret? ==> s == Some(input.n)
    ensures input.BytesSecret? ==> s == Some(FromBytes(input.bs)) && 0 <= s.value < Pow(256, |input.bs|)
  {
    match input
    case NoSecret => None
    case IntSecret(n) => Some(n)
    case BytesSecret(bs) => Some(FromBytes(bs))
  }

  /** A secret given as the bytes `_to_bytes` writes for n is the secret n:
      the two ways of passing a non-negative secret agree. */
  lemma BytesSecretMatchesInt(n: nat)
    ensures ToBytes(n).Ok?
    ensures SecretValue(BytesSecret(ToBytes(n).value)) == SecretValue(IntSecret(n))
  {
  }

  /** `_verify_zkp` on a proof argument that may have been left as `None`:
      subscripting `None` is a `TypeError`. */
  function VerifyGiven(pr: Params, sha1: Digest, verifierId: Bytes,
                       generator: int, gx: int, zkp: Option<Zkp>): (res: Result<(), Error>)
    requires pr.Valid()
  {
    if zkp.None? then Err(MissingValue) else Verify(pr, sha1, verifierId, generator, gx, zkp.value)
  }

  /** `process_one(data, gx3=, gx4=, zkp_x3=, zkp_x4=, verify=)`, with r the
      `randrange(q)` draw of the proof for `A`. */
  function ProcessOne(s: Session, sha1: Digest, data: Option<Round1>,
                      gx3: Option<int>, gx4: Option<int>, zkpX3: Option<Zkp>, zkpX4: Option<Zkp>,
                      verify: bool, r: int): (res: Result<Session, Error>)
    requires s.params.Valid() && 0 <= r < s.params.q
    // a message bundle together with any keyword value is a ValueError
    ensures data.Some? && (gx3.Some? || gx4.Some? || zkpX3.Some? || zkpX4.Some?) ==>
      res == Err(UnexpectedKeyword)
    // only the round-one fields change
    ensures res.Ok? ==> res.value.round1.Some? && res.value == s.(round1 := res.value.round1)
    // the peer's values are stored reduced, and the reduced gx4 is never 1
    ensures res.Ok? && data.Some? ==>
      res.value.round1.value.gx3 == data.value.gx1 % s.params.p &&
      res.value.round1.value.gx4 == data.value.gx2 % s.params.p
    ensures res.Ok? && data.None? ==>
      gx3.Some? && gx4.Some? &&
      res.value.round1.value.gx3 == gx3.value % s.params.p &&
      res.value.round1.value.gx4 == gx4.value % s.params.p
    ensures res.Ok? ==> res.value.round1.value.gx4 != 1
    // with verify, both peer proofs were checked against g
    ensures res.Ok? && verify && data.Some? ==>
      Verify(s.params, sha1, s.signerId, s.params.g, res.value.round1.value.gx3, data.value.zkpX1) == Ok(()) &&
      Verify(s.params, sha1, s.signerId, s.params.g, res.value.round1.value.gx4, data.value.zkpX2) == Ok(())
    ensures res.Ok? && verify && data.None? ==>
      zkpX3.Some? && zkpX4.Some? &&
      Verify(s.params, sha1, s.signerId, s.params.g, res.value.round1.value.gx3, zkpX3.value) == Ok(()) &&
      Verify(s.params, sha1, s.signerId, s.params.g, res.value.round1.value.gx4, zkpX4.value) == Ok(())
    // a degenerate gx4 is refused before any proof is looked at
    ensures (data.Some? && !(gx3.Some? || gx4.Some? || zkpX3.Some? || zkpX4.Some?) &&
             data.value.gx2 % s.params.p == 1) ==> res == Err(DegenerateGx4)
    ensures data.None? && gx3.Some? && gx4.Some? && gx4.value % s.params.p == 1 ==>
      res == Err(DegenerateGx4)
    // a missing gx3 or gx4 is a TypeError (`None % p`)
    ensures data.None? && (gx3.None? || gx4.None?) ==> res == Err(MissingValue)
    // with verify, a missing proof is a TypeError once the gx4 check has passed
    ensures (verify && data.None? && gx3.Some? && gx4.Some? && gx4.value % s.params.p != 1 &&
             zkpX3.None?) ==> res == Err(MissingValue)
    ensures (verify && data.None? && gx3.Some? && gx4.Some? && gx4.value % s.params.p != 1 &&
             zkpX3.Some? && zkpX4.None? &&
             Verify(s.params, sha1, s.signerId, s.params.g, gx3.value % s.params.p, zkpX3.value) == Ok(())) ==>
      res == Err(MissingValue)
    // the round-two value needs the secret: A = (gx1*gx3*gx4 mod p)^(x2*s mod p)
    // mod p, proved under this party's id
    ensures res.Ok? ==> s.secret.Some?
    ensures res.Ok? ==>
      var r1 := res.value.round1.value;
      && r1.a == ModPow(((s.gx1 * r1.gx3) % s.params.p * r1.gx4) % s.params.p,
                        (s.x2 * s.secret.value) % s.params.p, s.params.p)
      && r1.zkpA.id == s.signerId
  {
    var p, g := s.params.p, s.params.g;
    if data.Some? && (gx3.Some? || gx4.Some? || zkpX3.Some? || zkpX4.Some?) then
      Err(UnexpectedKeyword)
    else
      var in3 := if data.Some? then Some(data.value.gx1) else gx3;
      var in4 := if data.Some? then Some(data.value.gx2) else gx4;
      var z3 := if data.Some? then Some(data.value.zkpX1) else zkpX3;
      var z4 := if data.Some? then Some(data.value.zkpX2) else zkpX4;
      if in3.None? || in4.None? then Err(MissingValue)
      else
        var y3 := in3.value % p;
        var y4 := in4.value % p;
        if y4 == 1 then Err(DegenerateGx4)
        else
          var _ :- if verify then VerifyGiven(s.params, sha1, s.signerId, g, y3, z3) else Ok(());
          var _ :- if verify then VerifyGiven(s.params, sha1, s.signerId, g, y4, z4) else Ok(());
          if s.secret.None? then Err(MissingValue)
          else
            var t1 := ((s.gx1 * y3) % p * y4) % p;
            var t2 := (s.x2 * s.secret.value) % p;
            var a := ModPow(t1, t2, p);
            var zkpA :- Prove(s.params, sha1, s.signerId, t1, t2, Some(a), r);
            Ok(s.(round1 := Some(PeerRound1(y3, y4, a, zkpA))))
  }

  /** The generator `process_two` checks the peer's proof against:
      gx1 * gx2 * gx3 mod p. */
  function RoundTwoGenerator(s: Session): (r: int)
    requires s.params.Valid() && s.round1.Some?
    ensures 0 <= r < s.params.p
  {
    ((s.gx1 * s.gx2) % s.params.p * s.round1.value.gx3) % s.params.p
  }

  /** `process_two(data, B=, zkp_B=, verify=)`; the code's default is
      `verify=False`. */
  function ProcessTwo(s: Session, sha1: Digest, data: Option<Round2>,
                      b: Option<int>, zkpB: Option<Zkp>, verify: bool): (res: Result<Session, Error>)
    requires s.params.Valid()
    ensures data.Some? && (b.Some? || zkpB.Some?) ==> res == Err(UnexpectedKeyword)
    // only K changes
    ensures res.Ok? ==> res.value.k.Some? && res.value == s.(k := res.value.k)
    ensures res.Ok? ==> 0 <= res.value.k.value < s.params.p
    // it needs round one and the secret
    ensures res.Ok? ==> s.round1.Some? && s.secret.Some?
    ensures !(data.Some? && (b.Some? || zkpB.Some?)) && s.round1.None? ==> res == Err(MissingAttribute)
    // with verify, a missing proof is a TypeError once round one is there
    ensures verify && data.None? && zkpB.None? && s.round1.Some? ==> res == Err(MissingValue)
    // with verify, the peer's proof was checked against gx1 * gx2 * gx3
    ensures res.Ok? && verify ==>
      && (data.Some? || (b.Some? && zkpB.Some?))
      && var bv := if data.Some? then data.value.a else b.value;
         var zv := if data.Some? then data.value.zkpA else zkpB.value;
         Verify(s.params, sha1, s.signerId, RoundTwoGenerator(s), bv, zv) == Ok(())
  {
    var p, q := s.params.p, s.params.q;
    if data.Some? && (b.Some? || zkpB.Some?) then Err(UnexpectedKeyword)
    else
      var bIn := if data.Some? then Some(data.value.a) else b;
      var zIn := if data.Some? then Some(data.value.zkpA) else zkpB;
      var _ :-
        if !verify then Ok(())
        else if s.round1.None? then Err(MissingAttribute)
        else if zIn.None? then Err(MissingValue)
        else if zIn.value.id == s.signerId then Err(DuplicateSigner)
        else if bIn.None? then Err(MissingValue)
        else Verify(s.params, sha1, s.signerId, RoundTwoGenerator(s), bIn.value, zIn.value);
      if s.round1.None? then Err(MissingAttribute)
      else if s.secret.None? then Err(MissingValue)
      else
        var bottom :- PyPow(s.round1.value.gx4, s.x2 * (q - s.secret.value), p);
        if bIn.None? then Err(MissingValue)
        else
          var inner := (bIn.value * bottom) % p;
          var key :- PyPow(inner, s.x2, p);
          Ok(s.(k := Some(key)))
  }

  /** `one()`: the round-one message, available from construction on. */
  function One(s: Session): (m: Round1)
    ensures m.gx1 == s.gx1 && m.gx2 == s.gx2 && m.zkpX1 == s.zkpX1 && m.zkpX2 == s.zkpX2
  {
    Round1(s.gx1, s.zkpX1, s.gx2, s.zkpX2)
  }

  /** `two()`: the round-two message; reading `self.A` before `process_one`
      is an `AttributeError`. */
  function Two(s: Session): (m: Result<Round2, Error>)
    ensures m.Ok? <==> s.round1.Some?
    ensures m.Err? ==> m.error == MissingAttribute
    ensures m.Ok? ==> m.value.a == s.round1.value.a && m.value.zkpA == s.round1.value.zkpA
  {
    match s.round1
    case None => Err(MissingAttribute)
    case Some(r1) => Ok(Round2(r1.a, r1.zkpA))
  }

  /** The constructor up to "step one": the session with g^x1, g^x2 and
      their proofs, before any resume argument is looked at. */
  function StepOne(pr: Params, sha1: Digest, id: SignerIdInput, x1: int, x2: int, secret: SecretInput,
                   r1: int, r2: int): (res: Result<Session, Error>)
    requires pr.Valid()
    requires 0 <= r1 < pr.q && 0 <= r2 < pr.q
    ensures res.Ok? ==>
      && res.value.params == pr
      && res.value.signerId == SignerId(id)
      && res.value.x1 == x1 && res.value.x2 == x2
      && res.value.secret == SecretValue(secret)
      && res.value.round1.None? && res.value.k.None?
      && res.value.zkpX1.id == SignerId(id) && res.value.zkpX2.id == SignerId(id)
    ensures res.Ok? && x1 >= 0 ==> res.value.gx1 == ModPow(pr.g, x1, pr.p)
    ensures res.Ok? && x2 >= 0 ==> res.value.gx2 == ModPow(pr.g, x2, pr.p)
    // for any exponent, injected negative ones included, gx1 and gx2 are Python's pow
    ensures res.Ok? ==> PyPow(pr.g, x1, pr.p) == Ok(res.value.gx1) && PyPow(pr.g, x2, pr.p) == Ok(res.value.gx2)
    ensures res.Err? ==> res.error == NotInvertible || res.error == Overflow || res.error == FieldTooLong
  {
    var signerId := SignerId(id);
    var gx1 :- PyPow(pr.g, x1, pr.p);
    var gx2 :- PyPow(pr.g, x2, pr.p);
    var zkpX1 :- Prove(pr, sha1, signerId, pr.g, x1, Some(gx1), r1);
    var zkpX2 :- Prove(pr, sha1, signerId, pr.g, x2, Some(gx2), r2);
    Ok(Session(pr, signerId, x1, x2, SecretValue(secret), gx1, gx2, zkpX1, zkpX2, None, None))
  }

  /** `JPAKE(x1=, x2=, secret=, gx3=, gx4=, B=, parameters=, signer_id=)`.
      x1 and x2 are the given values or the draws `randrange(q)` and
      `randrange(1, q)`; r1 and r2 are the draws for the proofs of x1 and x2,
      r3 the draw for the proof of `A` on the resume path. */
  function New(pr: Params, sha1: Digest, id: SignerIdInput, x1: int, x2: int, secret: SecretInput,
               r1: int, r2: int, gx3: Option<int>, gx4: Option<int>, b: Option<int>, r3: int)
    : (res: Result<Session, Error>)
    requires pr.Valid()
    requires id.DefaultId? ==> id.draw < 65536
    requires 0 <= r1 < pr.q && 0 <= r2 < pr.q && 0 <= r3 < pr.q
    ensures res.Ok? ==>
      && res.value.params == pr
      && res.value.signerId == SignerId(id)
      && res.value.x1 == x1 && res.value.x2 == x2
      && res.value.secret == SecretValue(secret)
    // the round-one values are g^x1 and g^x2, with proofs under this party's id
    ensures res.Ok? && x1 >= 0 ==> res.value.gx1 == ModPow(pr.g, x1, pr.p)
    ensures res.Ok? && x2 >= 0 ==> res.value.gx2 == ModPow(pr.g, x2, pr.p)
    ensures res.Ok? ==> PyPow(pr.g, x1, pr.p) == Ok(res.value.gx1) && PyPow(pr.g, x2, pr.p) == Ok(res.value.gx2)
    ensures res.Ok? ==> res.value.zkpX1.id == SignerId(id) && res.value.zkpX2.id == SignerId(id)
    // a fresh session has processed nothing
    ensures res.Ok? && gx3.None? && gx4.None? && b.None? ==> res.value.round1.None? && res.value.k.None?
    // resuming restores round one, and with B also K
    ensures res.Ok? && gx3.Some? ==> res.value.round1.Some?
    ensures res.Ok? && b.Some? ==> res.value.k.Some?
    ensures (gx3.Some? && gx4.None?) || (gx3.None? && gx4.Some?) ==>
      res.Err? && (res.error == OnlyOneOfGx3Gx4 || res.error == NotInvertible ||
                   res.error == Overflow || res.error == FieldTooLong)
    // once step one has succeeded, exactly one of gx3 and gx4 is the ValueError
    ensures StepOne(pr, sha1, id, x1, x2, secret, r1, r2).Ok? &&
            ((gx3.Some? && gx4.None?) || (gx3.None? && gx4.Some?)) ==>
      res == Err(OnlyOneOfGx3Gx4)
  {
    var s0 :- StepOne(pr, sha1, id, x1, x2, secret, r1, r2);
    if gx3.Some? && gx4.None? then Err(OnlyOneOfGx3Gx4)
    else if gx3.None? && gx4.Some? then Err(OnlyOneOfGx3Gx4)
    else
      var s1 :- if gx3.Some? then ProcessOne(s0, sha1, None, gx3, gx4, None, None, false, r3) else Ok(s0);
      if b.Some? then ProcessTwo(s1, sha1, None, b, None, false) else Ok(s1)
  }
}
