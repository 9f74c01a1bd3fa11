# J-PAKE engine (python-jpake) in Dafny

This project models the protocol engine of python-jpake, `jpake/__init__.py`.
It implements password-authenticated key exchange by juggling (J-PAKE) over a
finite field, as in section 2.2 of RFC 8236. Each party proves knowledge of
its exponents with a Schnorr non-interactive zero-knowledge proof, as in
section 2.3 of RFC 8235.

The model has the engine's three layers:

- **Integer and byte codecs.** `_from_bytes` and `_to_bytes` are
  `Bytes.FromBytes` and `Bytes.ToBytes`. The input of the challenge hash
  (`_zkp_hash` with its inner `pascal`) is `Schnorr.HashInput`.
- **The Schnorr proof.** `_zkp` is `Schnorr.Prove` and `_verify_zkp` is
  `Schnorr.Verify`.
- **The session of one party.** The `JPAKE` constructor with its resume
  path is `Session.New`. The other operations are `Session.ProcessOne`,
  `Session.ProcessTwo`, `Session.One` and `Session.Two`.

A `JPAKE` object is an immutable `Session` record. Each step returns either
the updated record or the exception the Python code would raise, as a
`Result<Session, Error>`. The constructors of `Errors.Error` name the
exception classes. SHA-1 is a parameter `sha1: Bytes -> Bytes`. Every random
draw is a parameter:

- `x1` and `x2` are arbitrary integers, because a caller may inject any
  value in place of the draws `randrange(q)` and `randrange(1, q)`;
- the `r` of each proof lies in [0, q), the range of `randrange(q)`;
- the default signer id uses a draw below 2^16, the range of
  `getrandbits(16)`.

`pow(b, e, m)` is `ModArith.ModPow`, which is defined recursively. For a
possibly negative exponent it is `ModArith.PyPow`, which models Python 3.8+
semantics: the base is inverted modulo m, and `ValueError` is raised when it
has no inverse.

The model keeps these behaviours of the code as written:

- `pascal` returns only the 2-byte length header and drops the payload. The
  hashed message is therefore eight bytes of lengths, and the challenge does
  not bind `gr`. `Schnorr.ChallengeSeesOnlyLengths` and
  `Schnorr.ForgeryWithoutExponent` state the consequence.
- A field of exactly 2^16 bytes passes the explicit length guard. It then
  fails in `to_bytes(2)` with `OverflowError`.
- `process_one` reduces `t2 = x2*secret` modulo p, not modulo q.
- `process_two` defaults to `verify=False`.
- A defaulted signer id is `bytes(n)`, which is n zero bytes. Two defaulted
  ids collide exactly when the draws are equal.
- No call order is enforced. Repeating a step overwrites the same fields.
  `process_two` writes the same K again. `process_one` draws a fresh `r` for
  the proof of A, so `zkp_A` changes; with the same draw the session is
  unchanged. A step that reads an attribute no earlier step set fails
  with `AttributeError`.

The main results are:

- `Schnorr.Completeness`: an honest proof verifies when generator^q = 1
  modulo p.
- `Agreement.Agreement`: two honest parties that share a secret and have
  different ids complete the exchange of `jpake/tests/__init__.py`, and both
  end with the same key, g^((x1+x3)·x2·x4·s).

## Model

| member | source | states |
|---|---|---|
| Bytes.FromBytes | jpake/__init__.py:15-16 | big-endian reading of n bytes gives an integer below 256^n |
| Bytes.BitLength | jpake/__init__.py:20 | `bit_length()` of n is the r with 2^(r-1) <= n < 2^r; it is 0 only for 0 |
| Bytes.IntToBytes | jpake/__init__.py:20 | `to_bytes(len, 'big')` succeeds iff 0 <= n < 256^len; otherwise it raises OverflowError; the len bytes it returns read back as n |
| Bytes.ToBytes | jpake/__init__.py:19-20 | `_to_bytes` raises OverflowError exactly for negative input; otherwise it gives bit_length//8+1 >= 1 bytes that `_from_bytes` reads back as the same number |
| Bytes.FromToBigEndian | jpake/__init__.py:15-20 | round trip: reading back a big-endian encoding wide enough for n gives n |
| Bytes.ByteLengthRoom | jpake/__init__.py:20 | bit_length//8+1 bytes always have room for n, so `_to_bytes` never overflows on a non-negative number |
| ModArith.ModPow | jpake/__init__.py:59-60 | three-argument `pow` with a non-negative exponent lies in [0, m) |
| ModArith.ModPowIsPow | jpake/__init__.py:59-60 | the recursive modular power equals the integer power reduced modulo m |
| ModArith.ModPowAdd | jpake/__init__.py:166-168 | g^e1 · g^e2 = g^(e1+e2) modulo m, the step behind t1 = g^(x1+x3+x4) |
| ModArith.ModPowMul | jpake/__init__.py:166-171 | (g^e1)^e2 = g^(e1·e2) modulo m, the step behind A = t1^t2 |
| ModArith.ModPowProduct | jpake/__init__.py:196-198 | (a·b)^e = a^e · b^e modulo m |
| ModArith.ExpModOrder | jpake/__init__.py:112 | when g^q = 1, exponents of g matter only modulo q |
| ModArith.ExpShiftOrder | jpake/__init__.py:112 | when g^q = 1, adding a multiple of q to the exponent changes nothing |
| ModArith.PowerKeepsOrder | jpake/__init__.py:168-174 | every power of an element of order dividing q also has order dividing q, so t1 is a valid proof generator |
| ModArith.FindInverse | jpake/__init__.py:198 | the search returns an inverse modulo m when one exists in [i, m), and None exactly when none does |
| ModArith.InverseUnique | jpake/__init__.py:198 | modulo m an element has at most one inverse in [0, m) |
| ModArith.PyPow | jpake/__init__.py:198 | `pow(b, e, m)` lies in [0, m); for e >= 0 it is b^e mod m; for e < 0 it raises ValueError exactly when b has no inverse, and otherwise its result times b^(-e) is 1 modulo m |
| ModArith.PyPowNonNegative | jpake/__init__.py:205 | for a non-negative exponent `pow` always succeeds with the recursive modular power |
| ModArith.NegativePowerCancels | jpake/__init__.py:198 | inv^k · b^k = 1 modulo m when inv is an inverse of b |
| Schnorr.Pascal | jpake/__init__.py:82-87 | `pascal` succeeds iff the field is shorter than 2^16 bytes and then returns exactly the 2-byte big-endian length; above 2^16 it raises a bare Exception, and at 2^16 it raises OverflowError |
| Schnorr.HashInput | jpake/__init__.py:89-94 | the message `_zkp_hash` digests is 8 bytes long when it exists; it fails only with OverflowError or the length Exception |
| Schnorr.Challenge | jpake/__init__.py:78-95 | the challenge exists exactly when generator, gr and gx are non-negative with encodings and id shorter than 2^16 bytes; otherwise it raises OverflowError or the length Exception |
| Schnorr.HashInputLayout | jpake/__init__.py:89-94 | the hash input exists iff all four fields are encodable; it is then exactly 8 bytes, the lengths of generator, gr, gx and id in that order; a negative generator is an OverflowError |
| Schnorr.ChallengeSeesOnlyLengths | jpake/__init__.py:82-95 | the challenge is equal for any two field tuples whose encodings have the same lengths |
| Schnorr.Prove | jpake/__init__.py:97-117 | the proof carries the prover's id, gr = generator^r mod p and b in [0, q); with gx given it succeeds iff every hash field is encodable; failures are only ValueError, OverflowError or the length Exception |
| Schnorr.Response | jpake/__init__.py:112 | the response `(r - exponent*h) % q` lies in [0, q) |
| Schnorr.VerifyDecides | jpake/__init__.py:119-135 | a proof with the verifier's own id raises DuplicateSignerError before any arithmetic; an unhashable field raises the hash input's error; otherwise, for any b, a generator with no inverse and a negative b raise ValueError, and else verification accepts exactly when gr = generator^b · gx^h mod p and raises InvalidProofError when it does not |
| Schnorr.Verify | jpake/__init__.py:119-135 | `_verify_zkp` refuses the verifier's own id; it fails only with DuplicateSignerError, InvalidProofError, ValueError, OverflowError or the length Exception; accepting implies a different id and a hashable challenge input |
| Schnorr.ResponseExponent | jpake/__init__.py:112 | b + x·h = r + q·k for some k >= 0 |
| Schnorr.HonestResponse | jpake/__init__.py:106-112 | with generator^q = 1, generator^b · (generator^x)^h = generator^r mod p for the honest response b |
| Schnorr.Completeness | jpake/__init__.py:97-135 | an honestly generated proof for gx = generator^x mod p is accepted by every verifier with a different id when generator^q = 1 mod p |
| Schnorr.ForgeryWithoutExponent | jpake/__init__.py:89-95 | because gr is not hashed, a proof built from any b with gr := generator^b · gx^h is accepted whenever gr has the byte length of the guess used for h |
| Session.SignerId | jpake/__init__.py:32-36 | a given id is kept; a defaulted one is `bytes(n)`, n zero bytes |
| Session.SecretValue | jpake/__init__.py:51-56 | no secret stays None; an int is kept; bytes become their big-endian value `_from_bytes(bs)`, below 256^len |
| Session.BytesSecretMatchesInt | jpake/__init__.py:52-55 | passing a secret n as the bytes `_to_bytes(n)` gives the same secret as passing the integer n |
| Session.One | jpake/__init__.py:213-219 | `one()` carries the session's gx1 and gx2 and their proofs |
| Session.RoundTwoGenerator | jpake/__init__.py:193 | the generator gx1·gx2·gx3 mod p of the round-two proof is a residue in [0, p) |
| Session.ProcessOne | jpake/__init__.py:137-180 | `data` with any keyword raises ValueError; only the round-one fields change; gx3 and gx4 are stored reduced mod p; a reduced gx4 of 1 is refused before any proof; a missing gx3 or gx4 raises TypeError, and so does a missing proof when verify is on; with verify both peer proofs passed against g; A = (gx1·gx3·gx4 mod p)^(x2·s mod p) mod p, proved under the party's id |
| Session.ProcessTwo | jpake/__init__.py:182-211 | `data` with a keyword raises ValueError; only K changes, and it lies in [0, p); it needs round one (AttributeError, with or without verify) and the secret; with verify, a missing proof raises TypeError, and success means B's proof passed against gx1·gx2·gx3 mod p |
| Session.Two | jpake/__init__.py:221-225 | `two()` exists exactly after round one and then carries the stored A and zkp_A; before that it raises AttributeError |
| Session.StepOne | jpake/__init__.py:32-63 | the constructed session has the given parameters, id, x1, x2 and secret; gx1 and gx2 are `pow(g, x1, p)` and `pow(g, x2, p)` for any exponent, hence g^x1 and g^x2 for non-negative ones; the proofs carry its id; it has processed nothing; failures are only ValueError, OverflowError or the length Exception |
| Session.New | jpake/__init__.py:24-76 | construction keeps parameters, id, x1, x2 and secret; it sets gx1 and gx2 to `pow(g, x1, p)` and `pow(g, x2, p)` for any exponent, g^x1 and g^x2 for non-negative ones, with proofs under the party's id; resuming restores round one and K; exactly one of gx3/gx4 is an error, and once the first step has succeeded it is the ValueError "only gx3/gx4 provided" |
| Protocol.ResumeMatchesSteps | jpake/__init__.py:65-76 | constructing with gx3, gx4 and B equals constructing fresh, then `process_one(gx3=, gx4=, verify=False)`, then `process_two(B=)`, errors included |
| Protocol.ProcessOneIdempotent | jpake/__init__.py:137-180 | no sequencing: repeating `process_one` with the same arguments and draw gives the same session |
| Protocol.ProcessTwoIdempotent | jpake/__init__.py:182-211 | no sequencing: repeating `process_two` with the same arguments gives the same session |
| Protocol.VerifiedTwoMatchesUnverified | jpake/__init__.py:192-194 | when B's proof is accepted, `process_two` with verify=True ends exactly as with verify=False |
| Protocol.DefaultIdsCollide | jpake/__init__.py:34-35 | two defaulted signer ids are equal iff their 16-bit draws are equal |
| Protocol.OwnMessageRejected | jpake/__init__.py:127-128 | processing one's own `one()` with verification raises DuplicateSignerError, unless the gx4 check fires first |
| Protocol.GMul | jpake/__init__.py:166-168 | g^e1 · g^e2 mod p = g^(e1+e2) |
| Protocol.GPow | jpake/__init__.py:171 | (g^e1)^e2 mod p = g^(e1·e2) |
| Protocol.ThreeProduct | jpake/__init__.py:193 | the round-two generator gx1·gx2·gx3 mod p is g^(x1+x2+x3) |
| Protocol.BottomCancels | jpake/__init__.py:196-202 | bottom = gx4^(x2·(q-s)) is the inverse of g^(x4·x2·s): their product is 1 mod p |
| Protocol.KeyExponent | jpake/__init__.py:204-205 | each party's raw key exponent is (x1+x3)·x2·x4·s plus a multiple of q |
| Agreement.NewHonest | jpake/__init__.py:59-63 | an honest construction succeeds, with gx1 = g^x1 and gx2 = g^x2; both proofs convince any party with another id |
| Agreement.ProcessOneHonest | jpake/__init__.py:166-180 | honest `process_one` succeeds, stores gx3 and gx4, and sets A = g^((x1+x3+x4)·x2·s) with a proof accepted against g^(x1+x3+x4) |
| Agreement.ProcessTwoHonest | jpake/__init__.py:192-211 | honest `process_two`, with or without verify, succeeds with K = g^((B-exponent + x4·x2·(q-s))·x2) |
| Agreement.HonestGenerator | jpake/__init__.py:193 | the round-two generator of an honest run is g^(x1+x2+x3) |
| Agreement.HonestUnverifiedTwo | jpake/__init__.py:196-211 | unverified `process_two` of an honest run sets K to that power of g |
| Agreement.EitherWay | jpake/__init__.py:192-194 | verification only adds a way to fail: an accepted proof leaves the outcome of `process_two` unchanged |
| Agreement.UnverifiedTwo | jpake/__init__.py:182-211 | unverified `process_two` sets K = pow(B·bottom mod p, x2, p) with bottom = pow(gx4, x2·(q-s), p), Python's `pow` for any integer x2 and secret, and alike for B in the round-two message and B given as a keyword |
| Agreement.RoundTwoKey | jpake/__init__.py:196-205 | for gx4 = g^x4 and B = g^eB, bottom and then K are the expected powers of g |
| Agreement.BottomFactor | jpake/__init__.py:196-198 | `pow(gx4, x2*(q-s), p)` for gx4 = g^x4 is g^(x4·x2·(q-s)) |
| Agreement.HonestKey | jpake/__init__.py:204-205 | each party's K collapses to g^((x1+x3)·x2·x4·s) |
| Agreement.HonestNew | jpake/tests/__init__.py:9-10 | an honest party's construction yields a session with its own values whose proofs its peer accepts |
| Agreement.HonestRoundOne | jpake/tests/__init__.py:12 | one side's `process_one(peer.one())` with verification succeeds and prepares A for the peer |
| Agreement.HonestRoundTwo | jpake/tests/__init__.py:14 | one side's `process_two(peer.two())` succeeds, and K = g^((x1+x3)·x2·x4·s) |
| Agreement.HonestRoundsOne | jpake/tests/__init__.py:9-12 | both constructions and both `process_one` calls of the test succeed |
| Agreement.HonestRoundsTwo | jpake/tests/__init__.py:14 | both `process_two` calls succeed, and both keys equal g^c for the common exponent c |
| Agreement.Agreement | jpake/tests/__init__.py:7-14 | with a shared secret 0 <= s <= q, x2·s < p and distinct ids, every step of the test flow succeeds; both parties end with the same K, g^((x1+x3)·x2·x4·s) |

## Left out

- SHA-1 (`hashlib.sha1`) is a parameter, any function from bytes to bytes. Its internals are a foreign library.
- `SystemRandom`, `randrange` and `getrandbits` are replaced by parameters. The draws are nondeterministic. The `r` of each proof carries the range [0, q) and the signer-id draw the range [0, 2^16). `x1` and `x2` carry no range, because a caller may inject any value.
- UTF-8 encoding of `str` secrets and signer ids is not modelled. Secrets are integers or byte strings, and ids are byte strings. String encoding is outside the arithmetic core.
- `jpake.parameters` is not part of this model. Its constants and primality are not assumed. Every operation assumes `p > 1` and `q > 0` (`Schnorr.Params.Valid`). For `q <= 0` the code raises `ValueError` from `randrange(q)`, and for `p = 1` every residue is 0. For `q = 1` a defaulted `x2` raises `ValueError` from `randrange(1, 1)`; the model's arbitrary `x2` does not express that draw failing. The honest-run results need only three things: `g^q = 1 mod p`, a generator reduced modulo p (`0 <= g < p`), and a modulus whose byte length fits the 2-byte header.
- `jpake/exceptions.py` is not imported by the engine. `OutOfSequenceError` is never raised, so there is no state machine to model.
- Constant-time behaviour and key derivation do not exist in the code.
- `pow` with a negative exponent is modelled with Python 3.8+ semantics. Older interpreters raise `ValueError` for any negative exponent.
- Session.ProcessTwo: with `verify=True` and `B=None`, the model raises `MissingValue` before the challenge is computed. Python raises inside `_zkp_hash`: `AttributeError` on `None.bit_length()`, or the `OverflowError` or length `Exception` of an earlier field. Only the kind of exception differs.
- Session.ProcessTwo: its contract does not restate the formula for K. The formula's meaning is stated by `Agreement.UnverifiedTwo`, `Protocol.BottomCancels` and `Agreement.HonestKey`.
- Schnorr.Completeness: stated for a non-negative exponent x. The code's own draws are non-negative.
- Agreement.Agreement: assumes x2·s < p on both sides. The code reduces t2 = x2·s modulo p, not modulo q, so a larger product changes A away from the RFC value, and the theorem does not cover it. It also assumes that neither g^x2 is 1, which the peer's gx4 check would refuse, and that ids are shorter than 2^16 bytes.
