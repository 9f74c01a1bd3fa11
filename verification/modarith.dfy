/** Modular arithmetic behind every `pow(base, exp, mod)` call of the engine:
    integer powers, a recursively defined modular exponentiation, the algebraic
    laws the protocol relies on, and Python's three-argument `pow`, which
    accepts a negative exponent by first inverting the base. */
module ModArith {
  import opened Results
  import opened Errors

  /** The integer power b^e. */
  function Pow(b: int, e: nat): int
  {
    if e == 0 then 1 else b * Pow(b, e - 1)
  }

  // ---------------------------------------------------------------------------
  // Facts about `%` with a positive modulus. For a positive modulus Python's
  // floored `%` and Dafny's Euclidean `%` agree.
  // ---------------------------------------------------------------------------

  lemma MulAtLeast(m: int, d: int)
    requires m > 0 && d >= 1
    ensures m * d >= m
  {
    assert m * d == m * (d - 1) + m;
  }

  lemma ModUnique(y: int, m: int, k: int, r: int)
    requires m > 0 && 0 <= r < m && y == m * k + r
    ensures y % m == r
  {
    var d := k - y / m;
    assert y == m * (y / m) + y % m;
    assert m * d == m * k - m * (y / m);
    assert m * d == y % m - r;
    if d >= 1 {
      MulAtLeast(m, d);
      assert false;
    } else if d <= -1 {
      MulAtLeast(m, -d);
      assert false;
    }
  }

  lemma ModAddMultiple(y: int, m: int, k: int)
    requires m > 0
    ensures (y + m * k) % m == y % m
  {
    assert y + m * k == m * (y / m + k) + y % m;
    ModUnique(y + m * k, m, y / m + k, y % m);
  }

  lemma MulModLeft(a: int, b: int, m: int)
    requires m > 0
    ensures (a * b) % m == ((a % m) * b) % m
  {
    var k := a / m;
    assert a * b == (a % m) * b + m * (k * b) by {
      assert a == m * k + a % m;
    }
    ModAddMultiple((a % m) * b, m, k * b);
  }

  lemma MulModRight(a: int, x: int, m: int)
    requires m > 0
    ensures (a * (x % m)) % m == (a * x) % m
  {
    MulModLeft(x, a, m);
    assert a * x == x * a;
    assert a * (x % m) == (x % m) * a;
  }

  lemma MulMod(a: int, b: int, m: int)
    requires m > 0
    ensures (a * b) % m == ((a % m) * (b % m)) % m
  {
    MulModLeft(a, b, m);
    MulModLeft(b, a % m, m);
    assert (a % m) * b == b * (a % m);
    assert (b % m) * (a % m) == (a % m) * (b % m);
  }

  // The next four lemmas state one-step facts the solver proves alone. They
  // exist as hints: calling one in a proof with many products or remainders
  // puts exactly the needed instance in scope, so the solver does not have to
  // find it.

  lemma UnitFactor(x: int, m: int)
    requires 0 <= x < m
    ensures (x * 1) % m == x && (1 * x) % m == x
  {
  }

  lemma ProductNonNegative(a: nat, b: nat)
    ensures a * b >= 0
  {
  }

  lemma ModSmall(x: int, m: int)
    requires 0 <= x < m
    ensures x % m == x
  {
  }

  lemma ModOfMod(a: int, m: int)
    requires m > 0
    ensures (a % m) % m == a % m
  {
  }

  // ---------------------------------------------------------------------------
  // Laws of integer powers.
  // ---------------------------------------------------------------------------

  /** Sum of exponents: b^(e1+e2) = b^e1 * b^e2. */
  lemma {:induction false} PowAdd(b: int, e1: nat, e2: nat)
    ensures Pow(b, e1 + e2) == Pow(b, e1) * Pow(b, e2)
  {
    if e1 > 0 {
      PowAdd(b, e1 - 1, e2);
      calc {
        Pow(b, e1 + e2);
        b * Pow(b, (e1 - 1) + e2);
        b * (Pow(b, e1 - 1) * Pow(b, e2));
        (b * Pow(b, e1 - 1)) * Pow(b, e2);
      }
    }
  }

  /** Power of a power: b^(e1*e2) = (b^e1)^e2. */
  lemma {:induction false} PowMul(b: int, e1: nat, e2: nat)
    ensures Pow(b, e1 * e2) == Pow(Pow(b, e1), e2)
  {
    if e2 > 0 {
      PowMul(b, e1, e2 - 1);
      assert e1 * e2 == e1 + e1 * (e2 - 1);
      PowAdd(b, e1, e1 * (e2 - 1));
    }
  }

  /** Powers of a positive base are positive. */
  lemma {:induction false} PowPositive(b: int, e: nat)
    requires b > 0
    ensures Pow(b, e) > 0
  {
    if e > 0 {
      PowPositive(b, e - 1);
    }
  }

  /** Powers of a positive base grow with the exponent. */
  lemma PowMonotone(b: int, e1: nat, e2: nat)
    requires b > 0 && e1 <= e2
    ensures Pow(b, e1) <= Pow(b, e2)
  {
    PowAdd(b, e1, e2 - e1);
    PowPositive(b, e1);
    PowPositive(b, e2 - e1);
    MulAtLeast(Pow(b, e1), Pow(b, e2 - e1));
  }

  /** A power of 256 is a power of 2 with eight times the exponent. */
  lemma Pow256(k: nat)
    ensures Pow(256, k) == Pow(2, 8 * k)
  {
    assert Pow(2, 8) == 256;
    PowMul(2, 8, k);
  }

  /** Power of a product: (a*b)^e = a^e * b^e. */
  lemma {:induction false} PowProduct(a: int, b: int, e: nat)
    ensures Pow(a * b, e) == Pow(a, e) * Pow(b, e)
  {
    if e > 0 {
      PowProduct(a, b, e - 1);
      var x, y := Pow(a, e - 1), Pow(b, e - 1);
      calc {
        Pow(a * b, e);
        (a * b) * (x * y);
        { Interchange(a, b, x, y); }
        (a * x) * (b * y);
      }
    }
  }

  /** Right distributivity. Like the two ring facts after it, it is a hint
      for proofs whose contexts hold many products: the solver proves it
      alone but may not find the instance in a large context. */
  lemma MulDistributes(a: int, b: int, c: int)
    ensures (a + b) * c == a * c + b * c
  {
  }

  /** Moving the middle factor of a product to the front. */
  lemma MulRotate(a: int, b: int, c: int)
    ensures a * b * c == b * (a * c)
  {
  }

  /** Regrouping four factors: (a*b)*(x*y) = (a*x)*(b*y). */
  lemma Interchange(a: int, b: int, x: int, y: int)
    ensures (a * b) * (x * y) == (a * x) * (b * y)
  {
    calc {
      (a * b) * (x * y);
      a * (b * (x * y));
      a * ((b * x) * y);
      { assert b * x == x * b; }
      a * ((x * b) * y);
      a * (x * (b * y));
      (a * x) * (b * y);
    }
  }

  /** Reducing the base first does not change the residue of the power. */
  lemma {:induction false} PowModBase(b: int, e: nat, m: int)
    requires m > 0
    ensures Pow(b % m, e) % m == Pow(b, e) % m
  {
    if e > 0 {
      PowModBase(b, e - 1, m);
      calc {
        Pow(b % m, e) % m;
        ((b % m) * Pow(b % m, e - 1)) % m;
        { MulMod(b % m, Pow(b % m, e - 1), m); }
        (((b % m) % m) * (Pow(b % m, e - 1) % m)) % m;
        { ModOfMod(b, m); }
        ((b % m) * (Pow(b, e - 1) % m)) % m;
        { MulMod(b, Pow(b, e - 1), m); }
        (b * Pow(b, e - 1)) % m;
      }
    }
  }

  // ---------------------------------------------------------------------------
  // Modular exponentiation, `pow(b, e, m)` for e >= 0.
  // ---------------------------------------------------------------------------

  /** `pow(b, e, m)` for e >= 0: one multiplication and one reduction per
      unit of the exponent, so every intermediate value stays in [0, m). */
  function ModPow(b: int, e: nat, m: int): (r: int)
    requires m > 0
    ensures 0 <= r < m
    decreases e
  {
    if e == 0 then 1 % m else (b * ModPow(b, e - 1, m)) % m
  }

  /** The recursive modular exponentiation agrees with the integer power
      reduced once at the end. */
  lemma {:induction false} ModPowIsPow(b: int, e: nat, m: int)
    requires m > 0
    ensures ModPow(b, e, m) == Pow(b, e) % m
  {
    if e > 0 {
      ModPowIsPow(b, e - 1, m);
      MulModRight(b, Pow(b, e - 1), m);
    }
  }

  /** Product of powers of one base: g^e1 * g^e2 = g^(e1+e2) modulo m. */
  lemma ModPowAdd(g: int, e1: nat, e2: nat, m: int)
    requires m > 0
    ensures (ModPow(g, e1, m) * ModPow(g, e2, m)) % m == ModPow(g, e1 + e2, m)
  {
    ModPowIsPow(g, e1, m);
    ModPowIsPow(g, e2, m);
    ModPowIsPow(g, e1 + e2, m);
    MulMod(Pow(g, e1), Pow(g, e2), m);
    PowAdd(g, e1, e2);
  }

  /** Power of a power: (g^e1 mod m)^e2 = g^(e1*e2) modulo m. */
  lemma ModPowMul(g: int, e1: nat, e2: nat, m: int)
    requires m > 0
    ensures ModPow(ModPow(g, e1, m), e2, m) == ModPow(g, e1 * e2, m)
  {
    ModPowIsPow(g, e1, m);
    ModPowIsPow(ModPow(g, e1, m), e2, m);
    ModPowIsPow(g, e1 * e2, m);
    PowModBase(Pow(g, e1), e2, m);
    PowMul(g, e1, e2);
  }

  /** Power of a product: (a*b)^e = a^e * b^e modulo m. */
  lemma ModPowProduct(a: int, b: int, e: nat, m: int)
    requires m > 0
    ensures ModPow(a * b, e, m) == (ModPow(a, e, m) * ModPow(b, e, m)) % m
  {
    ModPowIsPow(a * b, e, m);
    ModPowIsPow(a, e, m);
    ModPowIsPow(b, e, m);
    PowProduct(a, b, e);
    MulMod(Pow(a, e), Pow(b, e), m);
  }

  /** The base only matters modulo m. */
  lemma ModPowBase(b: int, e: nat, m: int)
    requires m > 0
    ensures ModPow(b % m, e, m) == ModPow(b, e, m)
  {
    ModPowIsPow(b % m, e, m);
    ModPowIsPow(b, e, m);
    PowModBase(b, e, m);
  }

  lemma {:induction false} ModPowOfOne(e: nat, m: int)
    requires m > 1
    ensures ModPow(1, e, m) == 1
  {
    if e > 0 {
      ModPowOfOne(e - 1, m);
      UnitFactor(1, m);
    }
  }

  /** g^(q*k) = 1 modulo m when g^q = 1. */
  lemma OrderMultiple(g: int, q: int, k: nat, m: int)
    requires m > 1 && q > 0
    requires ModPow(g, q, m) == 1
    ensures ModPow(g, q * k, m) == 1
  {
    ModPowMul(g, q, k, m);
    ModPowOfOne(k, m);
  }

  /** If g has order dividing q modulo m, exponents only matter modulo q. */
  lemma ExpModOrder(g: int, q: int, e: nat, m: int)
    requires m > 1 && q > 0
    requires ModPow(g, q, m) == 1
    ensures ModPow(g, e, m) == ModPow(g, e % q, m)
  {
    var k, rem := e / q, e % q;
    assert e == q * k + rem;
    ModPowAdd(g, q * k, rem, m);
    OrderMultiple(g, q, k, m);
    UnitFactor(ModPow(g, rem, m), m);
  }

  /** Adding a multiple of the order to the exponent changes nothing. */
  lemma ExpShiftOrder(g: int, q: int, e: nat, k: nat, m: int)
    requires m > 1 && q > 0
    requires ModPow(g, q, m) == 1
    ensures ModPow(g, e + q * k, m) == ModPow(g, e, m)
  {
    ModPowAdd(g, e, q * k, m);
    OrderMultiple(g, q, k, m);
    UnitFactor(ModPow(g, e, m), m);
  }

  /** Every power of an element of order dividing q also has order dividing q. */
  lemma PowerKeepsOrder(g: int, q: int, e: nat, m: int)
    requires m > 1 && q > 0
    requires ModPow(g, q, m) == 1
    ensures ModPow(ModPow(g, e, m), q, m) == 1
  {
    ModPowMul(g, e, q, m);
    assert e * q == q * e;
    OrderMultiple(g, q, e, m);
  }

  // ---------------------------------------------------------------------------
  // Inverses and Python's `pow` with a possibly negative exponent.
  // ---------------------------------------------------------------------------

  predicate IsInverse(a: int, m: int, j: int)
    requires m > 0
  {
    (a * j) % m == 1
  }

  /** Searches [i, m) for an inverse of a modulo m. */
  function FindInverse(a: int, m: int, i: nat): (r: Option<int>)
    requires m > 1 && i <= m
    ensures r.Some? ==> i <= r.value < m && IsInverse(a, m, r.value)
    ensures r.None? ==> forall j :: i <= j < m ==> !IsInverse(a, m, j)
    decreases m - i
  {
    if i == m then None
    else if IsInverse(a, m, i) then Some(i)
    else FindInverse(a, m, i + 1)
  }

  /** Modulo m an element has at most one inverse in [0, m), so the search
      returns the same value as any other way of computing it. */
  lemma InverseUnique(a: int, m: int, i: int, j: int)
    requires m > 1 && 0 <= i < m && 0 <= j < m
    requires IsInverse(a, m, i) && IsInverse(a, m, j)
    ensures i == j
  {
    InverseTimes(a, m, j, i);
    InverseTimes(a, m, i, j);
    assert i * (a * j) == j * (a * i);
  }

  /** Multiplying y by a*inv does not change y modulo m. */
  lemma InverseTimes(a: int, m: int, inv: int, y: int)
    requires m > 1 && 0 <= y < m && IsInverse(a, m, inv)
    ensures (y * (a * inv)) % m == y
  {
    MulModRight(y, a * inv, m);
    UnitFactor(y, m);
  }

  /** `pow(b, e, m)` as Python (3.8 and later) evaluates it: for a negative
      exponent the base is inverted modulo m first, and `ValueError` is raised
      when it has no inverse. */
  function PyPow(b: int, e: int, m: int): (r: Result<int, Error>)
    requires m > 1
    ensures r.Ok? ==> 0 <= r.value < m
    ensures e >= 0 ==> r.Ok? && r.value == Pow(b, e) % m
    ensures r.Err? <==> e < 0 && forall j :: 0 <= j < m ==> !IsInverse(b, m, j)
    ensures r.Err? ==> r.error == NotInvertible
    ensures r.Ok? && e < 0 ==> (r.value * ModPow(b, -e, m)) % m == 1
  {
    if e >= 0 then ModPowIsPow(b, e, m); Ok(ModPow(b, e, m))
    else
      match FindInverse(b, m, 0)
      case None => Err(NotInvertible)
      case Some(inv) =>
        NegativePowerCancels(b, inv, -e, m);
        Ok(ModPow(inv, -e, m))
  }

  /** With a non-negative exponent Python's `pow` is the recursive ModPow. */
  lemma PyPowNonNegative(b: int, e: nat, m: int)
    requires m > 1
    ensures PyPow(b, e, m) == Ok(ModPow(b, e, m))
  {
    ModPowIsPow(b, e, m);
  }

  /** inv^k * b^k = (inv*b)^k = 1 modulo m when inv is an inverse of b. */
  lemma NegativePowerCancels(b: int, inv: int, k: nat, m: int)
    requires m > 1 && IsInverse(b, m, inv)
    ensures (ModPow(inv, k, m) * ModPow(b, k, m)) % m == 1
  {
    ModPowProduct(inv, b, k, m);
    assert inv * b == b * inv;
    ModPowBase(b * inv, k, m);
    ModPowOfOne(k, m);
  }
}
