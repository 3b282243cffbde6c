/** lib/libgcc_compat.c: 64-bit division by binary long division.  Unsigned values are
    numbers below 2^64; conversions between signed and unsigned, and negation, wrap as in
    two's complement.
 */
module LongDivision {
  import opened Bits

  const U64: nat := 0x1_0000_0000_0000_0000
  const I64: int := 0x8000_0000_0000_0000

  /** x >> i */
  function Shr(x: nat, i: nat): nat
  {
    if i == 0 then x else Shr(x, i - 1) / 2
  }

  lemma {:induction false} ShrSmall(x: nat, i: nat)
    ensures Shr(x, i) <= x && (i > 0 ==> Shr(x, i) <= x / 2)
  {
    if i > 0 { ShrSmall(x, i - 1); }
  }

  lemma {:induction false} ShrBound(x: nat, i: nat)
    requires x < Pow2(i)
    ensures Shr(x, i) == 0
  {
    ShrBelow(x, i, 0);
  }

  lemma {:induction false} ShrBelow(x: nat, i: nat, j: nat)
    requires x < Pow2(i + j)
    ensures Shr(x, i) < Pow2(j)
    decreases i
  {
    if i > 0 {
      assert i - 1 + (j + 1) == i + j;
      ShrBelow(x, i - 1, j + 1);
    }
  }

  /** q << i */
  ghost function Shl(q: nat, i: nat): nat
  {
    if i == 0 then q else 2 * Shl(q, i - 1)
  }

  /** Setting the bit below the digits of q appends a one to them. */
  lemma {:induction false} NextDigit(q: nat, i: nat)
    ensures With(Shl(q, i + 1), i) == Shl(2 * q + 1, i) && Shl(q, i + 1) == Shl(2 * q, i)
  {
    if i > 0 {
      NextDigit(q, i - 1);
      assert Shl(q, i + 1) / 2 == Shl(q, i);
    }
  }

  /** The loop has divided the leading bits: all but the lowest `i` bits of n. */
  ghost predicate Divided(n: nat, d: nat, i: nat, q: nat, r: nat)
  {
    r < d && Shr(n, i) == q * d + r
  }

  /** One turn: the next bit comes down, and the divisor goes in or not. */
  lemma {:induction false} OneBit(n: nat, d: nat, i: nat, q: nat, r: nat)
    requires i > 0 && Divided(n, d, i, q, r)
    ensures var r' := 2 * r + Shr(n, i - 1) % 2;
      if r' >= d then Divided(n, d, i - 1, 2 * q + 1, r' - d) else Divided(n, d, i - 1, 2 * q, r')
  {
    assert Shr(n, i - 1) == 2 * Shr(n, i) + Shr(n, i - 1) % 2;
    assert (2 * q) * d == 2 * (q * d);
    assert (2 * q + 1) * d == 2 * (q * d) + d;
  }

  /** remainder <<= 1 loses no bit: the remainder so far is below 2^63, even when the divisor
      is larger. */
  lemma {:induction false} NoBitLost(n: nat, d: nat, i: nat, q: nat, r: nat)
    requires n < U64 && i > 0 && Divided(n, d, i, q, r)
    ensures 2 * r + 1 < U64
  {
    ShrSmall(n, i);
    assert q * d >= 0;
  }

  /** What the loops compute is the quotient and the remainder. */
  lemma {:induction false} DivisionIsUnique(n: nat, d: nat, q: nat, r: nat)
    requires d > 0 && n == q * d + r && r < d
    ensures q == n / d && r == n % d
  {
    var q', r' := n / d, n % d;
    assert n == q' * d + r';
    if q < q' { Gap(q, q', d); }
    if q' < q { Gap(q', q, d); }
  }

  lemma {:induction false} Gap(a: nat, b: nat, n: nat)
    requires a < b
    ensures a * n + n <= b * n
  {
    assert (b - a - 1) * n >= 0;
    assert b * n == a * n + n + (b - a - 1) * n;
  }

  /** The state of the loops before the turn for bit i - 1. */
  ghost predicate Dividing(n: nat, d: nat, i: nat, q: nat, quotient: nat, r: nat)
  {
    Divided(n, d, i, q, r) && quotient == Shl(q, i)
  }

  lemma {:induction false} Turn(n: nat, d: nat, i: nat, q: nat, quotient: nat, r: nat)
    requires n < U64 && i > 0 && Dividing(n, d, i, q, quotient, r)
    ensures 2 * r + 1 < U64
    ensures var r' := 2 * r + Shr(n, i - 1) % 2;
      if r' >= d then Dividing(n, d, i - 1, 2 * q + 1, With(quotient, i - 1), r' - d)
      else Dividing(n, d, i - 1, 2 * q, quotient, r')
  {
    NoBitLost(n, d, i, q, r);
    OneBit(n, d, i, q, r);
    NextDigit(q, i - 1);
  }

  lemma {:induction false} Starts(n: nat, d: nat)
    requires n < U64 && d > 0
    ensures Dividing(n, d, 64, 0, 0, 0)
  {
    assert Pow2(8) == 0x100;
    assert Pow2(16) == 0x1_0000;
    assert Pow2(24) == 0x100_0000;
    assert Pow2(32) == 0x1_0000_0000;
    assert Pow2(40) == 0x100_0000_0000;
    assert Pow2(48) == 0x1_0000_0000_0000;
    assert Pow2(56) == 0x100_0000_0000_0000;
    ShrBound(n, 64);
    NothingShifted(64);
  }

  lemma {:induction false} NothingShifted(i: nat)
    ensures Shl(0, i) == 0
  {
    if i > 0 { NothingShifted(i - 1); }
  }

  lemma {:induction false} Ends(n: nat, d: nat, q: nat, quotient: nat, r: nat)
    requires d > 0 && Dividing(n, d, 0, q, quotient, r)
    ensures quotient == n / d && r == n % d
  {
    DivisionIsUnique(n, d, q, r);
  }

  /** The loop of __udivdi3. */
  method DivideLoop(n: nat, d: nat) returns (quotient: nat)
    requires n < U64 && 0 < d < U64
    ensures quotient == n / d
  {
    quotient := 0;
    var remainder: nat := 0;
    var i: nat := 64;
    ghost var q: nat := 0;
    Starts(n, d);
    while i > 0
      invariant Dividing(n, d, i, q, quotient, remainder)
    {
      Turn(n, d, i, q, quotient, remainder);
      i := i - 1;
      remainder := remainder * 2 % U64;
      remainder := remainder + Shr(n, i) % 2;
      q := 2 * q;
      if remainder >= d {
        remainder := remainder - d;
        quotient := With(quotient, i);
        q := q + 1;
      }
    }
    Ends(n, d, q, quotient, remainder);
  }

  /** The loop of __umoddi3. */
  method RemainderLoop(n: nat, d: nat) returns (remainder: nat)
    requires n < U64 && 0 < d < U64
    ensures remainder == n % d
  {
    remainder := 0;
    var i: nat := 64;
    ghost var q: nat, quotient: nat := 0, 0;
    Starts(n, d);
    while i > 0
      invariant Dividing(n, d, i, q, quotient, remainder)
    {
      Turn(n, d, i, q, quotient, remainder);
      i := i - 1;
      remainder := remainder * 2 % U64;
      remainder := remainder + Shr(n, i) % 2;
      q := 2 * q;
      if remainder >= d {
        remainder := remainder - d;
        quotient := With(quotient, i);
        q := q + 1;
      }
    }
    Ends(n, d, q, quotient, remainder);
  }

  /** Division with 0 for a division by 0, as both unsigned forms define it. */
  function Quotient(n: nat, d: nat): nat { if d == 0 then 0 else n / d }

  function Remainder(n: nat, d: nat): nat { if d == 0 then 0 else n % d }

  lemma {:induction false} Shortcuts(n: nat, d: nat)
    ensures 0 <= n < d ==> n / d == 0 && n % d == n
    ensures n == d > 0 ==> n / d == 1 && n % d == 0
  {
    if 0 < d && n < d { DivisionIsUnique(n, d, 0, n); }
    if n == d > 0 { DivisionIsUnique(n, d, 1, 0); }
  }

  /** __udivdi3 */
  method UDiv(n: nat, d: nat) returns (q: nat)
    requires n < U64 && d < U64
    ensures q == Quotient(n, d)
  {
    Shortcuts(n, d);
    if d == 0 || d > n {
      return 0;
    }
    if d == n {
      return 1;
    }
    if Shr(n, 32) == 0 && Shr(d, 32) == 0 {
      return n / d;
    }
    q := DivideLoop(n, d);
  }

  /** __umoddi3 */
  method UMod(n: nat, d: nat) returns (r: nat)
    requires n < U64 && d < U64
    ensures r == Remainder(n, d)
  {
    Shortcuts(n, d);
    if d == 0 {
      return 0;
    }
    if d > n {
      return n;
    }
    if d == n {
      return 0;
    }
    if Shr(n, 32) == 0 && Shr(d, 32) == 0 {
      return n % d;
    }
    r := RemainderLoop(n, d);
  }

  // ----- signed forms -----

  predicate IsI64(x: int) { -I64 <= x < I64 }

  /** The conversion to uint64_t of a value or of its negation. */
  function ToUnsigned(x: int): nat
    requires -I64 <= x <= I64
  {
    if x < 0 then x + U64 else x
  }

  function ToSigned(x: nat): int
    requires x < U64
  {
    if x < I64 then x else x - U64
  }

  function Negate(x: int): int
    requires IsI64(x)
  {
    if x == -I64 then x else -x
  }

  function Magnitude(x: int): nat { if x < 0 then -x else x }

  lemma {:induction false} Magnitudes(x: int)
    requires IsI64(x)
    ensures Magnitude(x) < U64 && Magnitude(x) == ToUnsigned(if x < 0 then Negate(x) else x)
  {
  }

  lemma {:induction false} QuotientSmall(n: nat, d: nat)
    requires d > 0
    ensures n / d <= n && n % d <= n && (n / d == n > 0 ==> d == 1)
  {
    var q, r := n / d, n % d;
    assert n == q * d + r;
    if d > 1 { AtLeastTwice(q, d); } else { assert q * 1 == q; }
  }

  lemma {:induction false} AtLeastTwice(q: nat, d: nat)
    requires d > 1
    ensures q * d >= 2 * q
  {
    Gap(1, d, q);
  }

  ghost function Signed(negative: bool, x: int): int { if negative then -x else x }

  /** __divdi3: the quotient rounds towards zero, except that INT64_MIN / -1 wraps. */
  method Div(n: int, d: int) returns (q: int)
    requires IsI64(n) && IsI64(d)
    ensures d == 0 ==> q == 0
    ensures d != 0 ==>
      q == if n == -I64 && d == -1 then -I64 else Signed((n < 0) != (d < 0), Magnitude(n) / Magnitude(d))
  {
    if d == 0 {
      return 0;
    }
    Magnitudes(n);
    Magnitudes(d);
    var negative := false;
    var un, ud := ToUnsigned(n), ToUnsigned(d);
    if n < 0 {
      negative := !negative;
      un := ToUnsigned(Negate(n));
    }
    if d < 0 {
      negative := !negative;
      ud := ToUnsigned(Negate(d));
    }
    var result := UDiv(un, ud);
    QuotientSmall(un, ud);
    q := if negative then Negate(ToSigned(result)) else ToSigned(result);
  }

  /** __moddi3: the remainder has the sign of the dividend. */
  method Mod(n: int, d: int) returns (r: int)
    requires IsI64(n) && IsI64(d)
    ensures d == 0 ==> r == 0
    ensures d != 0 ==> r == Signed(n < 0, Magnitude(n) % Magnitude(d))
  {
    if d == 0 {
      return 0;
    }
    Magnitudes(n);
    Magnitudes(d);
    var un, ud := ToUnsigned(n), ToUnsigned(d);
    if n < 0 {
      un := ToUnsigned(Negate(n));
    }
    if d < 0 {
      ud := ToUnsigned(Negate(d));
    }
    var result := UMod(un, ud);
    QuotientSmall(un, ud);
    r := if n < 0 then Negate(ToSigned(result)) else ToSigned(result);
  }

  /** What C asks of / and %. */
  ghost predicate Exact(n: int, d: int, q: int, r: int)
  {
    n == q * d + r && Magnitude(r) < Magnitude(d) && (r == 0 || (r < 0 <==> n < 0))
  }

  lemma {:induction false} SignedIsExact(n: int, d: int)
    requires d != 0
    ensures Exact(n, d, Signed((n < 0) != (d < 0), Magnitude(n) / Magnitude(d)), Signed(n < 0,
      Magnitude(n) % Magnitude(d)))
  {
    var a, b := Magnitude(n), Magnitude(d);
    var q, r := a / b, a % b;
    assert a == q * b + r;
    assert (-q) * d == -(q * d) && q * (-d) == -(q * d);
  }

  /** The signed forms are exact for every pair but INT64_MIN and -1. */
  method DivMod(n: int, d: int) returns (q: int, r: int)
    requires IsI64(n) && IsI64(d) && d != 0
    ensures Exact(n, d, q, r) <==> !(n == -I64 && d == -1)
  {
    q := Div(n, d);
    r := Mod(n, d);
    SignedIsExact(n, d);
  }
}
