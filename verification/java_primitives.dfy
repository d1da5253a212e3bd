/** Java's fixed-width integer types and the two Guava helpers on `long`
    that the element identity contract relies on: `Longs.compare` and
    `Longs.hashCode`. Dafny integers are unbounded, so the 64-bit and 32-bit
    ranges and the narrowing `(int)` cast are written out explicitly. */
module JavaPrimitives {

  const TWO_32: int := 0x1_0000_0000
  const TWO_64: int := 0x1_0000_0000_0000_0000

  /** Java `long`: a signed 64-bit two's-complement integer. */
  type Long = x: int | -0x8000_0000_0000_0000 <= x < 0x8000_0000_0000_0000

  /** Java `int`: a signed 32-bit two's-complement integer. */
  type Int32 = x: int | -0x8000_0000 <= x < 0x8000_0000

  /** The 64 bits of a `long`, read as an unsigned number (two's complement). */
  function Unsigned64(x: Long): (u: nat)
    ensures u < TWO_64
    ensures (u - x) % TWO_64 == 0
    ensures 0 <= x ==> u == x
  {
    if x < 0 then x + TWO_64 else x
  }

  /** Java's `(int)` narrowing of a value whose low 32 bits, read unsigned,
      are `bits`: bit 31 becomes the sign bit. */
  function Int32FromBits(bits: nat): (i: Int32)
    requires bits < TWO_32
    ensures (i - bits) % TWO_32 == 0
    ensures bits < 0x8000_0000 ==> i == bits
  {
    if bits < 0x8000_0000 then bits else bits - TWO_32
  }

  /** Guava `Longs.compare(a, b)`: -1, 0 or 1 as `a` is less than, equal to
      or greater than `b`. Only the sign of the result is promised. */
  function LongsCompare(a: Long, b: Long): (c: int)
    ensures c < 0 <==> a < b
    ensures c == 0 <==> a == b
    ensures c > 0 <==> a > b
  {
    if a < b then -1 else if a > b then 1 else 0
  }

  /** Bitwise exclusive or of two naturals, one binary digit at a time. */
  function Xor(a: nat, b: nat): nat
    decreases a + b
  {
    if a == 0 && b == 0 then 0
    else 2 * Xor(a / 2, b / 2) + (a % 2 + b % 2) % 2
  }

  /** 2 raised to the power `n`. */
  function Pow2(n: nat): (p: nat)
    ensures p >= 1
  {
    if n == 0 then 1 else 2 * Pow2(n - 1)
  }

  /** Powers of two multiply by adding exponents. */
  lemma {:induction false} Pow2Add(m: nat, n: nat)
    ensures Pow2(m + n) == Pow2(m) * Pow2(n)
    decreases m
  {
    if m > 0 {
      Pow2Add(m - 1, n);
    }
  }

  /** The 32-bit word has `Pow2(32)` values. */
  lemma Pow2Of32()
    ensures Pow2(32) == TWO_32
  {
    assert Pow2(2) == 4;
    Pow2Add(2, 2);
    Pow2Add(4, 4);
    Pow2Add(8, 8);
    Pow2Add(16, 16);
  }

  /** Xor of two `n`-bit numbers is an `n`-bit number. */
  lemma {:induction false} XorBelow(a: nat, b: nat, n: nat)
    requires a < Pow2(n) && b < Pow2(n)
    ensures Xor(a, b) < Pow2(n)
    decreases n
  {
    if a == 0 && b == 0 {
    } else {
      assert n > 0;
      XorBelow(a / 2, b / 2, n - 1);
    }
  }

  /** Zero is the identity of xor. */
  lemma {:induction false} XorZero(a: nat)
    ensures Xor(a, 0) == a
    decreases a
  {
    if a != 0 {
      XorZero(a / 2);
    }
  }

  /** A number xor itself is zero. */
  lemma {:induction false} XorSelf(a: nat)
    ensures Xor(a, a) == 0
    decreases a
  {
    if a != 0 {
      XorSelf(a / 2);
    }
  }

  /** Guava `Longs.hashCode(v)`, which is Java's `Long.hashCode(v)`:
      `(int) (v ^ (v >>> 32))`. The narrowing keeps the low 32 bits of the
      xor, which are the low word of `v` xor its high word. */
  function LongsHashCode(v: Long): (h: Int32)
    ensures 0 <= v < 0x8000_0000 ==> h == v
    ensures v == -1 ==> h == 0
  {
    var u := Unsigned64(v);
    var high := u / TWO_32;
    var low := u % TWO_32;
    assert Pow2(32) == TWO_32 by { Pow2Of32(); }
    assert high < TWO_32;
    XorBelow(low, high, 32);
    XorZero(low);
    XorSelf(low);
    Int32FromBits(Xor(low, high))
  }
}
