/**
 Decoding 128- and 256-bit integers from their 64-bit parts by shifting and OR-ing,
 on unbounded two's-complement integers.
 */
module WideIntegers {
  import opened Wrappers

  type int64 = x: int | -0x8000_0000_0000_0000 <= x < 0x8000_0000_0000_0000

  const WORD := 0x1_0000_0000_0000_0000
  const HALF_WORD := 0x8000_0000_0000_0000

  function Pow2(n: nat): nat {
    if n == 0 then 1 else 2 * Pow2(n - 1)
  }

  function Lsh(x: int, n: nat): int {
    x * Pow2(n)
  }

  function Magnitude(x: int): nat {
    if x < 0 then -x else x
  }

  /** Bitwise or; a negative number has infinitely many leading one bits. */
  function Or(a: int, b: int): int
    decreases Magnitude(a) + Magnitude(b)
  {
    if -1 <= a <= 0 && -1 <= b <= 0 then
      if a == 0 then b else a
    else
      2 * Or(a / 2, b / 2) + if a % 2 == 1 || b % 2 == 1 then 1 else 0
  }

  /** A bit of the two's-complement representation. */
  predicate Bit(x: int, n: nat)
    decreases n
  {
    if n == 0 then x % 2 == 1 else Bit(x / 2, n - 1)
  }

  /** Every bit of the result is set if and only if it is set in one of the numbers. */
  lemma {:induction false} OrIsBitwise(a: int, b: int, n: nat)
    ensures Bit(Or(a, b), n) <==> Bit(a, n) || Bit(b, n)
    decreases n
  {
    OrHalves(a, b);
    if n > 0 {
      OrIsBitwise(a / 2, b / 2, n - 1);
    }
  }

  lemma OrHalves(a: int, b: int)
    ensures Or(a, b) / 2 == Or(a / 2, b / 2)
    ensures Or(a, b) % 2 == 1 <==> a % 2 == 1 || b % 2 == 1
  {
  }

  lemma {:induction false} OrZeroIsIdentity(a: int)
    ensures Or(a, 0) == a
    decreases Magnitude(a)
  {
    if a < -1 || 0 < a {
      OrZeroIsIdentity(a / 2);
    }
  }

  /** Where the shifted number has only zero bits, or is addition. */
  lemma {:induction false} OrFillsTheGap(high: int, n: nat, low: nat)
    requires low < Pow2(n)
    ensures Or(Lsh(high, n), low) == Lsh(high, n) + low
  {
    if n == 0 {
      OrZeroIsIdentity(high);
    } else {
      var half := high * Pow2(n - 1);
      assert Lsh(high, n) == 2 * half;
      OrFillsTheGap(high, n - 1, low / 2);
    }
  }

  lemma Pow2Of64()
    ensures Pow2(64) == WORD
  {
    assert Pow2(4) == 16;
    Pow2Doubles(4);
    Pow2Doubles(8);
    Pow2Doubles(16);
    Pow2Doubles(32);
  }

  lemma Pow2Doubles(n: nat)
    ensures Pow2(n + n) == Pow2(n) * Pow2(n)
  {
    Pow2Adds(n, n);
  }

  lemma {:induction false} Pow2Adds(m: nat, n: nat)
    ensures Pow2(m + n) == Pow2(m) * Pow2(n)
  {
    if m > 0 {
      Pow2Adds(m - 1, n);
      TwiceProduct(Pow2(m - 1), Pow2(n));
    }
  }

  lemma TwiceProduct(p: nat, q: nat)
    ensures 2 * (p * q) == (2 * p) * q
  {
  }

  /** One decoding step: shift by a word and or in the next part. */
  lemma AppendWord(z: int, part: uint64)
    ensures Or(Lsh(z, 64), part) == z * WORD + part
  {
    Pow2Of64();
    OrFillsTheGap(z, 64, part);
  }

  datatype U128 = U128(hi: uint64, lo: uint64) {
    function Value(): nat { hi * WORD + lo }
  }

  datatype I128 = I128(hi: int64, lo: uint64) {
    function Value(): int { hi * WORD + lo }
  }

  datatype U256 = U256(hiHi: uint64, hiLo: uint64, loHi: uint64, loLo: uint64) {
    function Value(): nat { ((hiHi * WORD + hiLo) * WORD + loHi) * WORD + loLo }
  }

  datatype I256 = I256(hiHi: int64, hiLo: uint64, loHi: uint64, loLo: uint64) {
    function Value(): int { ((hiHi * WORD + hiLo) * WORD + loHi) * WORD + loLo }
  }

  method U128ToBig(p: U128) returns (z: int)
    ensures z == p.Value()
  {
    z := Lsh(p.hi, 64);
    z := Or(z, p.lo);
    AppendWord(p.hi, p.lo);
  }

  method I128ToBig(p: I128) returns (z: int)
    ensures z == p.Value()
  {
    z := Lsh(p.hi, 64);
    z := Or(z, p.lo);
    AppendWord(p.hi, p.lo);
  }

  method U256ToBig(p: U256) returns (z: int)
    ensures z == p.Value()
  {
    z := p.hiHi;
    AppendWord(z, p.hiLo);
    z := Or(Lsh(z, 64), p.hiLo);
    AppendWord(z, p.loHi);
    z := Or(Lsh(z, 64), p.loHi);
    AppendWord(z, p.loLo);
    z := Or(Lsh(z, 64), p.loLo);
  }

  method I256ToBig(p: I256) returns (z: int)
    ensures z == p.Value()
  {
    AppendWord(p.hiHi, p.hiLo);
    z := Or(Lsh(p.hiHi, 64), p.hiLo);
    AppendWord(z, p.loHi);
    z := Or(Lsh(z, 64), p.loHi);
    AppendWord(z, p.loLo);
    z := Or(Lsh(z, 64), p.loLo);
  }

  /** Unsigned 128-bit numbers and their parts correspond one to one. */
  lemma U128Bijection(p: U128, v: nat)
    ensures 0 <= p.Value() < WORD * WORD
    ensures v < WORD * WORD ==> exists q: U128 :: q.Value() == v
    ensures v < WORD * WORD ==> forall q: U128 :: q.Value() == v ==> q == U128(v / WORD, v % WORD)
  {
    if v < WORD * WORD {
      assert U128(v / WORD, v % WORD).Value() == v;
    }
  }

  /** Signed 128-bit numbers and their parts correspond one to one. */
  lemma I128Bijection(p: I128, v: int)
    ensures -HALF_WORD * WORD <= p.Value() < HALF_WORD * WORD
    ensures -HALF_WORD * WORD <= v < HALF_WORD * WORD ==>
              && (exists q: I128 :: q.Value() == v)
              && forall q: I128 :: q.Value() == v ==> q == I128(v / WORD, v % WORD)
  {
    if -HALF_WORD * WORD <= v < HALF_WORD * WORD {
      assert I128(v / WORD, v % WORD).Value() == v;
    }
  }

  /** Unsigned 256-bit numbers and their parts correspond one to one. */
  lemma U256Bijection(p: U256, v: nat)
    ensures 0 <= p.Value() < WORD * WORD * WORD * WORD
    ensures v < WORD * WORD * WORD * WORD ==>
              && (exists q: U256 :: q.Value() == v)
              && forall q: U256, r: U256 :: q.Value() == v && r.Value() == v ==> q == r
  {
    if v < WORD * WORD * WORD * WORD {
      var a, b, c := v / WORD, v / WORD / WORD, v / WORD / WORD / WORD;
      assert U256(c, b % WORD, a % WORD, v % WORD).Value() == v;
    }
  }

  /** Signed 256-bit numbers and their parts correspond one to one. */
  lemma I256Bijection(p: I256, v: int)
    ensures -HALF_WORD * WORD * WORD * WORD <= p.Value() < HALF_WORD * WORD * WORD * WORD
    ensures -HALF_WORD * WORD * WORD * WORD <= v < HALF_WORD * WORD * WORD * WORD ==>
              && (exists q: I256 :: q.Value() == v)
              && forall q: I256, r: I256 :: q.Value() == v && r.Value() == v ==> q == r
  {
    if -HALF_WORD * WORD * WORD * WORD <= v < HALF_WORD * WORD * WORD * WORD {
      var a, b, c := v / WORD, v / WORD / WORD, v / WORD / WORD / WORD;
      assert I256(c, b % WORD, a % WORD, v % WORD).Value() == v;
    }
  }
}
