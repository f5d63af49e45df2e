/** 64-bit words as non-negative integers: bit operations, shifts and wrapping arithmetic,
    with the few facts about them that the generator and the hash need. */
module Words {

  const WORDS := 0x1_0000_0000_0000_0000
  type Word = w: int | 0 <= w < WORDS

  /** Bitwise `&` on non-negative integers. */
  function BitAnd(a: nat, b: nat): (r: nat)
    ensures r <= a && r <= b
  {
    if a == 0 || b == 0 then 0 else (if a % 2 == 1 && b % 2 == 1 then 1 else 0) + 2 * BitAnd(a / 2, b / 2)
  }

  function PowerOfTwo(k: nat): (p: nat)
    ensures p > 0
  {
    if k == 0 then 1 else 2 * PowerOfTwo(k - 1)
  }

  lemma {:induction false} AndWithMask(v: nat, k: nat)
    ensures PowerOfTwo(k) > 0 && BitAnd(v, PowerOfTwo(k) - 1) == v % PowerOfTwo(k)
  {
    if k > 0 {
      var p := PowerOfTwo(k - 1);
      AndWithMask(v / 2, k - 1);
      AndWithOdd(v, p - 1);
      HalvedRemainder(v, p);
      assert PowerOfTwo(k) == 2 * p;
      assert 2 * (p - 1) + 1 == 2 * p - 1;
    }
  }

  lemma AndWithOdd(v: nat, m: nat)
    ensures BitAnd(v, 2 * m + 1) == v % 2 + 2 * BitAnd(v / 2, m)
  {
    assert (2 * m + 1) / 2 == m && (2 * m + 1) % 2 == 1;
  }

  lemma HalvedRemainder(v: nat, p: nat)
    requires p > 0
    ensures v % (2 * p) == v % 2 + 2 * ((v / 2) % p)
  {
    var d, r := v / 2 / p, v / 2 % p;
    assert v / 2 == p * d + r;
    assert v == (2 * p) * d + (v % 2 + 2 * r);
    QuotientIsUnique(v, 2 * p, d, v % 2 + 2 * r);
  }

  lemma SmallMultipleIsZero(n: int, x: int)
    requires n > 0 && -n < n * x < n
    ensures x == 0
  {
    assert x >= 1 ==> n * x >= n;
    assert x <= -1 ==> n * x <= -n;
  }

  lemma QuotientIsUnique(v: int, n: int, d: int, r: int)
    requires n > 0 && v == n * d + r && 0 <= r < n
    ensures v / n == d && v % n == r
  {
    var d', r' := v / n, v % n;
    assert v == n * d' + r' && 0 <= r' < n;
    assert n * (d - d') == n * d - n * d';
    SmallMultipleIsZero(n, d - d');
  }

  lemma {:induction false} AndWithItself(m: nat)
    ensures BitAnd(m, m) == m
  {
    if m > 0 {
      AndWithItself(m / 2);
    }
  }

  lemma {:induction false} PowerOfTwoSum(a: nat, b: nat)
    ensures PowerOfTwo(a + b) == PowerOfTwo(a) * PowerOfTwo(b) && PowerOfTwo(a) > 0
  {
    if a > 0 {
      PowerOfTwoSum(a - 1, b);
    }
  }

  lemma {:induction false} PowerOfTwoGrows(a: nat, b: nat)
    requires a < b
    ensures PowerOfTwo(a) < PowerOfTwo(b)
  {
    PowerOfTwoSum(a, 0);
    if a + 1 < b {
      PowerOfTwoGrows(a, b - 1);
    }
  }

  lemma HalfWords()
    ensures PowerOfTwo(8) == 0x100 && PowerOfTwo(15) == 0x8000 && PowerOfTwo(16) == 0x1_0000
  {
    assert PowerOfTwo(4) == 16;
    assert PowerOfTwo(8) == 256;
    assert PowerOfTwo(12) == 4096;
  }

  lemma WideWords()
    ensures PowerOfTwo(31) == 0x8000_0000 && PowerOfTwo(63) == WORDS / 2 && PowerOfTwo(64) == WORDS
  {
    HalfWords();
    assert PowerOfTwo(31) == 0x8000_0000 by { PowerOfTwoSum(16, 15); }
    assert PowerOfTwo(32) == 0x1_0000_0000;
    assert PowerOfTwo(63) == WORDS / 2 by { PowerOfTwoSum(32, 31); }
  }

  /** Bitwise `^` on non-negative integers. */
  function BitXor(a: nat, b: nat): nat {
    if a == 0 && b == 0 then 0 else (if a % 2 != b % 2 then 1 else 0) + 2 * BitXor(a / 2, b / 2)
  }

  lemma {:induction false} XorStaysBelow(a: nat, b: nat, k: nat)
    requires a < PowerOfTwo(k) && b < PowerOfTwo(k)
    ensures BitXor(a, b) < PowerOfTwo(k)
  {
    if k > 0 {
      XorStaysBelow(a / 2, b / 2, k - 1);
    }
  }

  function Xor(a: Word, b: Word): Word {
    WideWords();
    XorStaysBelow(a, b, 64);
    BitXor(a, b)
  }

  lemma {:induction false} XorCancels(a: nat, b: nat)
    ensures BitXor(BitXor(a, b), b) == a
  {
    if a != 0 || b != 0 {
      XorCancels(a / 2, b / 2);
      var x := BitXor(a, b);
      assert x / 2 == BitXor(a / 2, b / 2) && (x % 2 == 1 <==> a % 2 != b % 2);
    }
  }

  lemma {:induction false} XorZero(a: nat)
    ensures BitXor(a, 0) == a
  {
    if a != 0 {
      XorZero(a / 2);
    }
  }

  /** `x >> bits`. */
  function Halved(x: nat, bits: nat): (r: nat)
    ensures r <= x
  {
    if bits == 0 then x else Halved(x / 2, bits - 1)
  }

  lemma {:induction false} HalvedBelow(x: nat, bits: nat, k: nat)
    requires x < PowerOfTwo(bits + k)
    ensures Halved(x, bits) < PowerOfTwo(k)
  {
    if bits > 0 {
      HalvedBelow(x / 2, bits - 1, k);
    }
  }

  /** Shifting right distributes over `^`. */
  lemma {:induction false} XorShiftsRight(a: nat, b: nat, bits: nat)
    ensures Halved(BitXor(a, b), bits) == BitXor(Halved(a, bits), Halved(b, bits))
  {
    if bits > 0 {
      assert BitXor(a, b) / 2 == BitXor(a / 2, b / 2);
      XorShiftsRight(a / 2, b / 2, bits - 1);
    }
  }

  /** Words without common bits: `^` is addition. */
  lemma {:induction false} XorDisjoint(a: nat, b: nat, k: nat)
    requires b < PowerOfTwo(k)
    ensures BitXor(a * PowerOfTwo(k), b) == a * PowerOfTwo(k) + b
  {
    if k == 0 {
      XorZero(a);
    } else {
      var x := a * PowerOfTwo(k - 1);
      assert a * PowerOfTwo(k) == 2 * x;
      XorDisjoint(a, b / 2, k - 1);
      assert (2 * x) / 2 == x && (2 * x) % 2 == 0;
    }
  }

  lemma XorEven(x: nat, y: nat)
    ensures BitXor(2 * x, 2 * y) == 2 * BitXor(x, y)
  {
    assert (2 * x) / 2 == x && (2 * y) / 2 == y && (2 * x) % 2 == (2 * y) % 2 == 0;
  }

  lemma Doubled(a: nat, k: nat)
    requires k > 0
    ensures a * PowerOfTwo(k) == 2 * (a * PowerOfTwo(k - 1))
  {
  }

  lemma {:induction false} XorScales(a: nat, b: nat, k: nat)
    ensures BitXor(a * PowerOfTwo(k), b * PowerOfTwo(k)) == BitXor(a, b) * PowerOfTwo(k)
  {
    if k > 0 {
      XorScales(a, b, k - 1);
      Doubled(a, k);
      Doubled(b, k);
      Doubled(BitXor(a, b), k);
      XorEven(a * PowerOfTwo(k - 1), b * PowerOfTwo(k - 1));
    }
  }

  /** Bitwise `|` on non-negative integers. */
  function BitOr(a: nat, b: nat): nat {
    if a == 0 && b == 0 then 0 else (if a % 2 == 1 || b % 2 == 1 then 1 else 0) + 2 * BitOr(a / 2, b / 2)
  }

  lemma {:induction false} OrStaysBelow(a: nat, b: nat, k: nat)
    requires a < PowerOfTwo(k) && b < PowerOfTwo(k)
    ensures BitOr(a, b) < PowerOfTwo(k)
  {
    if k > 0 {
      OrStaysBelow(a / 2, b / 2, k - 1);
    }
  }

  lemma {:induction false} OrZero(a: nat)
    ensures BitOr(0, a) == a
  {
    if a != 0 {
      OrZero(a / 2);
    }
  }

  /** Words without common bits: `|` is addition. */
  lemma {:induction false} OrDisjoint(a: nat, b: nat, k: nat)
    requires a < PowerOfTwo(k)
    ensures BitOr(a, b * PowerOfTwo(k)) == a + b * PowerOfTwo(k)
  {
    if k == 0 {
      OrZero(b);
    } else {
      var x := b * PowerOfTwo(k - 1);
      assert b * PowerOfTwo(k) == 2 * x;
      OrDisjoint(a / 2, b, k - 1);
      assert (2 * x) / 2 == x && (2 * x) % 2 == 0;
    }
  }

  function Or(a: Word, b: Word): Word {
    WideWords();
    OrStaysBelow(a, b, 64);
    BitOr(a, b)
  }

  /** `>>` is division by a power of two. */
  lemma {:induction false} HalvedIsQuotient(x: nat, bits: nat)
    ensures Halved(x, bits) == x / PowerOfTwo(bits)
  {
    if bits > 0 {
      HalvedIsQuotient(x / 2, bits - 1);
      QuotientOfHalf(x, PowerOfTwo(bits - 1));
    }
  }

  lemma QuotientOfHalf(x: nat, p: nat)
    requires p > 0
    ensures x / (2 * p) == (x / 2) / p
  {
    var d, r := x / 2 / p, x / 2 % p;
    assert x / 2 == p * d + r;
    assert x == (2 * p) * d + (x % 2 + 2 * r);
    QuotientIsUnique(x, 2 * p, d, x % 2 + 2 * r);
  }

  /** Bit i of a number. */
  function Bit(x: nat, i: nat): nat {
    (x / PowerOfTwo(i)) % 2
  }

  lemma {:induction false} AndShiftsRight(a: nat, b: nat, bits: nat)
    ensures Halved(BitAnd(a, b), bits) == BitAnd(Halved(a, bits), Halved(b, bits))
  {
    if bits > 0 {
      assert BitAnd(a, b) / 2 == BitAnd(a / 2, b / 2);
      AndShiftsRight(a / 2, b / 2, bits - 1);
    }
  }

  lemma {:induction false} OrShiftsRight(a: nat, b: nat, bits: nat)
    ensures Halved(BitOr(a, b), bits) == BitOr(Halved(a, bits), Halved(b, bits))
  {
    if bits > 0 {
      assert BitOr(a, b) / 2 == BitOr(a / 2, b / 2);
      OrShiftsRight(a / 2, b / 2, bits - 1);
    }
  }

  /** The operations work bit by bit. */
  lemma BitByBit(a: nat, b: nat, i: nat)
    ensures Bit(BitXor(a, b), i) == (if Bit(a, i) != Bit(b, i) then 1 else 0)
    ensures Bit(BitAnd(a, b), i) == (if Bit(a, i) == 1 && Bit(b, i) == 1 then 1 else 0)
    ensures Bit(BitOr(a, b), i) == (if Bit(a, i) == 1 || Bit(b, i) == 1 then 1 else 0)
  {
    XorShiftsRight(a, b, i);
    AndShiftsRight(a, b, i);
    OrShiftsRight(a, b, i);
    HalvedIsQuotient(a, i);
    HalvedIsQuotient(b, i);
    HalvedIsQuotient(BitXor(a, b), i);
    HalvedIsQuotient(BitAnd(a, b), i);
    HalvedIsQuotient(BitOr(a, b), i);
    LowestBits(Halved(a, i), Halved(b, i));
  }

  lemma LowestBits(a: nat, b: nat)
    ensures BitXor(a, b) % 2 == (if a % 2 != b % 2 then 1 else 0)
    ensures BitAnd(a, b) % 2 == (if a % 2 == 1 && b % 2 == 1 then 1 else 0)
    ensures BitOr(a, b) % 2 == (if a % 2 == 1 || b % 2 == 1 then 1 else 0)
  {
    LowestOf(BitXor(a, b), if a % 2 != b % 2 then 1 else 0, BitXor(a / 2, b / 2));
    if a != 0 && b != 0 {
      LowestOf(BitAnd(a, b), if a % 2 == 1 && b % 2 == 1 then 1 else 0, BitAnd(a / 2, b / 2));
    }
    LowestOf(BitOr(a, b), if a % 2 == 1 || b % 2 == 1 then 1 else 0, BitOr(a / 2, b / 2));
  }

  lemma LowestOf(x: nat, bit: nat, rest: nat)
    requires x == bit + 2 * rest && bit < 2
    ensures x % 2 == bit
  {
  }

  lemma {:induction false} OrCommutes(a: nat, b: nat)
    ensures BitOr(a, b) == BitOr(b, a)
  {
    if a != 0 || b != 0 {
      OrCommutes(a / 2, b / 2);
    }
  }

  function ShiftLeft(x: Word, bits: nat): Word {
    (x * PowerOfTwo(bits)) % WORDS
  }

  function ShiftRight(x: Word, bits: nat): Word {
    Halved(x, bits)
  }

  function Plus(a: Word, b: Word): Word {
    (a + b) % WORDS
  }

  function Times(a: Word, b: Word): Word {
    (a * b) % WORDS
  }

  /** Multiplying by c and then by its inverse modulo 2^64 changes nothing. */
  lemma TimesCancels(k: Word, c: Word, inverse: Word)
    requires Times(c, inverse) == 1
    ensures Times(Times(k, c), inverse) == k
  {
    var q, m := (k * c) / WORDS, (k * c) % WORDS;
    var t := (c * inverse) / WORDS;
    assert k * c == WORDS * q + m;
    assert c * inverse == WORDS * t + 1;
    assert (k * c) * inverse == k * (c * inverse);
    assert (WORDS * q + m) * inverse == WORDS * (q * inverse) + m * inverse;
    assert k * (WORDS * t + 1) == WORDS * (t * k) + k;
    assert m * inverse == WORDS * (t * k - q * inverse) + k;
    QuotientIsUnique(m * inverse, WORDS, t * k - q * inverse, k);
  }
}
