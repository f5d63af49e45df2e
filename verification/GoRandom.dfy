/** The Go-compatible generator (src/go_random.cpp): Schrage's modular product, the seeded
    607-word table, the lagged-Fibonacci ring, and rejection sampling. */
module GoRandom {
  import opened Words

  const MODULUS := 0x7FFF_FFFF     // int32_max
  const MULTIPLIER := 48271
  const RNG_LEN := 607
  const RNG_TAP := 273
  const DRAWS := 0x8000_0000       // 2^31, the number of values of Int31

  predicate FitsInt32(x: int) {
    -0x8000_0000 <= x < 0x8000_0000
  }

  // ----- SeedRand -----

  function SeedRand(x: int): int
    requires 0 <= x <= MODULUS
  {
    var hi, lo := x / 44488, x % 44488;
    var y := MULTIPLIER * lo - 3399 * hi;
    if y < 0 then y + MODULUS else y
  }

  /** Schrage's form is the modular product, and nothing it computes leaves 32 bits. */
  lemma SeedRandIsModularProduct(x: int)
    requires 0 <= x <= MODULUS
    ensures SeedRand(x) == (MULTIPLIER * x) % MODULUS
    ensures var hi, lo := x / 44488, x % 44488;
            FitsInt32(MULTIPLIER * lo) && FitsInt32(3399 * hi) && FitsInt32(MULTIPLIER * lo - 3399 * hi)
  {
    var hi, lo := x / 44488, x % 44488;
    assert x == 44488 * hi + lo && 0 <= lo < 44488 && 0 <= hi <= 48271;
    var y := MULTIPLIER * lo - 3399 * hi;
    assert MULTIPLIER * x == y + MODULUS * hi;
    QuotientIsUnique(MULTIPLIER * x, MODULUS, if y < 0 then hi - 1 else hi, SeedRand(x));
  }

  function SeedRandInverse(y: int): int {
    (1899818559 * y) % MODULUS
  }

  lemma ModMul(a: int, b: int)
    ensures (a * (b % MODULUS)) % MODULUS == (a * b) % MODULUS
  {
    var k, r := b / MODULUS, b % MODULUS;
    assert b == MODULUS * k + r;
    assert a * b == a * r + MODULUS * (a * k) by {
      assert a * (MODULUS * k + r) == a * (MODULUS * k) + a * r;
      assert a * (MODULUS * k) == MODULUS * (a * k);
    }
    AddMultiple(a * r, a * k);
  }

  lemma AddMultiple(x: int, k: int)
    ensures (x + MODULUS * k) % MODULUS == x % MODULUS
  {
    QuotientIsUnique(x + MODULUS * k, MODULUS, x / MODULUS + k, x % MODULUS);
  }

  lemma InverseConstant(x: int)
    requires 0 <= x < MODULUS
    ensures (1899818559 * (MULTIPLIER * x)) % MODULUS == x
    ensures (MULTIPLIER * (1899818559 * x)) % MODULUS == x
  {
    assert 1899818559 * MULTIPLIER == 1 + MODULUS * 42704;
    AddMultiple(x, 42704 * x);
    assert x % MODULUS == x;
  }

  lemma SeedRandUndone(x: int)
    requires 0 <= x < MODULUS
    ensures SeedRandInverse(SeedRand(x)) == x && SeedRand(SeedRandInverse(x)) == x
    ensures 0 <= SeedRand(x) < MODULUS && 0 <= SeedRandInverse(x) < MODULUS
  {
    InverseConstant(x);
    SeedRandIsModularProduct(x);
    ModMul(1899818559, MULTIPLIER * x);
    ModMul(MULTIPLIER, 1899818559 * x);
    SeedRandIsModularProduct(SeedRandInverse(x));
  }

  /** `SeedRand` is a bijection of 1 .. 2^31-2. */
  lemma SeedRandIsBijection(x: int)
    requires 1 <= x < MODULUS
    ensures 1 <= SeedRand(x) < MODULUS && SeedRandInverse(SeedRand(x)) == x
    ensures 1 <= SeedRandInverse(x) < MODULUS && SeedRand(SeedRandInverse(x)) == x
  {
    SeedRandUndone(x);
    assert SeedRand(0) == 0 && SeedRandInverse(0) == 0;
  }

  // ----- The seeded table -----

  /** The seeding sequence. */
  function SeedTerm(start: int, k: nat): (x: int)
    requires 1 <= start < MODULUS
    ensures 1 <= x < MODULUS
  {
    if k == 0 then start
    else
      SeedRandIsBijection(SeedTerm(start, k - 1));
      SeedRand(SeedTerm(start, k - 1))
  }

  function Power(k: nat): int {
    if k == 0 then 1 else MULTIPLIER * Power(k - 1)
  }

  /** Term k is the k-th power of the multiplier times the start. */
  lemma {:induction false} SeedTermClosedForm(start: int, k: nat)
    requires 1 <= start < MODULUS
    ensures SeedTerm(start, k) == (Power(k) * start) % MODULUS
  {
    if k > 0 {
      SeedTermClosedForm(start, k - 1);
      SeedRandIsModularProduct(SeedTerm(start, k - 1));
      ModMul(MULTIPLIER, Power(k - 1) * start);
      PowerTimes(start, k);
    }
  }

  lemma PowerTimes(start: int, k: nat)
    requires k > 0
    ensures MULTIPLIER * (Power(k - 1) * start) == Power(k) * start
  {
  }

  /** C++ `%`, which takes the sign of the dividend. */
  function Remainder(a: int, m: int): int
    requires m > 0
  {
    if a >= 0 then a % m else -((-a) % m)
  }

  function NormalisedSeed(seed: int): (r: int)
    ensures 1 <= r < MODULUS
  {
    var s := Remainder(seed, MODULUS);
    var t := if s < 0 then s + MODULUS else s;
    if t == 0 then 89482311 else t
  }

  lemma NormalisedSeedIsResidue(seed: int)
    ensures NormalisedSeed(seed) == if seed % MODULUS == 0 then 89482311 else seed % MODULUS
  {
  }

  /** One table word from three consecutive terms and one constant. */
  function TableWord(x: Word, y: Word, z: Word, cooked: Word): Word {
    Xor(Xor(Xor(ShiftLeft(x, 40), ShiftLeft(y, 20)), z), cooked)
  }

  type Cooked = c: seq<Word> | |c| == RNG_LEN witness seq(RNG_LEN, _ => 0)

  /** Word i is made of terms 21+3i, 22+3i and 23+3i. */
  function SeededWord(cooked: Cooked, start: int, i: nat): Word
    requires i < RNG_LEN && 1 <= start < MODULUS
  {
    TableWord(SeedTerm(start, 21 + 3 * i), SeedTerm(start, 22 + 3 * i), SeedTerm(start, 23 + 3 * i), cooked[i])
  }

  function SeededTable(cooked: Cooked, seed: int): (t: Cooked) {
    seq(RNG_LEN, i requires 0 <= i < RNG_LEN => SeededWord(cooked, NormalisedSeed(seed), i))
  }

  /** Word i is the exclusive or of term 21+3i shifted by 40 bits, term 22+3i shifted by 20 bits, term 23+3i and the
      constant, where term k is the k-th power of 48271 times the seed modulo 2^31-1. */
  lemma SeededWordClosedForm(cooked: Cooked, seed: int, i: nat)
    requires i < RNG_LEN
    ensures var start := NormalisedSeed(seed);
            var x := (Power(21 + 3 * i) * start) % 0x7fff_ffff;
            var y := (Power(22 + 3 * i) * start) % 0x7fff_ffff;
            var z := (Power(23 + 3 * i) * start) % 0x7fff_ffff;
            SeededTable(cooked, seed)[i] ==
            BitXor(BitXor(BitXor((x * 0x100_0000_0000) % WORDS, y * 0x10_0000), z), cooked[i])
  {
    SeedTermClosedForm(NormalisedSeed(seed), 21 + 3 * i);
    SeedTermClosedForm(NormalisedSeed(seed), 22 + 3 * i);
    SeedTermClosedForm(NormalisedSeed(seed), 23 + 3 * i);
    var start := NormalisedSeed(seed);
    TableWordClosedForm(SeedTerm(start, 21 + 3 * i), SeedTerm(start, 22 + 3 * i), SeedTerm(start, 23 + 3 * i),
                        cooked[i]);
  }

  lemma TableWordClosedForm(x: Word, y: Word, z: Word, cooked: Word)
    requires y < MODULUS
    ensures TableWord(x, y, z, cooked) ==
            BitXor(BitXor(BitXor((x * 0x100_0000_0000) % WORDS, y * 0x10_0000), z), cooked)
  {
    ShiftAmounts();
    QuotientIsUnique(y * 0x10_0000, WORDS, 0, y * 0x10_0000);
  }

  lemma ShiftAmounts()
    ensures PowerOfTwo(20) == 0x10_0000 && PowerOfTwo(40) == 0x100_0000_0000
  {
    HalfWords();
    assert PowerOfTwo(20) == 0x10_0000;
    PowerOfTwoSum(20, 20);
  }

  /** Seeds congruent modulo 2^31-1 give the same generator. */
  lemma CongruentSeedsAgree(cooked: Cooked, a: int, b: int)
    requires a % MODULUS == b % MODULUS
    ensures SeededTable(cooked, a) == SeededTable(cooked, b)
  {
    NormalisedSeedIsResidue(a);
    NormalisedSeedIsResidue(b);
  }

  // ----- The output sequence, without a ring -----

  /** The n-th output (counting from 1) of a generator whose table was `table`. */
  function Output(table: Cooked, n: nat): Word
    requires n > 0
  {
    var fed := if n > RNG_LEN then Output(table, n - RNG_LEN) else table[(RNG_LEN - RNG_TAP - n) % RNG_LEN];
    var tapped := if n > RNG_TAP then Output(table, n - RNG_TAP) else table[RNG_LEN - n];
    (fed + tapped) % WORDS
  }

  /** The recurrence in numbers: each output is the sum of those 607 and 273 calls before; the first ones take table
      words from 606 down, and from 333 down and round the end, instead. */
  lemma OutputRecurrence(table: Cooked, n: nat)
    requires n > 0
    ensures n > 607 ==> Output(table, n) == (Output(table, n - 607) + Output(table, n - 273)) % 0x1_0000_0000_0000_0000
    ensures 273 < n <= 607 ==>
            Output(table, n) == (table[if n <= 334 then 334 - n else 941 - n] + Output(table, n - 273)) % WORDS
    ensures n <= 273 ==> Output(table, n) == (table[334 - n] + table[607 - n]) % WORDS
  {
    if n <= 607 {
      if n <= 334 {
        QuotientIsUnique(334 - n, RNG_LEN, 0, 334 - n);
      } else {
        QuotientIsUnique(334 - n, RNG_LEN, -1, 941 - n);
      }
    }
  }

  /** The two cursors after n calls. */
  function TapAfter(n: nat): nat {
    (0 - n) % RNG_LEN
  }

  function FeedAfter(n: nat): nat {
    (RNG_LEN - RNG_TAP - n) % RNG_LEN
  }

  /** The last call, up to n, that wrote cell j; zero or negative if none did. */
  function LastWrite(n: nat, j: nat): int {
    n - (n + j - (RNG_LEN - RNG_TAP)) % RNG_LEN
  }

  function Cell(table: Cooked, n: nat, j: nat): Word
    requires j < RNG_LEN
  {
    if LastWrite(n, j) > 0 then Output(table, LastWrite(n, j)) else table[j]
  }

  lemma RemainderOfNext(x: int)
    ensures (x + 1) % RNG_LEN == if x % RNG_LEN == RNG_LEN - 1 then 0 else x % RNG_LEN + 1
  {
    var d, r := x / RNG_LEN, x % RNG_LEN;
    if r == RNG_LEN - 1 {
      QuotientIsUnique(x + 1, RNG_LEN, d + 1, 0);
    } else {
      QuotientIsUnique(x + 1, RNG_LEN, d, r + 1);
    }
  }

  lemma LastWriteStep(n: nat, j: nat)
    requires j < RNG_LEN
    ensures j == FeedAfter(n + 1) ==> LastWrite(n, j) == n + 1 - RNG_LEN && LastWrite(n + 1, j) == n + 1
    ensures j != FeedAfter(n + 1) ==> LastWrite(n + 1, j) == LastWrite(n, j)
  {
    var x := n + j - (RNG_LEN - RNG_TAP);
    RemainderOfNext(x);
    var d := (RNG_LEN - RNG_TAP - (n + 1)) / RNG_LEN;
    var f := FeedAfter(n + 1);
    assert x == RNG_LEN * (-d - 1) + (j - f + RNG_LEN - 1);
    if j <= f {
      QuotientIsUnique(x, RNG_LEN, -d - 1, j - f + RNG_LEN - 1);
    } else {
      QuotientIsUnique(x, RNG_LEN, -d, j - f - 1);
    }
  }

  lemma LastWriteAtTap(n: nat)
    ensures LastWrite(n, TapAfter(n + 1)) == n + 1 - RNG_TAP
  {
    var d := (0 - (n + 1)) / RNG_LEN;
    QuotientIsUnique(n + TapAfter(n + 1) - (RNG_LEN - RNG_TAP), RNG_LEN, -d - 1, RNG_TAP - 1);
  }

  lemma CellsFeedTheNextOutput(table: Cooked, n: nat)
    ensures var feed, tap := FeedAfter(n + 1), TapAfter(n + 1);
            && (Cell(table, n, feed) + Cell(table, n, tap)) % WORDS == Output(table, n + 1)
            && Cell(table, n + 1, feed) == Output(table, n + 1)
            && forall j: nat | j < RNG_LEN && j != feed :: Cell(table, n + 1, j) == Cell(table, n, j)
  {
    var feed, tap := FeedAfter(n + 1), TapAfter(n + 1);
    LastWriteStep(n, feed);
    LastWriteAtTap(n);
    if n + 1 <= RNG_TAP {
      assert tap == RNG_LEN - (n + 1);
    }
    forall j: nat | j < RNG_LEN && j != feed ensures Cell(table, n + 1, j) == Cell(table, n, j) {
      LastWriteStep(n, j);
    }
  }

  /** The ring after n calls holds in every cell the last output written there. */
  ghost predicate RingAfter(table: Cooked, n: nat, ring: seq<Word>) {
    |ring| == RNG_LEN && forall j: nat | j < RNG_LEN :: ring[j] == Cell(table, n, j)
  }

  /** Decrementing a cursor and adding the length back when it goes negative. */
  function Back(cursor: int): int {
    if cursor - 1 < 0 then cursor - 1 + RNG_LEN else cursor - 1
  }

  /** The feed cursor stays 334 cells ahead of the tap cursor. */
  lemma CursorsStayApart(n: nat)
    ensures (FeedAfter(n) - TapAfter(n)) % RNG_LEN == RNG_LEN - RNG_TAP == 334
    ensures TapAfter(n + 1) == Back(TapAfter(n)) && FeedAfter(n + 1) == Back(FeedAfter(n))
  {
    BackIsPrevious(0 - n);
    BackIsPrevious(RNG_LEN - RNG_TAP - n);
    var d, e := (0 - n) / RNG_LEN, (RNG_LEN - RNG_TAP - n) / RNG_LEN;
    QuotientIsUnique(FeedAfter(n) - TapAfter(n), RNG_LEN, d - e, RNG_LEN - RNG_TAP);
  }

  lemma BackIsPrevious(x: int)
    ensures (x - 1) % RNG_LEN == Back(x % RNG_LEN)
  {
    var d, r := x / RNG_LEN, x % RNG_LEN;
    if r == 0 {
      QuotientIsUnique(x - 1, RNG_LEN, d - 1, RNG_LEN - 1);
    } else {
      QuotientIsUnique(x - 1, RNG_LEN, d, r - 1);
    }
  }

  ghost predicate RingStepGoal(table: Cooked, n: nat, ring: seq<Word>, tap: int, feed: int) {
    && |ring| == RNG_LEN && 0 <= feed < RNG_LEN && 0 <= tap < RNG_LEN
    && feed == FeedAfter(n + 1) && tap == TapAfter(n + 1)
    && var w := (ring[feed] + ring[tap]) % WORDS;
       w == Output(table, n + 1) && RingAfter(table, n + 1, ring[feed := w])
  }

  lemma RingStep(table: Cooked, n: nat, ring: seq<Word>)
    requires RingAfter(table, n, ring)
    ensures RingStepGoal(table, n, ring, Back(TapAfter(n)), Back(FeedAfter(n)))
  {
    CellsFeedTheNextOutput(table, n);
    CursorsStayApart(n);
  }

  // ----- Rejection sampling -----

  function Int63Of(w: Word): nat {
    BitAnd(w, WORDS / 2 - 1)
  }

  function Int31Of(w: Word): (v: nat)
    ensures v < DRAWS
  {
    Int63Of(w) / 0x1_0000_0000
  }

  /** The 31-bit draw is bits 32 to 62 of the word. */
  lemma Int31IsMiddleBits(w: Word)
    ensures Int63Of(w) == w % (WORDS / 2) && Int31Of(w) == (w / 0x1_0000_0000) % DRAWS
  {
    WideWords();
    AndWithMask(w, 63);
    MiddleBits(w);
  }

  lemma MiddleBits(w: Word)
    ensures (w % (WORDS / 2)) / 0x1_0000_0000 == (w / 0x1_0000_0000) % DRAWS
  {
    var top, low := w / (WORDS / 2), w % (WORDS / 2);
    var q, r := low / 0x1_0000_0000, low % 0x1_0000_0000;
    QuotientIsUnique(w, 0x1_0000_0000, DRAWS * top + q, r);
    QuotientIsUnique(DRAWS * top + q, DRAWS, top, q);
  }

  /** The test `n & (n - 1) == 0` recognises the powers of two. */
  lemma {:induction false} PowerOfTwoTest(n: nat) returns (k: nat)
    requires n > 0
    ensures BitAnd(n, n - 1) == 0 ==> n == PowerOfTwo(k)
  {
    if n == 1 {
      k := 0;
    } else if n % 2 == 0 {
      var j := PowerOfTwoTest(n / 2);
      assert (n - 1) / 2 == n / 2 - 1;
      k := j + 1;
    } else {
      AndWithItself(n / 2);
      k := 0;
    }
  }

  lemma {:induction false} PowersOfTwoPass(k: nat)
    ensures BitAnd(PowerOfTwo(k), PowerOfTwo(k) - 1) == 0
  {
    if k > 0 {
      PowersOfTwoPass(k - 1);
      var p := PowerOfTwo(k - 1);
      assert (2 * p) / 2 == p && (2 * p - 1) / 2 == p - 1 && (2 * p) % 2 == 0;
    }
  }

  /** The test lets through exactly the powers of two. */
  lemma PowerOfTwoTestIsExact(n: nat)
    requires n > 0
    ensures BitAnd(n, n - 1) == 0 <==> exists k: nat :: n == PowerOfTwo(k)
  {
    var k := PowerOfTwoTest(n);
    if k: nat :| n == PowerOfTwo(k) {
      PowersOfTwoPass(k);
    }
  }

  predicate IsPowerOfTwo(n: nat)
    requires n > 0
  {
    BitAnd(n, n - 1) == 0
  }

  function MaxAccepted(n: nat): int
    requires n > 0
  {
    DRAWS - 1 - DRAWS % n
  }

  /** A 31-bit draw is used, and what `Int31n(n)` makes of it. */
  predicate Accepted(n: nat, v: nat)
    requires n > 0
  {
    IsPowerOfTwo(n) || v <= MaxAccepted(n)
  }

  function Residue(n: nat, v: nat): (r: nat)
    requires n > 0
    ensures r < n
  {
    if IsPowerOfTwo(n) then BitAnd(v, n - 1) else v % n
  }

  lemma {:induction false} CountMultiples(n: nat, q: nat, r: nat)
    requires r < n
    ensures |set v: int | 0 <= v < n * q && v % n == r| == q
  {
    var all := set v: int | 0 <= v < n * q && v % n == r;
    if q == 0 {
      assert all == {};
    } else {
      CountMultiples(n, q - 1, r);
      var rest := set v: int | 0 <= v < n * (q - 1) && v % n == r;
      var last := n * (q - 1) + r;
      QuotientIsUnique(last, n, q - 1, r);
      assert n * q == n * (q - 1) + n;
      forall v ensures v in all <==> v in rest + {last} {
        if v in all && v !in rest {
          QuotientIsUnique(v, n, q - 1, v - n * (q - 1));
        }
      }
      assert all == rest + {last};
    }
  }

  predicate Below(v: int, m: nat) {
    0 <= v < m
  }

  ghost function Range(m: nat): set<int> {
    set v: int | 0 <= v < m && Below(v, m)
  }

  lemma {:induction false} CountBelow(m: nat)
    ensures |Range(m)| == m
  {
    if m > 0 {
      CountBelow(m - 1);
      assert Range(m) == Range(m - 1) + {m - 1};
    } else {
      assert Range(m) == {};
    }
  }

  lemma PowersOfTwoDivideDraws(k: nat)
    requires 0 < PowerOfTwo(k) <= DRAWS
    ensures DRAWS % PowerOfTwo(k) == 0
  {
    WideWords();
    if k > 31 {
      PowerOfTwoGrows(31, k);
      assert false;
    }
    PowerOfTwoSum(k, 31 - k);
    QuotientIsUnique(DRAWS, PowerOfTwo(k), PowerOfTwo(31 - k), 0);
  }

  /** Accepted draws are those below the largest multiple of n, and they are reduced modulo n. */
  lemma BranchesAgree(n: nat, v: nat)
    requires 0 < n < DRAWS && v < DRAWS
    ensures Accepted(n, v) <==> v < n * (DRAWS / n)
    ensures Residue(n, v) == v % n
  {
    assert n * (DRAWS / n) == DRAWS - DRAWS % n;
    if IsPowerOfTwo(n) {
      var k := PowerOfTwoTest(n);
      AndWithMask(v, k);
      PowersOfTwoDivideDraws(k);
    }
  }

  /** `Int31n(n)` is exactly unbiased: each result below n comes from exactly floor(2^31/n) draws. */
  lemma Int31nIsUnbiased(n: nat, r: nat)
    requires 0 < n < DRAWS && r < n
    ensures |set v: int | 0 <= v < DRAWS && Accepted(n, v) && Residue(n, v) == r| == DRAWS / n
  {
    var q := DRAWS / n;
    assert n * q <= DRAWS;
    CountMultiples(n, q, r);
    forall v: int | 0 <= v < DRAWS ensures Accepted(n, v) && Residue(n, v) == r <==> v < n * q && v % n == r {
      BranchesAgree(n, v);
    }
    assert (set v: int | 0 <= v < DRAWS && Accepted(n, v) && Residue(n, v) == r)
        == (set v: int | 0 <= v < n * q && v % n == r);
  }

  /** More than half of all draws are accepted. */
  lemma MostDrawsAreAccepted(n: nat)
    requires 0 < n < DRAWS
    ensures 2 * |set v: int | 0 <= v < DRAWS && Accepted(n, v)| > DRAWS
  {
    var q := DRAWS / n;
    assert n * q <= DRAWS;
    assert DRAWS == n * q + DRAWS % n;
    assert n * q >= n by { assert q >= 1; }
    CountBelow(n * q);
    forall v: int | 0 <= v < DRAWS ensures Accepted(n, v) <==> v < n * q {
      BranchesAgree(n, v);
    }
    assert (set v: int | 0 <= v < DRAWS && Accepted(n, v)) == Range(n * q);
  }

  // ----- The generator object -----

  function Draw(table: Cooked, k: nat): nat
    requires k > 0
  {
    Int31Of(Output(table, k))
  }

  /** Some draw after the first `position` is accepted, so the rejection loop ends. */
  ghost predicate Arrives(table: Cooked, position: nat, n: nat)
    requires n > 0
  {
    exists k: nat :: k > position && Accepted(n, Draw(table, k))
  }

  ghost predicate FirstAccepted(table: Cooked, position: nat, n: nat, k: nat)
    requires n > 0
  {
    && k > position && Accepted(n, Draw(table, k))
    && forall j: nat | position < j < k :: !Accepted(n, Draw(table, j))
  }

  lemma {:induction false} FirstAcceptedExists(table: Cooked, position: nat, n: nat, k: nat)
    requires n > 0 && k > position && Accepted(n, Draw(table, k))
    ensures exists j: nat :: FirstAccepted(table, position, n, j)
    decreases k
  {
    if j: nat :| position < j < k && Accepted(n, Draw(table, j)) {
      FirstAcceptedExists(table, position, n, j);
    } else {
      assert FirstAccepted(table, position, n, k);
    }
  }

  /** How many draws have been made once a request for a number below n is answered. */
  ghost function Served(table: Cooked, position: nat, n: nat): (k: nat)
    ensures n > 0 && Arrives(table, position, n) ==> FirstAccepted(table, position, n, k)
  {
    if n > 0 && Arrives(table, position, n) then
      assert exists j: nat :: FirstAccepted(table, position, n, j) by {
        var k: nat :| k > position && Accepted(n, Draw(table, k));
        FirstAcceptedExists(table, position, n, k);
      }
      var j: nat :| FirstAccepted(table, position, n, j);
      j
    else position
  }

  /** Draws made after answering a list of requests. */
  ghost function Position(table: Cooked, bounds: seq<nat>): nat {
    if bounds == [] then 0
    else Served(table, Position(table, bounds[..|bounds| - 1]), bounds[|bounds| - 1])
  }

  /** The answer to the last of a list of requests. */
  ghost function Answer(table: Cooked, bounds: seq<nat>): (r: nat)
    ensures bounds != [] && bounds[|bounds| - 1] > 0 ==> r < bounds[|bounds| - 1]
  {
    var k := Position(table, bounds);
    if bounds == [] || bounds[|bounds| - 1] == 0 || k == 0 then 0 else Residue(bounds[|bounds| - 1], Draw(table, k))
  }

  lemma AnswerToLast(table: Cooked, bounds: seq<nat>, n: nat)
    requires n > 0
    ensures var k := Served(table, Position(table, bounds), n);
            && Position(table, bounds + [n]) == k
            && (k > 0 ==> Answer(table, bounds + [n]) == Residue(n, Draw(table, k)))
  {
    assert (bounds + [n])[..|bounds|] == bounds;
  }

  function SeedIndex(i: int): nat
    requires i >= -20
  {
    if i <= 0 then i + 20 else 20 + 3 * i
  }

  /** The terms that one turn of the loop passes through. */
  lemma TermsOfIndex(start: int, i: int)
    requires i >= -20 && 1 <= start < MODULUS
    ensures i < 0 ==> SeedTerm(start, SeedIndex(i + 1)) == SeedRand(SeedTerm(start, SeedIndex(i)))
    ensures i >= 0 ==> var x := SeedRand(SeedTerm(start, SeedIndex(i)));
                       && x == SeedTerm(start, 21 + 3 * i)
                       && SeedRand(x) == SeedTerm(start, 22 + 3 * i)
                       && SeedRand(SeedRand(x)) == SeedTerm(start, 23 + 3 * i) == SeedTerm(start, SeedIndex(i + 1))
  {
  }

  lemma TableOfWords(cooked: Cooked, seed: int, words: seq<Word>)
    requires |words| == RNG_LEN
    requires forall j | 0 <= j < RNG_LEN :: words[j] == SeededWord(cooked, NormalisedSeed(seed), j)
    ensures words == SeededTable(cooked, seed)
  {
  }

  method NormaliseSeed(seed: int) returns (s: int)
    ensures s == NormalisedSeed(seed)
  {
    s := Remainder(seed, MODULUS);
    if s < 0 {
      s := s + MODULUS;
    }
    if s == 0 {
      s := 89482311;
    }
  }

  /** The part of the loop of `Seed` that makes one word. */
  method MixWord(x0: int, cooked: Word) returns (u: Word, x: int)
    requires 1 <= x0 < MODULUS
    ensures 1 <= SeedRand(x0) < MODULUS && x == SeedRand(SeedRand(x0)) && 1 <= x < MODULUS
    ensures u == TableWord(x0, SeedRand(x0), x, cooked)
  {
    SeedRandIsBijection(x0);
    SeedRandIsBijection(SeedRand(x0));
    x := x0;
    u := ShiftLeft(x, 40);
    x := SeedRand(x);
    u := Xor(u, ShiftLeft(x, 20));
    x := SeedRand(x);
    u := Xor(u, x);
    u := Xor(u, cooked);
  }

  /** The loop of `Seed`: twenty warm-up steps, then three steps for each word. */
  method FillTable(vec: array<Word>, cooked: Cooked, seed: int)
    requires vec.Length == RNG_LEN
    modifies vec
    ensures vec[..] == SeededTable(cooked, seed)
  {
    var start := NormaliseSeed(seed);
    FillFrom(vec, cooked, start);
    TableOfWords(cooked, seed, vec[..]);
  }

  method FillFrom(vec: array<Word>, cooked: Cooked, start: int)
    requires vec.Length == RNG_LEN && 1 <= start < MODULUS
    modifies vec
    ensures forall j | 0 <= j < RNG_LEN :: vec[j] == SeededWord(cooked, start, j)
  {
    var x := start;
    for i := -20 to RNG_LEN
      invariant x == SeedTerm(start, SeedIndex(i))
      invariant forall j | 0 <= j < i :: vec[j] == SeededWord(cooked, start, j)
    {
      TermsOfIndex(start, i);
      x := SeedRand(x);
      if i >= 0 {
        var u;
        u, x := NextWord(start, x, i, cooked);
        vec[i] := u;
      }
    }
  }

  /** One turn of the loop after the warm-up. */
  method NextWord(start: int, x0: int, i: nat, cooked: Cooked) returns (u: Word, x: int)
    requires i < RNG_LEN && 1 <= start < MODULUS && x0 == SeedTerm(start, 21 + 3 * i)
    ensures u == SeededWord(cooked, start, i) && x == SeedTerm(start, SeedIndex(i + 1))
  {
    TermsOfIndex(start, i);
    u, x := MixWord(x0, cooked[i]);
  }

  class Generator {
    var tap: int
    var feed: int
    const vec: array<Word>
    ghost const table: Cooked     // the words right after seeding
    ghost var drawn: nat          // calls of Uint64 so far
    ghost var bounds: seq<nat>    // calls of Int31n so far

    /** The ring after `drawn` calls: the cursors, and in every cell the last output written there. */
    ghost predicate Ring()
      reads this, vec
    {
      && vec.Length == RNG_LEN
      && tap == TapAfter(drawn)
      && feed == FeedAfter(drawn)
      && RingAfter(table, drawn, vec[..])
    }

    ghost predicate Valid()
      reads this, vec
    {
      Ring() && drawn == Position(table, bounds)
    }

    constructor (cooked: Cooked, seed: int)
      ensures Valid() && fresh(vec) && bounds == []
      ensures table == SeededTable(cooked, seed)
    {
      tap := 0;
      feed := RNG_LEN - RNG_TAP;
      vec := new Word[RNG_LEN](_ => 0);
      table := SeededTable(cooked, seed);
      drawn, bounds := 0, [];
      new;
      FillTable(vec, cooked, seed);
      assert forall j: nat | j < RNG_LEN :: LastWrite(0, j) <= 0;
    }

    /** Each call returns the next term of the recurrence. */
    method Uint64() returns (w: Word)
      requires Ring()
      modifies this`tap, this`feed, this`drawn, vec
      ensures Ring() && drawn == old(drawn) + 1
      ensures w == Output(table, drawn)
    {
      ghost var n, ring := drawn, vec[..];
      RingStep(table, n, ring);
      tap := tap - 1;
      if tap < 0 {
        tap := tap + RNG_LEN;
      }
      feed := feed - 1;
      if feed < 0 {
        feed := feed + RNG_LEN;
      }
      assert RingStepGoal(table, n, ring, tap, feed);
      w := (vec[feed] + vec[tap]) % WORDS;
      vec[feed] := w;
      drawn := drawn + 1;
      assert vec[..] == ring[feed := w];
    }

    method Int31() returns (v: nat)
      requires Ring()
      modifies this`tap, this`feed, this`drawn, vec
      ensures Ring() && drawn == old(drawn) + 1
      ensures v == Draw(table, drawn)
    {
      var w := Uint64();
      v := Int31Of(w);
    }

    /** Draws until one is not above the largest accepted value. */
    method NextAccepted(n: nat) returns (v: nat)
      requires Ring() && n > 0 && Arrives(table, drawn, n)
      modifies this`tap, this`feed, this`drawn, vec
      ensures Ring() && drawn == Served(table, old(drawn), n) && drawn > 0
      ensures v == Draw(table, drawn)
    {
      ghost var k := Served(table, drawn, n);
      v := Int31();
      while !IsPowerOfTwo(n) && v > MaxAccepted(n)
        invariant Ring() && old(drawn) < drawn <= k && v == Draw(table, drawn)
        decreases k - drawn
      {
        v := Int31();
      }
      assert Accepted(n, Draw(table, drawn));
    }

    /** Rejects `n <= 0`; otherwise the residue of the first accepted draw. */
    method Int31n(n: int) returns (r: int, ok: bool)
      requires Valid() && n < DRAWS
      requires n > 0 ==> Arrives(table, drawn, n)
      modifies this`tap, this`feed, this`drawn, this`bounds, vec
      ensures Valid() && ok == (n > 0)
      ensures ok ==> bounds == old(bounds) + [n] && r == Answer(table, bounds) && 0 <= r < n
      ensures !ok ==> bounds == old(bounds) && drawn == old(drawn)
    {
      if n <= 0 {
        return 0, false;
      }
      var v := NextAccepted(n);
      AnswerToLast(table, bounds, n);
      r := Residue(n, v);
      ok := true;
      bounds := bounds + [n];
    }
  }
}
