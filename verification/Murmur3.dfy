/** The Murmur3 hash (src/murmur3.cpp): the block loop and the fall-through tail
    against a specification that folds blocks and pads the tail with zeros. */
module Murmur3 {
  import opened Words

  type Byte = b: int | 0 <= b < 256

  const C1: Word := 0x87c37b91114253d5
  const C2: Word := 0x4cf5ad432745937f
  const FMIX1: Word := 0xff51afd7ed558ccd
  const FMIX2: Word := 0xc4ceb9fe1a85ec53
  const FMIX1_INVERSE: Word := 0x4f74430c22a54005
  const FMIX2_INVERSE: Word := 0x9cb4b2f8129337db

  function Rotl(x: Word, r: nat): Word
    requires 0 < r < 64
  {
    Or(ShiftLeft(x, r), ShiftRight(x, 64 - r))
  }

  /** A word turned left by r bits: its upper r bits become its lower ones. */
  function Turned(x: Word, r: nat): int
    requires 0 < r < 64
  {
    (x % PowerOfTwo(64 - r)) * PowerOfTwo(r) + x / PowerOfTwo(64 - r)
  }

  lemma ShiftLeftDropsUpper(x: Word, r: nat)
    requires 0 < r < 64
    ensures ShiftLeft(x, r) == (x % PowerOfTwo(64 - r)) * PowerOfTwo(r)
  {
    WideWords();
    PowerOfTwoSum(64 - r, r);
    assert 64 - r + r == 64;
    RemainderScales(x, PowerOfTwo(64 - r), PowerOfTwo(r), WORDS);
  }

  lemma RemainderScales(x: nat, p: nat, q: nat, w: nat)
    requires p > 0 && q > 0 && w == p * q
    ensures w > 0 && (x * q) % w == (x % p) * q
  {
    var d, m := x / p, x % p;
    ScaledParts(x, p, q, d, m);
    QuotientIsUnique(x * q, p * q, d, m * q);
  }

  lemma ScaledParts(x: nat, p: nat, q: nat, d: nat, m: nat)
    requires p > 0 && q > 0 && x == p * d + m && m < p
    ensures p * q > 0 && x * q == (p * q) * d + m * q && 0 <= m * q < p * q
  {
    assert (p * d) * q == (p * q) * d;
    assert (p - 1 - m) * q >= 0;
  }

  lemma RotlIsRotation(x: Word, r: nat)
    requires 0 < r < 64
    ensures Rotl(x, r) == Turned(x, r)
  {
    var a, b := x / PowerOfTwo(64 - r), x % PowerOfTwo(64 - r);
    ShiftLeftDropsUpper(x, r);
    HalvedIsQuotient(x, 64 - r);
    WideWords();
    HalvedBelow(x, 64 - r, r);
    OrCommutes(b * PowerOfTwo(r), a);
    OrDisjoint(a, b, r);
  }

  // ----- The finalizer -----

  function XorShift(k: Word): Word {
    Xor(k, ShiftRight(k, 33))
  }

  function Fmix(k: Word): Word {
    XorShift(Times(XorShift(Times(XorShift(k), FMIX1)), FMIX2))
  }

  function FmixInverse(k: Word): Word {
    XorShift(Times(XorShift(Times(XorShift(k), FMIX2_INVERSE)), FMIX1_INVERSE))
  }

  lemma XorShiftUndoesItself(k: Word)
    ensures XorShift(XorShift(k)) == k
  {
    var s := Halved(k, 33);
    WideWords();
    HalvedBelow(k, 33, 31);
    PowerOfTwoGrows(31, 33);
    HalvedBelow(s, 33, 0);
    XorShiftsRight(k, s, 33);
    XorZero(s);
    XorCancels(k, s);
  }

  lemma MultipliersCancel(k: Word)
    ensures Times(Times(k, FMIX1), FMIX1_INVERSE) == k && Times(Times(k, FMIX1_INVERSE), FMIX1) == k
    ensures Times(Times(k, FMIX2), FMIX2_INVERSE) == k && Times(Times(k, FMIX2_INVERSE), FMIX2) == k
  {
    TimesCancels(k, FMIX1, FMIX1_INVERSE);
    TimesCancels(k, FMIX1_INVERSE, FMIX1);
    TimesCancels(k, FMIX2, FMIX2_INVERSE);
    TimesCancels(k, FMIX2_INVERSE, FMIX2);
  }

  /** `Fmix` is a bijection on 64-bit words, with an explicit inverse. */
  lemma FmixIsBijection(k: Word)
    ensures FmixInverse(Fmix(k)) == k && Fmix(FmixInverse(k)) == k
  {
    var a := XorShift(k);
    XorShiftUndoesItself(k);
    MultipliersCancel(a);
    var b := XorShift(Times(a, FMIX1));
    XorShiftUndoesItself(Times(a, FMIX1));
    MultipliersCancel(b);
    XorShiftUndoesItself(Times(b, FMIX2));
    var c := XorShift(Times(a, FMIX2_INVERSE));
    XorShiftUndoesItself(Times(a, FMIX2_INVERSE));
    MultipliersCancel(c);
    XorShiftUndoesItself(Times(c, FMIX1_INVERSE));
  }

  // ----- Little-endian words -----

  /** The number that bytes denote, least significant first. */
  function Value(bytes: seq<Byte>): nat {
    if bytes == [] then 0 else bytes[0] + 256 * Value(bytes[1..])
  }

  lemma {:induction false} ValueBelow(bytes: seq<Byte>)
    ensures Value(bytes) < PowerOfTwo(8 * |bytes|)
  {
    if bytes != [] {
      ValueBelow(bytes[1..]);
      PowerOfTwoSum(8, 8 * |bytes[1..]|);
      assert PowerOfTwo(8) == 256;
    }
  }

  lemma {:induction false} ValueSnoc(bytes: seq<Byte>, b: Byte)
    ensures Value(bytes + [b]) == Value(bytes) + b * PowerOfTwo(8 * |bytes|)
  {
    if bytes == [] {
      assert (bytes + [b])[1..] == [];
    } else {
      assert (bytes + [b])[1..] == bytes[1..] + [b];
      ValueSnoc(bytes[1..], b);
      PowerOfTwoSum(8, 8 * |bytes[1..]|);
      assert PowerOfTwo(8) == 256;
      assert b * PowerOfTwo(8 * |bytes|) == 256 * (b * PowerOfTwo(8 * |bytes[1..]|));
    }
  }

  function Zeros(n: nat): seq<Byte> {
    seq(n, _ => 0)
  }

  lemma {:induction false} ZerosAddNothing(bytes: seq<Byte>, n: nat)
    ensures Value(bytes + Zeros(n)) == Value(bytes)
  {
    if n == 0 {
      assert bytes + Zeros(0) == bytes;
    } else {
      ZerosAddNothing(bytes, n - 1);
      assert bytes + Zeros(n) == (bytes + Zeros(n - 1)) + [0];
      ValueSnoc(bytes + Zeros(n - 1), 0);
    }
  }

  function WordOf(bytes: seq<Byte>): Word
    requires |bytes| <= 8
  {
    ValueBelow(bytes);
    WideWords();
    if |bytes| < 8 then PowerOfTwoGrows(8 * |bytes|, 64); Value(bytes) else Value(bytes)
  }

  lemma ByteTimes(b: Byte, p: nat)
    requires 256 * p <= WORDS && p > 0
    ensures 0 <= b * p < WORDS && (b * p) % WORDS == b * p
  {
    assert b * p <= 255 * p;
    QuotientIsUnique(b * p, WORDS, 0, b * p);
  }

  lemma ByteShifted(b: Byte, i: nat)
    requires i < 8
    ensures ShiftLeft(b, 8 * i) == b * PowerOfTwo(8 * i)
  {
    PowerOfTwoSum(8, 8 * i);
    WideWords();
    if i < 7 { PowerOfTwoGrows(8 * i + 8, 64); }
    assert PowerOfTwo(8) == 256;
    ByteTimes(b, PowerOfTwo(8 * i));
  }

  method ReadLittleEndian64(data: seq<Byte>, at: nat) returns (out: Word)
    requires at + 8 <= |data|
    ensures out == WordOf(data[at..at + 8])
  {
    out := 0;
    for i := 0 to 8
      invariant out == WordOf(data[at..at + i])
    {
      assert data[at..at + i + 1] == data[at..at + i] + [data[at + i]];
      ByteShifted(data[at + i], i);
      ValueBelow(data[at..at + i]);
      OrDisjoint(out, data[at + i], 8 * i);
      ValueSnoc(data[at..at + i], data[at + i]);
      out := Or(out, ShiftLeft(data[at + i], 8 * i));
    }
  }

  // ----- The specification -----

  datatype State = State(h1: Word, h2: Word)

  function MixK1(k: Word): Word {
    Times(Rotl(Times(k, C1), 31), C2)
  }

  function MixK2(k: Word): Word {
    Times(Rotl(Times(k, C2), 33), C1)
  }

  function Block(s: State, k1: Word, k2: Word): State {
    var h1 := Plus(Times(Plus(Rotl(Xor(s.h1, MixK1(k1)), 27), s.h2), 5), 0x52dce729);
    State(h1, Plus(Times(Plus(Rotl(Xor(s.h2, MixK2(k2)), 31), h1), 5), 0x38495ab5))
  }

  function Blocks(data: seq<Byte>, n: nat): State
    requires 16 * n <= |data|
  {
    if n == 0 then State(0, 0)
    else Block(Blocks(data, n - 1), WordOf(data[16 * n - 16..16 * n - 8]), WordOf(data[16 * n - 8..16 * n]))
  }

  /** Both words of the tail padded to sixteen bytes, mixed without the block's rotation. */
  function PaddedTail(s: State, tail: seq<Byte>): State
    requires |tail| < 16
  {
    var padded := tail + Zeros(16 - |tail|);
    State(Xor(s.h1, MixK1(WordOf(padded[..8]))), Xor(s.h2, MixK2(WordOf(padded[8..]))))
  }

  function Finish(s: State, length: nat): Word {
    var x1, x2 := Xor(s.h1, length % WORDS), Xor(s.h2, length % WORDS);
    var y1 := Plus(x1, x2);
    var y2 := Plus(x2, y1);
    Plus(Fmix(y1), Fmix(y2))
  }

  function Hash(data: seq<Byte>): Word {
    var n := |data| / 16;
    Finish(PaddedTail(Blocks(data, n), data[16 * n..]), |data|)
  }

  // ----- The constants, in plain arithmetic -----

  /** The finalizer, step by step. */
  lemma FmixClosedForm(k: Word)
    ensures var a := BitXor(k, k / 0x2_0000_0000);
            var b := (a * 0xff51afd7ed558ccd) % WORDS;
            var c := BitXor(b, b / 0x2_0000_0000);
            var d := (c * 0xc4ceb9fe1a85ec53) % WORDS;
            Fmix(k) == BitXor(d, d / 0x2_0000_0000)
  {
    forall x: Word ensures XorShift(x) == BitXor(x, x / 0x2_0000_0000) {
      XorShiftClosedForm(x);
    }
  }

  lemma XorShiftClosedForm(x: Word)
    ensures XorShift(x) == BitXor(x, x / 0x2_0000_0000)
  {
    HalvedIsQuotient(x, 33);
    WideWords();
    assert PowerOfTwo(33) == 0x2_0000_0000;
  }

  /** How the two words of a block, or of a tail, are scrambled before they are mixed in. */
  lemma MixingClosedForm(k: Word)
    ensures MixK1(k) == (Turned((k * 0x87c37b91114253d5) % WORDS, 31) * 0x4cf5ad432745937f) % WORDS
    ensures MixK2(k) == (Turned((k * 0x4cf5ad432745937f) % WORDS, 33) * 0x87c37b91114253d5) % WORDS
  {
    RotlIsRotation(Times(k, C1), 31);
    RotlIsRotation(Times(k, C2), 33);
  }

  /** One block: the first word goes into h1 and the second into h2, and each takes the other in. */
  lemma BlockClosedForm(s: State, k1: Word, k2: Word)
    ensures var x, y := Xor(s.h1, MixK1(k1)), Xor(s.h2, MixK2(k2));
            var h1 := ((Turned(x, 27) + s.h2) * 5 + 0x52dce729) % WORDS;
            var h2 := ((Turned(y, 31) + h1) * 5 + 0x38495ab5) % WORDS;
            Block(s, k1, k2) == State(h1, h2)
  {
    var x, y := Xor(s.h1, MixK1(k1)), Xor(s.h2, MixK2(k2));
    RotlIsRotation(x, 27);
    RotlIsRotation(y, 31);
    var h1 := Block(s, k1, k2).h1;
    FiveTimes(Rotl(x, 27), s.h2, 0x52dce729);
    FiveTimes(Rotl(y, 31), h1, 0x38495ab5);
  }

  lemma FiveTimes(a: Word, b: Word, c: Word)
    ensures Plus(Times(Plus(a, b), 5), c) == ((a + b) * 5 + c) % WORDS
  {
    var q, r := (a + b) / WORDS, (a + b) % WORDS;
    var q', r' := (r * 5) / WORDS, (r * 5) % WORDS;
    var q'', r'' := (r' + c) / WORDS, (r' + c) % WORDS;
    assert (a + b) * 5 + c == WORDS * (5 * q + q' + q'') + r'';
    QuotientIsUnique((a + b) * 5 + c, WORDS, 5 * q + q' + q'', r'');
  }

  /** The length is mixed into both halves before they are added crosswise and finalized. */
  lemma FinishClosedForm(s: State, length: nat)
    requires length < WORDS
    ensures var x, y := BitXor(s.h1, length), BitXor(s.h2, length);
            Finish(s, length) == (Fmix((x + y) % WORDS) + Fmix((y + (x + y) % WORDS) % WORDS)) % WORDS
  {
    QuotientIsUnique(length, WORDS, 0, length);
    var x, y := Xor(s.h1, length), Xor(s.h2, length);
    assert Plus(x, y) == (x + y) % WORDS;
    assert Plus(y, Plus(x, y)) == (y + (x + y) % WORDS) % WORDS;
  }

  /** Block n consists of bytes 16n to 16n+15, the first eight of which are its first word. */
  lemma BlocksInOrder(data: seq<Byte>, n: nat)
    requires 16 * n + 16 <= |data|
    ensures Blocks(data, n + 1) ==
            Block(Blocks(data, n), WordOf(data[16 * n..16 * n + 8]), WordOf(data[16 * n + 8..16 * n + 16]))
  {
    var m := n + 1;
    assert 16 * m - 16 == 16 * n && 16 * m - 8 == 16 * n + 8 && 16 * m == 16 * n + 16;
  }

  /** Without a tail nothing is mixed in after the last block. */
  lemma NoTail(s: State)
    ensures PaddedTail(s, []) == s
  {
    var padded := [] + Zeros(16);
    assert padded[..8] == [] + Zeros(8) && padded[8..] == [] + Zeros(8);
    ZerosAddNothing([], 8);
    MixingZeroChangesNothing(s.h1);
    MixingZeroChangesNothing(s.h2);
  }

  /** A text shorter than a block: its first eight bytes, padded with zeros, go into h1 and the others into h2. */
  lemma HashOfTail(data: seq<Byte>)
    requires |data| < 16
    ensures var padded := data + Zeros(16 - |data|);
            Hash(data) == Finish(State(MixK1(WordOf(padded[..8])), MixK2(WordOf(padded[8..]))), |data|)
  {
    assert data[0..] == data && Blocks(data, 0) == State(0, 0);
    TailOfNothing(data);
  }

  lemma TailOfNothing(tail: seq<Byte>)
    requires |tail| < 16
    ensures var padded := tail + Zeros(16 - |tail|);
            PaddedTail(State(0, 0), tail) == State(MixK1(WordOf(padded[..8])), MixK2(WordOf(padded[8..])))
  {
    var padded := tail + Zeros(16 - |tail|);
    ZeroXor(MixK1(WordOf(padded[..8])));
    ZeroXor(MixK2(WordOf(padded[8..])));
  }

  lemma {:induction false} ZeroXor(a: nat)
    ensures BitXor(0, a) == a
  {
    if a != 0 {
      ZeroXor(a / 2);
    }
  }

  // ----- The tail -----

  /** One case of the switch: does nothing when the tail is too short to reach it. */
  function XorIn(k: Word, bytes: seq<Byte>, i: nat): Word
    requires i < 8
  {
    if i < |bytes| then Xor(k, ShiftLeft(bytes[i], 8 * i)) else k
  }

  /** The accumulator after the cases for the bytes from i on. */
  ghost function Accumulated(bytes: seq<Byte>, i: nat): nat {
    if i < |bytes| then Value(bytes[i..]) * PowerOfTwo(8 * i) else 0
  }

  lemma XorByteBelow(v: nat, b: Byte, i: nat)
    ensures BitXor(v * PowerOfTwo(8 * (i + 1)), b * PowerOfTwo(8 * i)) == (b + 256 * v) * PowerOfTwo(8 * i)
  {
    var p := PowerOfTwo(8 * i);
    PowerOfTwoSum(8, 8 * i);
    assert PowerOfTwo(8) == 256;
    assert v * (256 * p) == (v * 256) * p;
    XorScales(v * 256, b, 8 * i);
    XorDisjoint(v, b, 8);
  }

  lemma XorInStep(bytes: seq<Byte>, i: nat, k: Word)
    requires |bytes| <= 8 && i < 8 && k == Accumulated(bytes, i + 1)
    ensures XorIn(k, bytes, i) == Accumulated(bytes, i)
  {
    if i < |bytes| {
      var b, rest := bytes[i], bytes[i + 1..];
      assert bytes[i..][0] == b && bytes[i..][1..] == rest;
      assert k == Value(rest) * PowerOfTwo(8 * (i + 1));
      ByteShifted(b, i);
      XorByteBelow(Value(rest), b, i);
    }
  }

  /** The cases for bytes 7 down to i, one after the other. */
  ghost function XorFrom(bytes: seq<Byte>, i: nat): Word
    requires i <= 8
    decreases 8 - i
  {
    if i == 8 then 0 else XorIn(XorFrom(bytes, i + 1), bytes, i)
  }

  /** Running all the cases reads a word. */
  lemma {:induction false} XorFromAccumulates(bytes: seq<Byte>, i: nat)
    requires |bytes| <= 8 && i <= 8
    ensures XorFrom(bytes, i) == Accumulated(bytes, i)
    ensures i == 0 ==> XorFrom(bytes, i) == WordOf(bytes)
    decreases 8 - i
  {
    if i < 8 {
      XorFromAccumulates(bytes, i + 1);
      XorInStep(bytes, i, XorFrom(bytes, i + 1));
    }
    assert bytes[0..] == bytes && PowerOfTwo(0) == 1;
  }

  lemma MixingZeroChangesNothing(h: Word)
    ensures Xor(h, MixK1(0)) == h && Xor(h, MixK2(0)) == h
  {
    assert Times(0, C1) == 0 && Times(0, C2) == 0;
    assert ShiftRight(0, 33) == 0 by { HalvedBelow(0, 33, 0); }
    assert ShiftRight(0, 31) == 0 by { HalvedBelow(0, 31, 0); }
    assert Rotl(0, 31) == 0 && Rotl(0, 33) == 0;
    assert MixK1(0) == 0 && MixK2(0) == 0;
    XorZero(h);
  }

  lemma PaddedWords(tail: seq<Byte>)
    requires |tail| < 16
    ensures var padded := tail + Zeros(16 - |tail|);
            && WordOf(padded[..8]) == WordOf(if |tail| <= 8 then tail else tail[..8])
            && WordOf(padded[8..]) == WordOf(if |tail| <= 8 then [] else tail[8..])
  {
    var padded := tail + Zeros(16 - |tail|);
    if |tail| <= 8 {
      assert padded[..8] == tail + Zeros(8 - |tail|);
      assert padded[8..] == [] + Zeros(8);
      ZerosAddNothing(tail, 8 - |tail|);
      ZerosAddNothing([], 8);
    } else {
      assert padded[..8] == tail[..8];
      assert padded[8..] == tail[8..] + Zeros(16 - |tail|);
      ZerosAddNothing(tail[8..], 16 - |tail|);
    }
  }

  /** The fall-through switch: entering at case r runs the cases r, r-1, ..., 1; the words are
      mixed in at cases 9 and 1, and with no tail at all nothing happens. */
  method MixTail(s: State, tail: seq<Byte>) returns (r: State)
    requires |tail| < 16
    ensures r == PaddedTail(s, tail)
  {
    var low, high := if |tail| <= 8 then tail else tail[..8], if |tail| <= 8 then [] else tail[8..];
    PaddedWords(tail);
    XorFromAccumulates(low, 0);
    XorFromAccumulates(high, 0);
    MixingZeroChangesNothing(s.h1);
    MixingZeroChangesNothing(s.h2);
    r := s;
    var k2 := CasesDownTo1(high);
    if |tail| >= 9 {
      k2 := XorIn(k2, high, 0);
      r := r.(h2 := Xor(r.h2, MixK2(k2)));
    }
    var k1 := CasesDownTo1(low);
    if |tail| >= 1 {
      k1 := XorIn(k1, low, 0);
      r := r.(h1 := Xor(r.h1, MixK1(k1)));
    }
  }

  /** Cases 15 to 10 for the upper word, 8 to 2 for the lower one; the upper word has no byte 7. */
  method CasesDownTo1(bytes: seq<Byte>) returns (k: Word)
    requires |bytes| <= 8
    ensures k == XorFrom(bytes, 1)
  {
    k := XorIn(0, bytes, 7);
    assert XorFrom(bytes, 8) == 0 && k == XorFrom(bytes, 7);
    k := XorIn(k, bytes, 6);
    assert k == XorFrom(bytes, 6);
    k := XorIn(k, bytes, 5);
    assert k == XorFrom(bytes, 5);
    k := XorIn(k, bytes, 4);
    assert k == XorFrom(bytes, 4);
    k := XorIn(k, bytes, 3);
    assert k == XorFrom(bytes, 3);
    k := XorIn(k, bytes, 2);
    assert k == XorFrom(bytes, 2);
    k := XorIn(k, bytes, 1);
  }

  /** Mixing one block in. */
  method MixBlock(s: State, k1: Word, k2: Word) returns (r: State)
    ensures r == Block(s, k1, k2)
  {
    var h1, h2 := s.h1, s.h2;
    h1 := Xor(h1, MixK1(k1));
    h1 := Rotl(h1, 27);
    h1 := Plus(h1, h2);
    h1 := Plus(Times(h1, 5), 0x52dce729);
    h2 := Xor(h2, MixK2(k2));
    h2 := Rotl(h2, 31);
    h2 := Plus(h2, h1);
    h2 := Plus(Times(h2, 5), 0x38495ab5);
    r := State(h1, h2);
  }

  /** The body of the block loop. */
  method NextBlock(data: seq<Byte>, i: nat, s: State) returns (r: State)
    requires 16 * (i + 1) <= |data| && s == Blocks(data, i)
    ensures r == Blocks(data, i + 1)
  {
    var k1 := ReadLittleEndian64(data, 16 * i);
    var k2 := ReadLittleEndian64(data, 16 * i + 8);
    r := MixBlock(s, k1, k2);
  }

  /** What follows the tail: the length, and the final mixing of both words. */
  method Finalize(s: State, length: nat) returns (h: Word)
    ensures h == Finish(s, length)
  {
    var h1, h2 := Xor(s.h1, length % WORDS), Xor(s.h2, length % WORDS);
    h1 := Plus(h1, h2);
    h2 := Plus(h2, h1);
    h := Plus(Fmix(h1), Fmix(h2));
  }

  method Murmur3H1Bytes(data: seq<Byte>) returns (h: Word)
    ensures h == Hash(data)
  {
    var s := State(0, 0);
    var nblocks := |data| / 16;
    for i := 0 to nblocks
      invariant s == Blocks(data, i)
    {
      s := NextBlock(data, i, s);
    }
    s := MixTail(s, data[16 * nblocks..]);
    h := Finalize(s, |data|);
  }

  /** The hash as the C++ functions return it. */
  function Signed(w: Word): int {
    if w >= WORDS / 2 then w - WORDS else w
  }

  /** Two's complement: the signed number in 64 bits that agrees with the word modulo 2^64. */
  lemma SignedIsTwosComplement(w: Word)
    ensures -0x8000_0000_0000_0000 <= Signed(w) < 0x8000_0000_0000_0000 && Signed(w) % WORDS == w
  {
    if w >= WORDS / 2 {
      QuotientIsUnique(w - WORDS, WORDS, -1, w);
    }
  }
}
