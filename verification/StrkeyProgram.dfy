/**
 * The program's loops over numbers, each proved to compute what `Strkey` specifies over bits. Numbers are
 * kept to the width the program keeps them: 16 bits for the checksum, 32 for the Base32 accumulator.
 */
module StrkeyProgram {
  import opened Bits
  import opened Crc
  import opened Strkey

  /** Exclusive or of two 16-bit numbers. */
  function Xor16(a: nat, b: nat): (x: nat)
    requires a < 0x1_0000 && b < 0x1_0000
    ensures x < 0x1_0000
  {
    Powers();
    Num(Xor(BitsOf(a, 16), BitsOf(b, 16)))
  }

  ghost function Bits16(x: nat): (bits: seq<bool>)
    requires x < 0x1_0000
    ensures Register(bits)
  {
    Powers();
    BitsOf(x, 16)
  }

  lemma Xor16Bits(a: nat, b: nat)
    requires a < 0x1_0000 && b < 0x1_0000
    ensures Bits16(Xor16(a, b)) == Xor(Bits16(a), Bits16(b))
  {
    BitsOfNum(Xor(Bits16(a), Bits16(b)));
  }

  function StepNumber(crc: nat): (next: nat)
    requires crc < 0x1_0000
    ensures next < 0x1_0000
  {
    if crc / 0x8000 % 2 == 1 then Xor16(crc * 2 % 0x1_0000, 0x1021) else crc * 2 % 0x1_0000
  }

  lemma TopOf(crc: nat, top: bool, low: nat)
    requires low < 0x8000 && crc == (if top then 0x8000 else 0) + low
    ensures crc * 2 % 0x1_0000 == 2 * low && (top <==> crc / 0x8000 % 2 == 1)
  {
  }

  lemma DoubledBits(crc: nat)
    requires crc < 0x1_0000
    ensures Bits16(crc * 2 % 0x1_0000) == Bits16(crc)[1..] + [false]
    ensures Bits16(crc)[0] <==> crc / 0x8000 % 2 == 1
  {
    Powers();
    var bits := Bits16(crc);
    var rest := bits[1..];
    NumOfBitsOf(crc, 16);
    assert bits == [bits[0]] + rest;
    NumOfTop(bits[0], rest);
    TopOf(crc, bits[0], Num(rest));
    BitsOfNum(rest);
    Appended(Num(rest), 15, false);
  }

  lemma StepNumberBits(crc: nat)
    requires crc < 0x1_0000
    ensures Bits16(StepNumber(crc)) == Step(Bits16(crc))
  {
    DoubledBits(crc);
    if crc / 0x8000 % 2 == 1 {
      Xor16Bits(crc * 2 % 0x1_0000, 0x1021);
      PolyBits();
    }
  }

  lemma Appended(x: nat, width: nat, low: bool)
    requires x < Pow2(width)
    ensures var y := 2 * x + if low then 1 else 0;
            y < Pow2(width + 1) && BitsOf(y, width + 1) == BitsOf(x, width) + [low]
  {
  }

  lemma OneMore(bits: seq<bool>, bit: bool)
    ensures Num(bits + [bit]) == 2 * Num(bits) + if bit then 1 else 0
  {
    assert (bits + [bit])[..|bits|] == bits;
  }

  lemma TwoMore(bits: seq<bool>, a: bool, b: bool)
    ensures Num(bits + [a, b]) == 4 * Num(bits) + (if a then 2 else 0) + if b then 1 else 0
  {
    OneMore(bits, a);
    OneMore(bits + [a], b);
    assert bits + [a, b] == bits + [a] + [b];
  }

  lemma FourMore(bits: seq<bool>, a: bool, b: bool, c: bool, d: bool)
    ensures Num(bits + [a, b, c, d])
         == 16 * Num(bits) + (if a then 8 else 0) + (if b then 4 else 0) + (if c then 2 else 0) + if d then 1 else 0
  {
    TwoMore(bits, a, b);
    TwoMore(bits + [a, b], c, d);
    assert bits + [a, b, c, d] == bits + [a, b] + [c, d];
  }

  lemma PolyHigh()
    ensures Num([false, false, false, true, false, false, false, false]) == 0x10
  {
    FourMore([], false, false, false, true);
    FourMore([] + [false, false, false, true], false, false, false, false);
    assert [false, false, false, true, false, false, false, false]
        == [] + [false, false, false, true] + [false, false, false, false];
  }

  lemma PolyLow()
    ensures Num([false, false, true, false, false, false, false, true]) == 0x21
  {
    FourMore([], false, false, true, false);
    FourMore([] + [false, false, true, false], false, false, false, true);
    assert [false, false, true, false, false, false, false, true]
        == [] + [false, false, true, false] + [false, false, false, true];
  }

  lemma PolyIs()
    ensures Num(POLY) == 0x1021
  {
    Powers();
    PolyHigh();
    PolyLow();
    var high, low := POLY[..8], POLY[8..];
    assert high == [false, false, false, true, false, false, false, false];
    assert low == [false, false, true, false, false, false, false, true];
    NumConcat(high, low);
    assert POLY == high + low;
  }

  lemma PolyBits()
    ensures Bits16(0x1021) == POLY
  {
    PolyIs();
    BitsOfNum(POLY);
  }

  /** Bits that are all zero leave the empty register empty. */
  lemma {:induction false} ZerosLeaveZeros(count: nat, rest: seq<bool>)
    ensures Run(Zeros(16), Zeros(count) + rest) == Run(Zeros(16), rest)
    decreases count
  {
    if count == 0 {
      assert Zeros(0) + rest == rest;
    } else {
      var bits := Zeros(count) + rest;
      assert bits[0] == false && bits[1..] == Zeros(count - 1) + rest;
      assert Feed(Zeros(16), false) == Zeros(16);
      ZerosLeaveZeros(count - 1, rest);
    }
  }

  /** The checksum of the one byte 1 is the polynomial. */
  lemma ChecksumOfOne()
    ensures CrcOf([1]) == 0x1021
  {
    Powers();
    PolyIs();
    OneByte();
    ZerosLeaveZeros(7, [true]);
    assert Run(Zeros(16), [true]) == Feed(Zeros(16), true);
    var fed := Zeros(16)[0 := true];
    assert Feed(Zeros(16), true) == Step(fed) == Xor(fed[1..] + [false], POLY) == POLY;
  }

  lemma OneByte()
    ensures Bytes([1]) && ByteBits([1]) == Zeros(7) + [true]
  {
    Powers();
    OneMore(Zeros(7), true);
    NumOfZeros(7);
    BitsOfNum(Zeros(7) + [true]);
    UnpackLast([], 1, 8);
    assert [] + [1] == [1];
  }

  lemma ByteOverTop(crc: nat, byte: nat)
    requires crc < 0x1_0000 && byte < 256
    ensures Pow2(8) == 256 && Bits16(Xor16(crc, byte * 256)) == Over(Bits16(crc), BitsOf(byte, 8))
  {
    Powers();
    var shifted := BitsOf(byte, 8) + Zeros(8);
    NumConcat(BitsOf(byte, 8), Zeros(8));
    NumOfBitsOf(byte, 8);
    NumOfZeros(8);
    BitsOfNum(shifted);
    Xor16Bits(crc, byte * 256);
  }

  lemma RunByte(bytes: seq<nat>, i: nat)
    requires Bytes(bytes) && i < |bytes|
    ensures Pow2(8) == 256
    ensures Run(Zeros(16), ByteBits(bytes[..i + 1]))
         == Steps(Over(Run(Zeros(16), ByteBits(bytes[..i])), BitsOf(bytes[i], 8)), 8)
  {
    Powers();
    var c := Run(Zeros(16), ByteBits(bytes[..i]));
    assert bytes[..i + 1] == bytes[..i] + [bytes[i]];
    UnpackLast(bytes[..i], bytes[i], 8);
    RunConcat(Zeros(16), ByteBits(bytes[..i]), BitsOf(bytes[i], 8));
    RunAtOnce(c, BitsOf(bytes[i], 8));
  }

  ghost predicate ChecksumOf(crc: nat, bytes: seq<nat>) {
    crc < 0x1_0000 && Bytes(bytes) && Bits16(crc) == Run(Zeros(16), ByteBits(bytes))
  }

  ghost predicate StepsLeft(crc: nat, left: nat, end: seq<bool>) {
    crc < 0x1_0000 && Steps(Bits16(crc), left) == end
  }

  lemma ByteLaid(crc: nat, bytes: seq<nat>, i: nat)
    requires Bytes(bytes) && i < |bytes| && ChecksumOf(crc, bytes[..i])
    ensures StepsLeft(Xor16(crc, bytes[i] * 256), 8, Run(Zeros(16), ByteBits(bytes[..i + 1])))
  {
    ByteOverTop(crc, bytes[i]);
    RunByte(bytes, i);
  }

  lemma BitStepped(crc: nat, left: nat, end: seq<bool>)
    requires StepsLeft(crc, left, end) && left > 0
    ensures StepsLeft(StepNumber(crc), left - 1, end)
  {
    StepNumberBits(crc);
  }

  lemma ByteDone(crc: nat, bytes: seq<nat>, i: nat)
    requires Bytes(bytes) && i < |bytes| && StepsLeft(crc, 0, Run(Zeros(16), ByteBits(bytes[..i + 1])))
    ensures ChecksumOf(crc, bytes[..i + 1])
  {
  }

  lemma NoBytes()
    ensures ChecksumOf(0, [])
  {
    Powers();
    NumOfZeros(16);
    BitsOfNum(Zeros(16));
  }

  lemma AllBytes(crc: nat, bytes: seq<nat>)
    requires ChecksumOf(crc, bytes)
    ensures crc == CrcOf(bytes)
  {
    Powers();
    NumOfBitsOf(crc, 16);
  }

  /** The byte-wise loop computes the checksum. */
  method Crc16Xmodem(bytes: seq<nat>) returns (crc: nat)
    requires Bytes(bytes)
    ensures crc == CrcOf(bytes)
  {
    crc := 0;
    NoBytes();
    var i := 0;
    while i < |bytes|
      invariant i <= |bytes| && ChecksumOf(crc, bytes[..i])
    {
      ByteLaid(crc, bytes, i);
      ghost var end := Run(Zeros(16), ByteBits(bytes[..i + 1]));
      crc := Xor16(crc, bytes[i] * 256);
      var bit := 0;
      while bit < 8
        invariant bit <= 8 && StepsLeft(crc, 8 - bit, end)
      {
        BitStepped(crc, 8 - bit, end);
        crc := StepNumber(crc);
        bit := bit + 1;
      }
      ByteDone(crc, bytes, i);
      i := i + 1;
    }
    assert bytes[..i] == bytes;
    AllBytes(crc, bytes);
  }

  // ---------------------------------------------------------------------------------------- Base32

  /**
   * The accumulator between two letters: its last `bits` bits are `pend`, taken in and not yet written. Higher
   * bits are left over from earlier bytes or have been shifted out at 32 bits.
   */
  ghost predicate Accumulated(value: nat, bits: nat, pend: seq<bool>) {
    value < 0x1_0000_0000 && bits == |pend| <= 12 && Num(pend) == value % Pow2(bits)
  }

  /** `out` is the letters of all the bits taken in but the last, `pend`. */
  ghost predicate Written(all: seq<bool>, out: string, digits: seq<nat>, pend: seq<bool>) {
    Digits(digits) && out == Letters(digits) && all == DigitBits(digits) + pend
  }

  lemma SmallPowers()
    ensures Pow2(0) == 1 && Pow2(1) == 2 && Pow2(2) == 4 && Pow2(3) == 8 && Pow2(4) == 16 && Pow2(5) == 32
    ensures Pow2(6) == 64 && Pow2(7) == 128 && Pow2(8) == 256 && Pow2(9) == 512 && Pow2(10) == 1024
    ensures Pow2(11) == 2048 && Pow2(12) == 4096
  {
  }

  /** `(value >> (bits - 5)) & 31` */
  function NextDigit(value: nat, bits: nat): (digit: nat)
    requires bits >= 5
    ensures digit < 32
  {
    value / Pow2(bits - 5) % 32
  }

  /** `(value << (5 - bits)) & 31`, on 32 bits */
  function LastDigit(value: nat, bits: nat): (digit: nat)
    requires bits < 5
    ensures digit < 32
  {
    value * Pow2(5 - bits) % 0x1_0000_0000 % 32
  }

  /** Taking in a byte, although the accumulator wraps at 32 bits. */
  lemma ByteTaken(value: nat, bits: nat, pend: seq<bool>, byte: nat)
    requires Accumulated(value, bits, pend) && bits < 5 && byte < 256
    ensures Pow2(8) == 256 && Accumulated(value * 256 % 0x1_0000_0000 + byte, bits + 8, pend + BitsOf(byte, 8))
  {
    Powers();
    NumConcatBy(pend, BitsOf(byte, 8), 256);
    NumOfBitsOf(byte, 8);
    ByteShiftedIn(value, bits, byte, Num(pend), value * 256 % 0x1_0000_0000 + byte);
  }

  lemma ByteAwaits(bytes: seq<nat>, i: nat, out: string, digits: seq<nat>, pend: seq<bool>)
    requires Bytes(bytes) && i < |bytes| && Written(ByteBits(bytes[..i]), out, digits, pend)
    ensures Pow2(8) == 256 && Written(ByteBits(bytes[..i + 1]), out, digits, pend + BitsOf(bytes[i], 8))
  {
    Powers();
    assert bytes[..i + 1] == bytes[..i] + [bytes[i]];
    UnpackLast(bytes[..i], bytes[i], 8);
    Regrouped(DigitBits(digits), pend, BitsOf(bytes[i], 8));
  }

  lemma {:induction false} Ordered(d: nat, a: nat, b: nat)
    requires a < b
    ensures d * a + d <= d * b
    decreases b
  {
    Times(d, b);
    if a < b - 1 {
      Ordered(d, a, b - 1);
    }
  }

  lemma Times(d: nat, b: nat)
    requires b > 0
    ensures d * b == d * (b - 1) + d
  {
  }

  lemma DivisionIsUnique(x: nat, d: nat, q: nat, r: nat)
    requires x == d * q + r && r < d
    ensures x / d == q && x % d == r
  {
    var p := x / d;
    if p < q {
      Ordered(d, p, q);
    } else if p > q {
      Ordered(d, q, p);
    }
  }

  lemma LowBitsKept(value: nat, p: nat)
    requires p == 1 || p == 2 || p == 4 || p == 8 || p == 16
    ensures value % 0x100_0000 % p == value % p
  {
    var q, r := value / 0x100_0000, value % 0x100_0000;
    var m := if p == 1 then 0x100_0000 * q else if p == 2 then 0x80_0000 * q else if p == 4 then 0x40_0000 * q
             else if p == 8 then 0x20_0000 * q else 0x10_0000 * q;
    assert value == p * m + r;
    MultipleDropped(p, m, r);
  }

  lemma MultipleDropped(d: nat, m: nat, r: nat)
    requires d > 0
    ensures (d * m + r) % d == r % d
  {
    Euclid(r, d);
    Distributed(d, m, r / d);
    DivisionIsUnique(d * m + r, d, m + r / d, r % d);
  }

  lemma Distributed(d: nat, m: nat, n: nat)
    ensures d * (m + n) == d * m + d * n
  {
  }

  lemma ByteBelow(value: nat, p: nat, byte: nat)
    requires p > 0 && byte < 256
    ensures (value * 256 + byte) % (256 * p) == value % p * 256 + byte
  {
    var q, r := value / p, value % p;
    assert value == p * q + r;
    assert value * 256 + byte == 256 * p * q + (r * 256 + byte);
    DivisionIsUnique(value * 256 + byte, 256 * p, q, r * 256 + byte);
  }

  lemma ByteShiftedIn(value: nat, bits: nat, byte: nat, low: nat, next: nat)
    requires value < 0x1_0000_0000 && bits < 5 && byte < 256
    requires low == value % Pow2(bits) && next == value * 256 % 0x1_0000_0000 + byte
    ensures next < 0x1_0000_0000 && next % Pow2(bits + 8) == low * 256 + byte
  {
    var p := Pow2(bits);
    SmallPowers();
    assert p == 1 || p == 2 || p == 4 || p == 8 || p == 16;
    assert Pow2(bits + 8) == 256 * p;
    assert value * 256 % 0x1_0000_0000 == value % 0x100_0000 * 256;
    LowBitsKept(value, p);
    ByteBelow(value % 0x100_0000, p, byte);
  }

  lemma FiveDoublings(n: nat)
    ensures Pow2(n + 5) == 32 * Pow2(n)
  {
    assert Pow2(n + 2) == 4 * Pow2(n);
    assert Pow2(n + 4) == 4 * Pow2(n + 2);
  }

  /** Writing a letter takes the five oldest bits. */
  lemma LetterTaken(value: nat, bits: nat, pend: seq<bool>)
    requires Accumulated(value, bits, pend) && bits >= 5
    ensures Accumulated(value, bits - 5, pend[5..]) && Num(pend[..5]) == NextDigit(value, bits)
  {
    var head, rest := pend[..5], pend[5..];
    assert pend == head + rest;
    NumConcat(head, rest);
    Powers();
    FiveDoublings(bits - 5);
    TopDigit(value, Pow2(bits - 5), Num(head), Num(rest));
  }

  lemma LettersNext(digits: seq<nat>, digit: nat)
    requires Digits(digits) && digit < 32
    ensures Letters(digits + [digit]) == Letters(digits) + [BASE32[digit]]
  {
  }

  lemma LetterWritten(all: seq<bool>, out: string, digits: seq<nat>, pend: seq<bool>)
    requires Written(all, out, digits, pend) && |pend| >= 5
    ensures Num(pend[..5]) < 32
    ensures Written(all, out + [BASE32[Num(pend[..5])]], digits + [Num(pend[..5])], pend[5..])
  {
    Powers();
    var head, rest := pend[..5], pend[5..];
    assert pend == head + rest;
    BitsOfNum(head);
    UnpackLast(digits, Num(head), 5);
    Regrouped(DigitBits(digits), head, rest);
    LettersNext(digits, Num(head));
  }

  lemma Factored(p: nat, h: nat, digit: nat)
    ensures 32 * p * h + digit * p == p * (32 * h + digit)
  {
  }

  lemma TopDigitOf(value: nat, p: nat, h: nat, digit: nat, low: nat)
    requires digit < 32 && low < p && value == 32 * p * h + (digit * p + low)
    ensures value / p % 32 == digit && value % p == low
  {
    Factored(p, h, digit);
    DivisionIsUnique(value, p, 32 * h + digit, low);
  }

  lemma Euclid(x: nat, d: nat)
    requires d > 0
    ensures x / d >= 0 && x == d * (x / d) + x % d
  {
  }

  lemma TopDigit(value: nat, p: nat, digit: nat, low: nat)
    requires digit < 32 && low < p && value % (32 * p) == digit * p + low
    ensures value / p % 32 == digit && value % p == low
  {
    Euclid(value, 32 * p);
    TopDigitOf(value, p, value / (32 * p), digit, low);
  }

  lemma Filled(value: nat, p: nat, m: nat)
    requires p * m == 32 && p > 0
    ensures value * m % 0x1_0000_0000 % 32 == value % p * m
  {
    var q, r := value / p, value % p;
    assert value == p * q + r;
    assert value * m == 32 * q + r * m;
    Ordered(m, r, p);
    DivisionIsUnique(value * m, 32, q, r * m);
    DigitKept(value * m);
  }

  lemma DigitKept(x: nat)
    ensures x % 0x1_0000_0000 % 32 == x % 32
  {
    var q := x / 0x1_0000_0000;
    assert x == 0x1_0000_0000 * q + x % 0x1_0000_0000;
  }

  /** The last letter fills the bits left over up with zeros. */
  lemma LastLetter(value: nat, bits: nat, pend: seq<bool>)
    requires Accumulated(value, bits, pend) && bits < 5
    ensures LastDigit(value, bits) == Num(pend + Zeros(5 - bits))
  {
    SmallPowers();
    NumConcat(pend, Zeros(5 - bits));
    NumOfZeros(5 - bits);
    Filled(value, Pow2(bits), Pow2(5 - bits));
  }

  lemma RestOfFive(n: nat, k: nat, r: nat)
    requires n == 5 * k + r && r < 5
    ensures Padding(n) == if r == 0 then 0 else 5 - r
  {
  }

  lemma PackedWithRest(digits: seq<nat>, rest: seq<bool>, fill: seq<bool>)
    requires Digits(digits) && rest != [] && |rest| + |fill| == 5
    ensures Num(rest + fill) < 32
    ensures Pow2(5) == 32 && Pack(DigitBits(digits) + rest + fill, 5) == digits + [Num(rest + fill)]
  {
    Powers();
    Regrouped(DigitBits(digits), rest, fill);
    PackOfUnpack(digits, rest + fill, 5);
    PackStep(rest + fill, [], 5);
    assert (rest + fill) + [] == rest + fill;
  }

  lemma ByteIn(bytes: seq<nat>, i: nat, out: string, digits: seq<nat>, value: nat, bits: nat, pend: seq<bool>)
    requires Bytes(bytes) && i < |bytes| && bits < 5
    requires Accumulated(value, bits, pend) && Written(ByteBits(bytes[..i]), out, digits, pend)
    ensures Pow2(8) == 256
    ensures Accumulated(value * 256 % 0x1_0000_0000 + bytes[i], bits + 8, pend + BitsOf(bytes[i], 8))
    ensures Written(ByteBits(bytes[..i + 1]), out, digits, pend + BitsOf(bytes[i], 8))
  {
    ByteTaken(value, bits, pend, bytes[i]);
    ByteAwaits(bytes, i, out, digits, pend);
  }

  lemma LetterOut(all: seq<bool>, out: string, digits: seq<nat>, value: nat, bits: nat, pend: seq<bool>)
    requires bits >= 5 && Accumulated(value, bits, pend) && Written(all, out, digits, pend)
    ensures Accumulated(value, bits - 5, pend[5..])
    ensures var digit := NextDigit(value, bits);
            Written(all, out + [BASE32[digit]], digits + [digit], pend[5..])
  {
    LetterTaken(value, bits, pend);
    LetterWritten(all, out, digits, pend);
  }

  lemma PaddingOfWritten(all: seq<bool>, out: string, digits: seq<nat>, pend: seq<bool>)
    requires Written(all, out, digits, pend) && |pend| < 5
    ensures Padding(|all|) == if pend == [] then 0 else 5 - |pend|
  {
    Powers();
    UnpackLength(digits, 5);
    RestOfFive(|all|, |digits|, |pend|);
  }

  lemma EmittedAll(all: seq<bool>, out: string, digits: seq<nat>)
    requires Written(all, out, digits, [])
    ensures Base32Bits(all) == out
  {
    Powers();
    PaddingOfWritten(all, out, digits, []);
    assert all + Zeros(0) == DigitBits(digits) + [];
    PackOfUnpack(digits, [], 5);
    assert digits + [] == digits;
  }

  lemma EmittedButLast(all: seq<bool>, out: string, digits: seq<nat>, pend: seq<bool>)
    requires Written(all, out, digits, pend) && 0 < |pend| < 5
    ensures Num(pend + Zeros(5 - |pend|)) < 32
    ensures Base32Bits(all) == out + [BASE32[Num(pend + Zeros(5 - |pend|))]]
  {
    var fill := Zeros(5 - |pend|);
    PaddingOfWritten(all, out, digits, pend);
    PackedWithRest(digits, pend, fill);
    LettersNext(digits, Num(pend + fill));
    assert Base32Bits(all) == Letters(Pack(all + fill, 5));
  }

  lemma LastWritten(bytes: seq<nat>, out: string, digits: seq<nat>, pend: seq<bool>, last: nat)
    requires Bytes(bytes) && Written(ByteBits(bytes), out, digits, pend) && |pend| < 5
    requires last == Num(pend + Zeros(5 - |pend|)) < 32
    ensures Base32Of(bytes) == if pend == [] then out else out + [BASE32[last]]
  {
    if pend == [] {
      EmittedAll(ByteBits(bytes), out, digits);
    } else {
      EmittedButLast(ByteBits(bytes), out, digits, pend);
    }
  }

  lemma Finished(bytes: seq<nat>, out: string, digits: seq<nat>, value: nat, bits: nat, pend: seq<bool>)
    requires Bytes(bytes) && bits < 5
    requires Accumulated(value, bits, pend) && Written(ByteBits(bytes), out, digits, pend)
    ensures Base32Of(bytes) == if bits == 0 then out else out + [BASE32[LastDigit(value, bits)]]
  {
    LastLetter(value, bits, pend);
    LastWritten(bytes, out, digits, pend, LastDigit(value, bits));
  }

  /** The loop writes Base32, for bytes of any number. */
  method Base32(bytes: seq<nat>) returns (out: string)
    requires Bytes(bytes)
    ensures out == Base32Of(bytes)
  {
    Powers();
    var bits: nat, value: nat := 0, 0;
    out := "";
    ghost var digits: seq<nat>, pend: seq<bool> := [], [];
    var i := 0;
    while i < |bytes|
      invariant i <= |bytes| && bits < 5
      invariant Accumulated(value, bits, pend) && Written(ByteBits(bytes[..i]), out, digits, pend)
    {
      ByteIn(bytes, i, out, digits, value, bits, pend);
      ghost var all := ByteBits(bytes[..i + 1]);
      pend := pend + BitsOf(bytes[i], 8);
      value := value * 256 % 0x1_0000_0000 + bytes[i];
      bits := bits + 8;
      while bits >= 5
        invariant Accumulated(value, bits, pend) && Written(all, out, digits, pend)
      {
        LetterOut(all, out, digits, value, bits, pend);
        var digit := NextDigit(value, bits);
        digits, pend := digits + [digit], pend[5..];
        out := out + [BASE32[digit]];
        bits := bits - 5;
      }
      i := i + 1;
    }
    assert bytes[..i] == bytes;
    Finished(bytes, out, digits, value, bits, pend);
    if bits > 0 {
      out := out + [BASE32[LastDigit(value, bits)]];
    }
  }

  method EncodeStrKey(version: nat, payload: seq<nat>) returns (text: string)
    requires version < 256 && Bytes(payload)
    ensures text == StrKey(version, payload)
  {
    var body := [version] + payload;
    var crc := Crc16Xmodem(body);
    text := Base32(body + [crc % 256, crc / 256]);
  }

  // ------------------------------------------------------------------------------------- decoding

  /** `bits` are those of the first `i` letters. */
  ghost predicate Spelt(text: string, i: nat, bits: seq<bool>) {
    i <= |text| && InAlphabet(text[..i]) && bits == DigitBits(DigitsOf(text[..i]))
  }

  lemma HalfFirst(x: nat, p: nat)
    requires p > 0
    ensures x / 2 / p == x / (2 * p)
  {
    var half := x / 2;
    Euclid(half, p);
    assert x == 2 * p * (half / p) + (2 * (half % p) + x % 2);
    DivisionIsUnique(x, 2 * p, half / p, 2 * (half % p) + x % 2);
  }

  lemma {:induction false} BitAt(x: nat, width: nat, k: nat)
    requires x < Pow2(width) && k < width
    ensures BitsOf(x, width)[k] <==> x / Pow2(width - 1 - k) % 2 == 1
  {
    if k < width - 1 {
      BitAt(x / 2, width - 1, k);
      HalfFirst(x, Pow2(width - 2 - k));
    }
  }

  lemma DigitsNext(text: string, i: nat)
    requires i < |text| && InAlphabet(text[..i]) && Digit(text[i]) >= 0
    ensures InAlphabet(text[..i + 1]) && DigitsOf(text[..i + 1]) == DigitsOf(text[..i]) + [Digit(text[i])]
  {
    assert text[..i + 1] == text[..i] + [text[i]];
  }

  lemma DigitBitsNext(digits: seq<nat>, digit: nat)
    requires Digits(digits) && digit < 32
    ensures Digits(digits + [digit]) && Pow2(5) == 32
    ensures DigitBits(digits + [digit]) == DigitBits(digits) + BitsOf(digit, 5)
  {
    Powers();
    UnpackLast(digits, digit, 5);
  }

  lemma LetterSpelt(text: string, i: nat, bits: seq<bool>)
    requires Spelt(text, i, bits) && i < |text| && Digit(text[i]) >= 0
    ensures Pow2(5) == 32 && Spelt(text, i + 1, bits + BitsOf(Digit(text[i]), 5))
  {
    DigitsNext(text, i);
    DigitBitsNext(DigitsOf(text[..i]), Digit(text[i]));
  }

  ghost predicate Pushing(before: seq<bool>, index: nat, count: nat, bits: seq<bool>) {
    index < Pow2(5) && count <= 5 && bits == before + BitsOf(index, 5)[..count]
  }

  lemma BitPushed(before: seq<bool>, index: nat, count: nat, bits: seq<bool>)
    requires Pushing(before, index, count, bits) && count < 5
    ensures Pushing(before, index, count + 1, bits + [index / Pow2(4 - count) % 2 == 1])
  {
    BitAt(index, 5, count);
    assert BitsOf(index, 5)[..count + 1] == BitsOf(index, 5)[..count] + [BitsOf(index, 5)[count]];
  }

  /** The letters' bits, five each. Stops at a letter that is none. */
  method TextBits(text: string) returns (ok: bool, bits: seq<bool>)
    ensures ok <==> InAlphabet(text)
    ensures ok ==> bits == DigitBits(DigitsOf(text))
  {
    bits := [];
    var i := 0;
    while i < |text|
      invariant Spelt(text, i, bits)
    {
      var index := Digit(text[i]);
      if index == -1 {
        return false, bits;
      }
      LetterSpelt(text, i, bits);
      ghost var before := bits;
      Powers();
      var bit := 4;
      while bit >= 0
        invariant -1 <= bit <= 4 && Pushing(before, index, 4 - bit, bits)
      {
        BitPushed(before, index, 4 - bit, bits);
        bits := bits + [index / Pow2(bit) % 2 == 1];
        bit := bit - 1;
      }
      i := i + 1;
    }
    assert text[..i] == text;
    return true, bits;
  }

  lemma NumNext(bits: seq<bool>, from: nat, count: nat)
    requires from + count < |bits|
    ensures Num(bits[from..from + count + 1]) == 2 * Num(bits[from..from + count]) + if bits[from + count] then 1 else 0
  {
    var group := bits[from..from + count + 1];
    assert group[..|group| - 1] == bits[from..from + count];
  }

  /** `done` are the bytes of the first `8 * |done|` bits. */
  ghost predicate Packed(bits: seq<bool>, done: seq<nat>) {
    8 * |done| <= |bits| && Pack(bits, 8) == done + Pack(bits[8 * |done|..], 8)
  }

  lemma BytePacked(bits: seq<bool>, done: seq<nat>)
    requires Packed(bits, done) && 8 * |done| + 8 <= |bits|
    ensures Packed(bits, done + [Num(bits[8 * |done|..8 * |done| + 8])])
  {
    var at := 8 * |done|;
    var head, rest := bits[at..at + 8], bits[at + 8..];
    assert bits[at..] == head + rest;
    PackStep(head, rest, 8);
    Regrouped(done, [Num(head)], Pack(rest, 8));
  }

  /** Fills a buffer with the whole bytes the bits spell. */
  method PackBytes(bits: seq<bool>) returns (bytes: array<nat>)
    ensures fresh(bytes) && bytes[..] == Pack(bits, 8)
  {
    bytes := new nat[|bits| / 8];
    assert bits[0..] == bits;
    var i := 0;
    while i < bytes.Length
      invariant i <= bytes.Length && Packed(bits, bytes[..i])
    {
      ghost var done := bytes[..i];
      var byte := PackByte(bits, 8 * i);
      BytePacked(bits, done);
      bytes[i] := byte;
      assert bytes[..i + 1] == done + [byte];
      i := i + 1;
    }
    assert bytes[..i] == bytes[..];
  }

  /** The number eight bits spell. */
  method PackByte(bits: seq<bool>, from: nat) returns (byte: nat)
    requires from + 8 <= |bits|
    ensures byte == Num(bits[from..from + 8])
  {
    var bit := 0;
    byte := 0;
    while bit < 8
      invariant bit <= 8 && byte == Num(bits[from..from + bit])
    {
      NumNext(bits, from, bit);
      byte := 2 * byte + if bits[from + bit] then 1 else 0;
      bit := bit + 1;
    }
  }

  method DecodeStrKey(text: string, version: nat) returns (result: Decoding)
    ensures result == Decoded(text, version)
  {
    var ok, bits := TextBits(text);
    if !ok {
      return NotAStrkey;
    }
    var bytes := PackBytes(bits);
    assert bytes[..] == BytesOf(text);
    var length := if bytes.Length < 2 then 0 else bytes.Length - 2;
    var body := bytes[..length];
    assert body == BytesOf(text)[..length];
    var crc := Crc16Xmodem(body);
    if bytes.Length != 35 || body[0] != version || bytes[33] != crc % 256 || bytes[34] != crc / 256 {
      return NotValid;
    }
    return Ok(body[1..]);
  }
}
