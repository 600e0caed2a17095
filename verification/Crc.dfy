/** CRC-16/XMODEM as a shift register of 16 bits, most significant first, and the changes it detects. */
module Crc {
  import opened Bits

  ghost predicate Register(c: seq<bool>) {
    |c| == 16
  }

  /** The generator, 0x1021. */
  const POLY := [false, false, false, true, false, false, false, false,
                 false, false, true, false, false, false, false, true]

  function Xor(a: seq<bool>, b: seq<bool>): (x: seq<bool>)
    requires |a| == |b|
    ensures |x| == |a| && forall i | 0 <= i < |a| :: x[i] == (a[i] != b[i])
  {
    seq(|a|, i requires 0 <= i < |a| => a[i] != b[i])
  }

  /** Shifts one bit out, and takes the generator off when that bit was set. */
  ghost function Step(c: seq<bool>): (next: seq<bool>)
    requires Register(c)
    ensures Register(next)
  {
    if c[0] then Xor(c[1..] + [false], POLY) else c[1..] + [false]
  }

  ghost function Steps(c: seq<bool>, n: nat): (next: seq<bool>)
    requires Register(c)
    ensures Register(next)
    decreases n
  {
    if n == 0 then c else Steps(Step(c), n - 1)
  }

  ghost function Feed(c: seq<bool>, bit: bool): (next: seq<bool>)
    requires Register(c)
    ensures Register(next)
  {
    Step(c[0 := c[0] != bit])
  }

  /** The register after some bits of a message. */
  ghost function Run(c: seq<bool>, bits: seq<bool>): (next: seq<bool>)
    requires Register(c)
    ensures Register(next)
    decreases |bits|
  {
    if bits == [] then c else Run(Feed(c, bits[0]), bits[1..])
  }

  // ---------------------------------------------------------------------------------------- laws

  lemma StepIsLinear(a: seq<bool>, b: seq<bool>)
    requires Register(a) && Register(b)
    ensures Step(Xor(a, b)) == Xor(Step(a), Step(b))
  {
  }

  lemma FeedIsLinear(a: seq<bool>, x: bool, b: seq<bool>, y: bool)
    requires Register(a) && Register(b)
    ensures Feed(Xor(a, b), x != y) == Xor(Feed(a, x), Feed(b, y))
  {
    var c, d := a[0 := a[0] != x], b[0 := b[0] != y];
    assert Xor(a, b)[0 := Xor(a, b)[0] != (x != y)] == Xor(c, d);
    StepIsLinear(c, d);
  }

  /** The checksum of a sum is the sum of the checksums. */
  lemma {:induction false} RunIsLinear(c: seq<bool>, x: seq<bool>, d: seq<bool>, y: seq<bool>)
    requires Register(c) && Register(d) && |x| == |y|
    ensures Run(Xor(c, d), Xor(x, y)) == Xor(Run(c, x), Run(d, y))
    decreases |x|
  {
    if x != [] {
      FeedIsLinear(c, x[0], d, y[0]);
      assert Xor(x, y)[1..] == Xor(x[1..], y[1..]);
      RunIsLinear(Feed(c, x[0]), x[1..], Feed(d, y[0]), y[1..]);
    }
  }

  lemma {:induction false} RunConcat(c: seq<bool>, a: seq<bool>, b: seq<bool>)
    requires Register(c)
    ensures Run(c, a + b) == Run(Run(c, a), b)
    decreases |a|
  {
    if a == [] {
      assert a + b == b;
    } else {
      assert (a + b)[1..] == a[1..] + b;
      RunConcat(Feed(c, a[0]), a[1..], b);
    }
  }

  /** The bit step is injective: only the empty register steps to the empty register. */
  lemma {:induction false} StepsAreInjective(c: seq<bool>, n: nat)
    requires Register(c) && Steps(c, n) == Zeros(16)
    ensures c == Zeros(16)
    decreases n
  {
    if n > 0 {
      StepsAreInjective(Step(c), n - 1);
      assert Step(c)[15] == c[0];
      assert forall i | 1 <= i < 16 :: c[i] == Step(c)[i - 1];
    }
  }

  lemma {:induction false} RunOfZeros(c: seq<bool>, n: nat)
    requires Register(c)
    ensures Run(c, Zeros(n)) == Steps(c, n)
    decreases n
  {
    if n > 0 {
      assert Zeros(n)[1..] == Zeros(n - 1);
      assert c[0 := c[0] != false] == c;
      RunOfZeros(Step(c), n - 1);
    }
  }

  lemma {:induction false} ZerosStay(n: nat)
    ensures Steps(Zeros(16), n) == Zeros(16)
  {
    if n > 0 {
      assert Step(Zeros(16)) == Zeros(16);
      ZerosStay(n - 1);
    }
  }

  /** Bits laid over the top of the register. */
  ghost function Over(c: seq<bool>, bits: seq<bool>): (next: seq<bool>)
    requires Register(c) && |bits| <= 16
    ensures Register(next)
  {
    Xor(c, bits + Zeros(16 - |bits|))
  }

  /** Up to 16 bits may be laid over the register at once and stepped through: the byte-wise form. */
  lemma {:induction false} RunAtOnce(c: seq<bool>, bits: seq<bool>)
    requires Register(c) && |bits| <= 16
    ensures Run(c, bits) == Steps(Over(c, bits), |bits|)
    decreases |bits|
  {
    if bits == [] {
      assert Over(c, bits) == c;
    } else {
      var first, rest := c[0 := c[0] != bits[0]], bits[1..];
      var below := [false] + rest + Zeros(16 - |bits|);
      assert Over(c, bits) == Xor(first, below);
      StepIsLinear(first, below);
      assert Step(below) == rest + Zeros(16 - |rest|);
      RunAtOnce(Step(first), rest);
    }
  }

  // ----------------------------------------------------------------------------- error detection

  /** A nonempty pattern of at most 16 bits, with nothing before or after it, has a nonempty checksum. */
  lemma BurstLeavesTrace(before: nat, burst: seq<bool>, after: nat)
    requires |burst| <= 16 && true in burst
    ensures Run(Zeros(16), Zeros(before) + burst + Zeros(after)) != Zeros(16)
  {
    RunAfterZeros(before, burst);
    RunAtOnce(Zeros(16), burst);
    var laid := Over(Zeros(16), burst);
    var i :| 0 <= i < |burst| && burst[i];
    assert laid[i];
    var c := Steps(laid, |burst|);
    RunConcat(Zeros(16), Zeros(before) + burst, Zeros(after));
    RunOfZeros(c, after);
    if Steps(c, after) == Zeros(16) {
      StepsAreInjective(c, after);
      StepsAreInjective(laid, |burst|);
      assert false;
    }
  }

  lemma RunAfterZeros(before: nat, bits: seq<bool>)
    ensures Run(Zeros(16), Zeros(before) + bits) == Run(Zeros(16), bits)
  {
    RunConcat(Zeros(16), Zeros(before), bits);
    RunOfZeros(Zeros(16), before);
    ZerosStay(before);
  }

  ghost predicate DifferOnlyWithin(x: seq<bool>, y: seq<bool>, from: nat, count: nat) {
    && |x| == |y|
    && from + count <= |x|
    && forall i | 0 <= i < |x| && x[i] != y[i] :: from <= i < from + count
  }

  /** The checksum of two messages' difference is the difference of their checksums. */
  lemma RunOfDifference(x: seq<bool>, y: seq<bool>)
    requires |x| == |y|
    ensures Run(Zeros(16), Xor(x, y)) == Xor(Run(Zeros(16), x), Run(Zeros(16), y))
  {
    RunIsLinear(Zeros(16), x, Zeros(16), y);
    assert Xor(Zeros(16), Zeros(16)) == Zeros(16);
  }

  lemma DifferenceIsBurst(x: seq<bool>, y: seq<bool>, from: nat, count: nat)
    requires DifferOnlyWithin(x, y, from, count) && x != y
    ensures var burst := Xor(x, y)[from..from + count];
            true in burst && Xor(x, y) == Zeros(from) + burst + Zeros(|x| - from - count)
  {
    var e := Xor(x, y);
    var i :| 0 <= i < |x| && x[i] != y[i];
    assert e[from..from + count][i - from];
  }

  lemma XorOfSame(c: seq<bool>)
    requires Register(c)
    ensures Xor(c, c) == Zeros(16)
  {
  }

  /** Two messages that differ, and only within some 16 consecutive bits, have different checksums. */
  lemma BurstsAreDetected(x: seq<bool>, y: seq<bool>, from: nat, count: nat)
    requires DifferOnlyWithin(x, y, from, count) && count <= 16 && x != y
    ensures Run(Zeros(16), x) != Run(Zeros(16), y)
  {
    DifferenceIsBurst(x, y, from, count);
    BurstLeavesTrace(from, Xor(x, y)[from..from + count], |x| - from - count);
    RunOfDifference(x, y);
    XorOfSame(Run(Zeros(16), x));
  }

  /** `c` after `k` steps from a register that held `bits` at the top and nothing else. */
  ghost predicate Moving(c: seq<bool>, bits: seq<bool>, k: nat) {
    && Register(c) && |bits| == 4 && k <= 4
    && (forall i | 0 <= i < 4 - k :: c[i] == bits[k + i])
    && (forall i | 0 <= i < k :: c[16 - k + i] == bits[i])
  }

  lemma MovingOn(c: seq<bool>, bits: seq<bool>, k: nat)
    requires Moving(c, bits, k) && k < 4
    ensures Moving(Step(c), bits, k + 1)
  {
    var next := Step(c);
    assert next[15] == c[0] == bits[k];
    assert forall i | 0 <= i < 3 || 12 <= i < 15 :: next[i] == c[i + 1];
  }

  lemma {:induction false} MovedThrough(c: seq<bool>, bits: seq<bool>, k: nat)
    requires Moving(c, bits, k)
    ensures Moving(Steps(c, 4 - k), bits, 4)
    decreases 4 - k
  {
    if k < 4 {
      MovingOn(c, bits, k);
      MovedThrough(Step(c), bits, k + 1);
    }
  }

  /** Four bits at the end of a message reach the lowest four bits of its checksum unchanged. */
  lemma LastNibble(bits: seq<bool>)
    requires |bits| == 4
    ensures Run(Zeros(16), bits)[12..] == bits
  {
    RunAtOnce(Zeros(16), bits);
    MovedThrough(Over(Zeros(16), bits), bits, 0);
  }

  /** So two messages that differ only in their last four bits differ there in their checksums. */
  lemma LastNibbleIsDetected(x: seq<bool>, y: seq<bool>)
    requires |x| >= 4 && DifferOnlyWithin(x, y, |x| - 4, 4) && x != y
    ensures Run(Zeros(16), x)[12..] != Run(Zeros(16), y)[12..]
  {
    var n := |x| - 4;
    DifferenceIsBurst(x, y, n, 4);
    var burst := Xor(x, y)[n..n + 4];
    assert Xor(x, y) == Zeros(n) + burst;
    RunAfterZeros(n, burst);
    LastNibble(burst);
    RunOfDifference(x, y);
    var c, d := Run(Zeros(16), x), Run(Zeros(16), y);
    var i :| 0 <= i < 4 && burst[i];
    assert Xor(c, d)[12..][i] == burst[i];
    assert c[12..][i] != d[12..][i];
  }
}
