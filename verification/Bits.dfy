/** Numbers and their bits, most significant first, and packing bits into groups. */
module Bits {

  function Pow2(n: nat): (p: nat)
    ensures p > 0
  {
    if n == 0 then 1 else 2 * Pow2(n - 1)
  }

  /** The number some bits spell. */
  function Num(bits: seq<bool>): (x: nat)
    ensures x < Pow2(|bits|)
  {
    if bits == [] then 0 else 2 * Num(bits[..|bits| - 1]) + if bits[|bits| - 1] then 1 else 0
  }

  /** The `width` bits of a number. */
  function BitsOf(x: nat, width: nat): (bits: seq<bool>)
    requires x < Pow2(width)
    ensures |bits| == width
  {
    if width == 0 then [] else BitsOf(x / 2, width - 1) + [x % 2 == 1]
  }

  lemma {:induction false} NumOfBitsOf(x: nat, width: nat)
    requires x < Pow2(width)
    ensures Num(BitsOf(x, width)) == x
  {
    if width > 0 {
      NumOfBitsOf(x / 2, width - 1);
      assert BitsOf(x, width)[..width - 1] == BitsOf(x / 2, width - 1);
    }
  }

  lemma {:induction false} BitsOfNum(bits: seq<bool>)
    ensures BitsOf(Num(bits), |bits|) == bits
  {
    if bits != [] {
      var n := |bits| - 1;
      BitsOfNum(bits[..n]);
      assert bits == bits[..n] + [bits[n]];
    }
  }

  lemma ShiftedOnce(high: nat, scale: nat, low: nat, bit: nat)
    ensures 2 * (high * scale + low) + bit == high * (2 * scale) + (2 * low + bit)
  {
  }

  /** Appending bits shifts the number left. */
  lemma {:induction false} NumConcat(a: seq<bool>, b: seq<bool>)
    ensures Num(a + b) == Num(a) * Pow2(|b|) + Num(b)
  {
    if b == [] {
      assert a + b == a;
    } else {
      var n := |b| - 1;
      NumConcat(a, b[..n]);
      assert (a + b)[..|a + b| - 1] == a + b[..n];
      ShiftedOnce(Num(a), Pow2(n), Num(b[..n]), if b[n] then 1 else 0);
    }
  }

  lemma NumConcatBy(a: seq<bool>, b: seq<bool>, scale: nat)
    requires Pow2(|b|) == scale
    ensures Num(a + b) == Num(a) * scale + Num(b)
  {
    NumConcat(a, b);
  }

  lemma {:induction false} NumOfTop(top: bool, rest: seq<bool>)
    ensures Num([top] + rest) == (if top then Pow2(|rest|) else 0) + Num(rest)
  {
    if rest == [] {
      assert ([top] + rest)[..0] == [];
    } else {
      var n := |rest| - 1;
      NumOfTop(top, rest[..n]);
      assert ([top] + rest)[..n + 1] == [top] + rest[..n];
    }
  }

  function Zeros(n: nat): (bits: seq<bool>)
    ensures |bits| == n && forall i | 0 <= i < n :: !bits[i]
  {
    if n == 0 then [] else [false] + Zeros(n - 1)
  }

  lemma {:induction false} NumOfZeros(n: nat)
    ensures Num(Zeros(n)) == 0
  {
    if n > 0 {
      assert Zeros(n)[..n - 1] == Zeros(n - 1);
      NumOfZeros(n - 1);
    }
  }

  // -------------------------------------------------------------------------------------- packing

  ghost predicate AllBelow(xs: seq<nat>, bound: nat) {
    forall i | 0 <= i < |xs| :: xs[i] < bound
  }

  /** The bits of some numbers of `width` bits each, one after the other. */
  ghost function Unpack(xs: seq<nat>, width: nat): seq<bool>
    requires AllBelow(xs, Pow2(width))
  {
    if xs == [] then [] else Unpack(xs[..|xs| - 1], width) + BitsOf(xs[|xs| - 1], width)
  }

  /** The numbers that whole groups of `width` bits spell; bits left over are dropped. */
  ghost function Pack(bits: seq<bool>, width: nat): (xs: seq<nat>)
    requires width > 0
    ensures AllBelow(xs, Pow2(width))
    decreases |bits|
  {
    if |bits| < width then [] else [Num(bits[..width])] + Pack(bits[width..], width)
  }

  lemma {:induction false} UnpackLength(xs: seq<nat>, width: nat)
    requires AllBelow(xs, Pow2(width))
    ensures |Unpack(xs, width)| == |xs| * width
  {
    if xs != [] {
      var n := |xs| - 1;
      UnpackLength(xs[..n], width);
      assert (n + 1) * width == n * width + width;
    }
  }

  lemma Regrouped<T>(a: seq<T>, b: seq<T>, c: seq<T>)
    ensures (a + b) + c == a + (b + c)
  {
  }

  lemma UnpackLast(xs: seq<nat>, x: nat, width: nat)
    requires AllBelow(xs, Pow2(width)) && x < Pow2(width)
    ensures Unpack(xs + [x], width) == Unpack(xs, width) + BitsOf(x, width)
  {
    assert (xs + [x])[..|xs|] == xs;
  }

  lemma {:induction false} UnpackConcat(a: seq<nat>, b: seq<nat>, width: nat)
    requires AllBelow(a, Pow2(width)) && AllBelow(b, Pow2(width))
    ensures AllBelow(a + b, Pow2(width)) && Unpack(a + b, width) == Unpack(a, width) + Unpack(b, width)
  {
    if b == [] {
      assert a + b == a;
    } else {
      var n := |b| - 1;
      UnpackConcat(a, b[..n], width);
      assert b == b[..n] + [b[n]];
      Regrouped(a, b[..n], [b[n]]);
      UnpackLast(a + b[..n], b[n], width);
      Regrouped(Unpack(a, width), Unpack(b[..n], width), BitsOf(b[n], width));
    }
  }

  lemma UnpackOne(x: nat, width: nat)
    requires x < Pow2(width)
    ensures Unpack([x], width) == BitsOf(x, width)
  {
    assert [x][..0] == [];
  }

  lemma PackStep(head: seq<bool>, rest: seq<bool>, width: nat)
    requires width > 0 && |head| == width
    ensures Pack(head + rest, width) == [Num(head)] + Pack(rest, width)
  {
    assert (head + rest)[..width] == head && (head + rest)[width..] == rest;
  }

  lemma UnpackStep(x: nat, xs: seq<nat>, width: nat)
    requires x < Pow2(width) && AllBelow(xs, Pow2(width))
    ensures Unpack([x] + xs, width) == BitsOf(x, width) + Unpack(xs, width)
  {
    UnpackConcat([x], xs, width);
    UnpackOne(x, width);
  }

  /** Packing what was unpacked gives the numbers back; whatever follows them is packed on its own. */
  lemma {:induction false} PackOfUnpack(xs: seq<nat>, rest: seq<bool>, width: nat)
    requires width > 0 && AllBelow(xs, Pow2(width))
    ensures Pack(Unpack(xs, width) + rest, width) == xs + Pack(rest, width)
  {
    if xs == [] {
      assert Unpack(xs, width) + rest == rest;
    } else {
      var x, more := xs[0], xs[1..];
      assert xs == [x] + more;
      UnpackStep(x, more, width);
      Regrouped(BitsOf(x, width), Unpack(more, width), rest);
      PackStep(BitsOf(x, width), Unpack(more, width) + rest, width);
      NumOfBitsOf(x, width);
      PackOfUnpack(more, rest, width);
      Regrouped([x], more, Pack(rest, width));
    }
  }

  /** Unpacking what was packed gives the bits back but for an incomplete last group. */
  lemma {:induction false} UnpackOfPack(bits: seq<bool>, width: nat)
    requires width > 0
    ensures Unpack(Pack(bits, width), width) <= bits
    ensures |bits| < |Unpack(Pack(bits, width), width)| + width
    decreases |bits|
  {
    if |bits| >= width {
      var head, rest := bits[..width], bits[width..];
      assert bits == head + rest;
      PackStep(head, rest, width);
      UnpackStep(Num(head), Pack(rest, width), width);
      BitsOfNum(head);
      UnpackOfPack(rest, width);
    }
  }
}
