/** What holds of every strkey: decoding inverts encoding, encoding inverts decoding, and changes are detected. */
module StrkeyLaws {
  import opened Bits
  import opened Crc
  import opened Strkey

  /** A message with its checksum after it, low byte first. */
  ghost function Sealed(body: seq<nat>): (bytes: seq<nat>)
    requires Bytes(body)
    ensures Bytes(bytes)
  {
    body + [CrcOf(body) % 256, CrcOf(body) / 256]
  }

  ghost function Checksum(x: seq<bool>): (c: seq<bool>)
    ensures |c| == 16
  {
    Run(Zeros(16), x)
  }

  /** The bits of a sealed message. */
  ghost function SealedBits(x: seq<bool>): (code: seq<bool>)
    ensures |code| == |x| + 16
  {
    x + Checksum(x)[8..] + Checksum(x)[..8]
  }

  lemma HighAndLow(x: nat, high: nat, low: nat)
    requires x == high * 256 + low && low < 256
    ensures x % 256 == low && x / 256 == high
  {
  }

  lemma HalvesOfNumber(c: seq<bool>)
    requires |c| == 16
    ensures Pow2(8) == 256 && Num(c) < 0x1_0000
    ensures BitsOf(Num(c) % 256, 8) == c[8..] && BitsOf(Num(c) / 256, 8) == c[..8]
  {
    Powers();
    var high, low := c[..8], c[8..];
    assert c == high + low;
    NumConcatBy(high, low, 256);
    HighAndLow(Num(c), Num(high), Num(low));
    BitsOfNum(high);
    BitsOfNum(low);
  }

  lemma BitsOfSealed(body: seq<nat>)
    requires Bytes(body)
    ensures ByteBits(Sealed(body)) == SealedBits(ByteBits(body))
  {
    Powers();
    var low, high := CrcOf(body) % 256, CrcOf(body) / 256;
    HalvesOfNumber(Checksum(ByteBits(body)));
    assert Sealed(body) == (body + [low]) + [high];
    UnpackLast(body, low, 8);
    UnpackLast(body + [low], high, 8);
  }

  lemma DigitsOfLetters(digits: seq<nat>)
    requires Digits(digits)
    ensures InAlphabet(Letters(digits)) && DigitsOf(Letters(digits)) == digits
  {
    forall i | 0 <= i < |digits| ensures Digit(Letters(digits)[i]) == digits[i] {
      DigitOfLetter(digits[i]);
    }
  }

  lemma LettersOfDigits(text: string)
    requires InAlphabet(text)
    ensures Letters(DigitsOf(text)) == text
  {
  }

  /** A text whose bits are those of some bytes, and fewer than eight more, decodes to those bytes. */
  lemma BytesOfSpelt(text: string, bytes: seq<nat>, rest: seq<bool>)
    requires InAlphabet(text) && Bytes(bytes) && |rest| < 8
    requires DigitBits(DigitsOf(text)) == ByteBits(bytes) + rest
    ensures BytesOf(text) == bytes
  {
    Powers();
    PackOfUnpack(bytes, rest, 8);
    assert bytes + [] == bytes;
  }

  /** The text of 35 bytes is 56 letters, which spell just those bytes. */
  lemma TextOfSealed(bytes: seq<nat>)
    requires Bytes(bytes) && |bytes| == 35
    ensures var text := Base32Of(bytes);
            |text| == 56 && InAlphabet(text) && DigitBits(DigitsOf(text)) == ByteBits(bytes)
  {
    Powers();
    var bits := ByteBits(bytes);
    UnpackLength(bytes, 8);
    assert bits + Zeros(Padding(|bits|)) == bits;
    var digits := Pack(bits, 5);
    UnpackOfPack(bits, 5);
    UnpackLength(digits, 5);
    DigitsOfLetters(digits);
  }

  /** Whatever text spells some bytes begins with their text. */
  lemma TextOfSpelt(text: string, bytes: seq<nat>)
    requires InAlphabet(text) && Bytes(bytes) && |bytes| == 35
    requires DigitBits(DigitsOf(text)) == ByteBits(bytes)
    ensures text == Base32Of(bytes)
  {
    NothingPadded(bytes);
    DigitsSpell(text, ByteBits(bytes));
    LettersOfDigits(text);
  }

  lemma NothingPadded(bytes: seq<nat>)
    requires Bytes(bytes) && |bytes| == 35
    ensures var bits := ByteBits(bytes); bits + Zeros(Padding(|bits|)) == bits
  {
    Powers();
    UnpackLength(bytes, 8);
  }

  lemma DigitsSpell(text: string, bits: seq<bool>)
    requires InAlphabet(text) && DigitBits(DigitsOf(text)) == bits
    ensures Pack(bits, 5) == DigitsOf(text)
  {
    Powers();
    PackOfUnpack(DigitsOf(text), [], 5);
    assert DigitBits(DigitsOf(text)) + [] == bits;
    assert DigitsOf(text) + [] == DigitsOf(text);
  }

  ghost predicate Key(version: nat, payload: seq<nat>) {
    version < 256 && Bytes(payload) && |payload| == 32
  }

  ghost predicate ExtraLetter(extra: string) {
    |extra| <= 1 && InAlphabet(extra)
  }

  /** Decoding inverts encoding; one more letter after the text changes nothing. */
  lemma DecodingInvertsEncoding(version: nat, payload: seq<nat>, extra: string)
    requires Key(version, payload) && ExtraLetter(extra)
    ensures Decoded(StrKey(version, payload) + extra, version) == Ok(payload)
    ensures forall other | other != version :: Decoded(StrKey(version, payload) + extra, other) == NotValid
  {
    BytesOfEncoding(version, payload, extra);
    assert Sealed([version] + payload)[..33] == [version] + payload;
  }

  lemma BytesOfEncoding(version: nat, payload: seq<nat>, extra: string)
    requires Key(version, payload) && ExtraLetter(extra)
    ensures var text := StrKey(version, payload) + extra;
            InAlphabet(text) && BytesOf(text) == Sealed([version] + payload)
  {
    var body := [version] + payload;
    TextOfSealed(Sealed(body));
    SpeltAndMore(StrKey(version, payload), extra, Sealed(body));
  }

  lemma DigitsOfMore(text: string, more: string)
    requires InAlphabet(text) && InAlphabet(more)
    ensures InAlphabet(text + more) && DigitsOf(text + more) == DigitsOf(text) + DigitsOf(more)
  {
  }

  /** One letter more than spells some bytes spells none. */
  lemma SpeltAndMore(text: string, extra: string, bytes: seq<nat>)
    requires InAlphabet(text) && ExtraLetter(extra) && Bytes(bytes) && DigitBits(DigitsOf(text)) == ByteBits(bytes)
    ensures InAlphabet(text + extra) && BytesOf(text + extra) == bytes
  {
    Powers();
    DigitsOfMore(text, extra);
    UnpackConcat(DigitsOf(text), DigitsOf(extra), 5);
    UnpackLength(DigitsOf(extra), 5);
    BytesOfSpelt(text + extra, bytes, DigitBits(DigitsOf(extra)));
  }

  lemma TextLength(text: string)
    requires InAlphabet(text) && |BytesOf(text)| == 35
    ensures 56 <= |text| <= 57
    ensures DigitBits(DigitsOf(text[..56])) == ByteBits(BytesOf(text))
  {
    TextSize(text);
    Powers();
    UnpackOfPack(DigitBits(DigitsOf(text)), 8);
    UnpackLength(BytesOf(text), 8);
    var first, last := DigitsOf(text[..56]), DigitsOf(text[56..]);
    assert text == text[..56] + text[56..];
    DigitsOfMore(text[..56], text[56..]);
    UnpackConcat(first, last, 5);
    UnpackLength(first, 5);
  }

  lemma TextSize(text: string)
    requires InAlphabet(text) && |BytesOf(text)| == 35
    ensures 56 <= |text| <= 57
  {
    Powers();
    UnpackLength(DigitsOf(text), 5);
    UnpackOfPack(DigitBits(DigitsOf(text)), 8);
    UnpackLength(BytesOf(text), 8);
  }

  /** Encoding inverts decoding, on the first 56 letters of whatever is accepted. */
  lemma EncodingInvertsDecoding(text: string, version: nat)
    requires Decoded(text, version).Ok?
    ensures var payload := Decoded(text, version).payload;
            Key(version, payload) && 56 <= |text| <= 57 && text[..56] == StrKey(version, payload)
  {
    DecodedIsSealed(text, version);
    TextLength(text);
    TextOfSpelt(text[..56], BytesOf(text));
  }

  lemma DecodedIsSealed(text: string, version: nat)
    requires Decoded(text, version).Ok?
    ensures var payload := Decoded(text, version).payload;
            Key(version, payload) && BytesOf(text) == Sealed([version] + payload)
  {
    var body := BytesOf(text)[..33];
    assert body == [version] + body[1..];
    assert BytesOf(text) == Sealed(body);
  }

  /** Exactly which texts are accepted: a key's text, or that and one more letter of the alphabet. */
  lemma AcceptedExactly(text: string, version: nat, payload: seq<nat>)
    ensures Decoded(text, version) == Ok(payload)
       <==> Key(version, payload) && |text| >= 56 && text[..56] == StrKey(version, payload) && ExtraLetter(text[56..])
  {
    if Decoded(text, version) == Ok(payload) {
      EncodingInvertsDecoding(text, version);
    }
    if Key(version, payload) && |text| >= 56 && text[..56] == StrKey(version, payload) && ExtraLetter(text[56..]) {
      KeyIsAccepted(text, version, payload);
    }
  }

  lemma KeyIsAccepted(text: string, version: nat, payload: seq<nat>)
    requires Key(version, payload) && |text| >= 56 && text[..56] == StrKey(version, payload) && ExtraLetter(text[56..])
    ensures Decoded(text, version) == Ok(payload)
  {
    DecodingInvertsEncoding(version, payload, text[56..]);
    assert text == text[..56] + text[56..];
  }

  /** A text with a letter outside the alphabet is no strkey; any other that is not accepted is not a valid one. */
  lemma RefusedAs(text: string, version: nat)
    ensures Decoded(text, version) == NotAStrkey
       <==> exists i :: 0 <= i < |text| && text[i] !in "ABCDEFGHIJKLMNOPQRSTUVWXYZ234567"
    ensures Decoded(text, version) == NotAStrkey || Decoded(text, version) == NotValid || Decoded(text, version).Ok?
  {
    assert BASE32 == "ABCDEFGHIJKLMNOPQRSTUVWXYZ234567";
    forall i | 0 <= i < |text| ensures Digit(text[i]) >= 0 <==> text[i] in BASE32 {
      if Digit(text[i]) >= 0 {
        assert BASE32[Digit(text[i])] in BASE32;
      }
    }
  }

  /** A key's text spells its version, its payload, and their checksum, the lower byte first. */
  lemma KeySpells(version: nat, payload: seq<nat>)
    requires Key(version, payload)
    ensures InAlphabet(StrKey(version, payload))
    ensures var bytes := BytesOf(StrKey(version, payload));
            && |bytes| == 35 && bytes[0] == version && bytes[1..33] == payload
            && bytes[33] + 256 * bytes[34] == CrcOf([version] + payload)
  {
    BytesOfEncoding(version, payload, "");
    assert StrKey(version, payload) + "" == StrKey(version, payload);
  }

  // ----------------------------------------------------------------------------- error detection

  ghost predicate LettersDifferWithin(s: string, t: string, from: nat, count: nat) {
    |s| == |t| && from + count <= |s| && s[..from] == t[..from] && s[from + count..] == t[from + count..]
  }

  lemma BitsDifferWithin(s: string, t: string, from: nat, count: nat)
    requires InAlphabet(s) && InAlphabet(t) && LettersDifferWithin(s, t, from, count)
    ensures DifferOnlyWithin(DigitBits(DigitsOf(s)), DigitBits(DigitsOf(t)), 5 * from, 5 * count)
  {
    SpeltInParts(s, from, count);
    SpeltInParts(t, from, count);
    var to := from + count;
    PartsDifferWithin(DigitBits(DigitsOf(s[..from])), DigitBits(DigitsOf(s[from..to])),
                      DigitBits(DigitsOf(t[from..to])), DigitBits(DigitsOf(s[to..])));
  }

  lemma PartsDifferWithin(a: seq<bool>, b: seq<bool>, d: seq<bool>, c: seq<bool>)
    requires |b| == |d|
    ensures DifferOnlyWithin(a + b + c, a + d + c, |a|, |b|)
  {
  }

  /** A text's bits are those of its parts, five a letter. */
  lemma SpeltInParts(s: string, from: nat, count: nat)
    requires InAlphabet(s) && from + count <= |s|
    ensures var to := from + count;
            && DigitBits(DigitsOf(s))
               == DigitBits(DigitsOf(s[..from])) + DigitBits(DigitsOf(s[from..to])) + DigitBits(DigitsOf(s[to..]))
            && |DigitBits(DigitsOf(s[..from]))| == 5 * from
            && |DigitBits(DigitsOf(s[from..to]))| == 5 * count
            && |DigitBits(DigitsOf(s[to..]))| == 5 * (|s| - to)
  {
    Powers();
    var a, b, c := DigitsOf(s[..from]), DigitsOf(s[from..from + count]), DigitsOf(s[from + count..]);
    assert DigitsOf(s) == (a + b) + c;
    UnpackConcat(a + b, c, 5);
    UnpackConcat(a, b, 5);
    UnpackLength(a, 5);
    UnpackLength(b, 5);
    UnpackLength(c, 5);
  }

  /** Two sealed messages of 33 bytes never differ just there. */
  lemma SealedFarApart(x: seq<bool>, y: seq<bool>, from: nat, count: nat)
    requires |x| == |y| == 264 && DifferOnlyWithin(SealedBits(x), SealedBits(y), from, count)
    requires (from + count <= 264 && count <= 16) || (from == 260 && count == 5) || from >= 264
    ensures x == y
  {
    var code, other := SealedBits(x), SealedBits(y);
    assert forall i | 0 <= i < 264 :: code[i] == x[i] && other[i] == y[i];
    if x != y && from + count <= 264 {
      assert Checksum(x)[8..] == code[264..272] && Checksum(x)[..8] == code[272..];
      assert Checksum(y)[8..] == other[264..272] && Checksum(y)[..8] == other[272..];
      assert code[264..] == other[264..];
      assert Checksum(x) == Checksum(x)[..8] + Checksum(x)[8..] && Checksum(y) == Checksum(y)[..8] + Checksum(y)[8..];
      BurstsAreDetected(x, y, from, count);
      assert false;
    } else if x != y && from == 260 {
      assert Checksum(x)[12..] == code[268..272] && Checksum(y)[12..] == other[268..272];
      LastNibbleIsDetected(x, y);
      assert false;
    }
  }

  lemma SameBitsSameBytes(a: seq<nat>, b: seq<nat>)
    requires Bytes(a) && Bytes(b) && ByteBits(a) == ByteBits(b)
    ensures a == b
  {
    Powers();
    PackOfUnpack(a, [], 8);
    PackOfUnpack(b, [], 8);
    assert a + [] == a && b + [] == b;
  }

  lemma BodyLength(body: seq<nat>)
    requires Bytes(body) && |body| == 33
    ensures |ByteBits(body)| == 264
  {
    Powers();
    UnpackLength(body, 8);
  }

  lemma WithinLetters(from: nat, count: nat)
    requires count == 1 || (count <= 3 && from + count <= 52)
    ensures (5 * from + 5 * count <= 264 && 5 * count <= 16) || (5 * from == 260 && 5 * count == 5) || 5 * from >= 264
  {
  }

  /** Two keys' texts that differ only there are the same. */
  lemma TextsFarApart(body: seq<nat>, other: seq<nat>, from: nat, count: nat)
    requires Bytes(body) && Bytes(other) && |body| == |other| == 33
    requires LettersDifferWithin(Base32Of(Sealed(body)), Base32Of(Sealed(other)), from, count)
    requires count == 1 || (count <= 3 && from + count <= 52)
    ensures body == other
  {
    TextOfSealed(Sealed(body));
    TextOfSealed(Sealed(other));
    BitsDifferWithin(Base32Of(Sealed(body)), Base32Of(Sealed(other)), from, count);
    BitsOfSealed(body);
    BitsOfSealed(other);
    BodyLength(body);
    BodyLength(other);
    WithinLetters(from, count);
    SealedFarApart(ByteBits(body), ByteBits(other), 5 * from, 5 * count);
    SameBitsSameBytes(body, other);
  }

  /**
   * Every text is rejected that differs from a key's text in one letter, wherever it is, or only within three
   * adjacent letters of the first 52.
   */
  lemma ChangesAreDetected(version: nat, payload: seq<nat>, text: string, expected: nat, from: nat, count: nat)
    requires Key(version, payload) && text != StrKey(version, payload)
    requires LettersDifferWithin(StrKey(version, payload), text, from, count)
    requires count == 1 || (count <= 3 && from + count <= 52)
    ensures !Decoded(text, expected).Ok?
  {
    StrKeyLength(version, payload);
    if Decoded(text, expected).Ok? {
      EncodingInvertsDecoding(text, expected);
      assert text[..56] == text;
      TextsFarApart([version] + payload, [expected] + Decoded(text, expected).payload, from, count);
    }
  }

  lemma StrKeyLength(version: nat, payload: seq<nat>)
    requires Key(version, payload)
    ensures |StrKey(version, payload)| == 56
  {
    TextOfSealed(Sealed([version] + payload));
  }
}
