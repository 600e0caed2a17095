/**
 * Stellar's strkey encoding (SEP-23): a version byte, a key and a little-endian CRC-16/XMODEM, in the Base32
 * of section 6 of RFC 4648: what a key's text is, and what a text decodes to, over bits.
 */
module Strkey {
  import opened Bits
  import opened Crc

  const BASE32 := "ABCDEFGHIJKLMNOPQRSTUVWXYZ234567"

  datatype Decoding = Ok(payload: seq<nat>) | NotAStrkey | NotValid

  ghost predicate Bytes(xs: seq<nat>) {
    forall i | 0 <= i < |xs| :: xs[i] < 256
  }

  ghost predicate Digits(xs: seq<nat>) {
    forall i | 0 <= i < |xs| :: xs[i] < 32
  }

  lemma Powers()
    ensures Pow2(5) == 32 && Pow2(8) == 256 && Pow2(15) == 0x8000 && Pow2(16) == 0x1_0000
  {
    assert Pow2(5) == 32 && Pow2(10) == 32 * Pow2(5);
    assert Pow2(16) == 64 * Pow2(10);
  }

  ghost function ByteBits(bytes: seq<nat>): seq<bool>
    requires Bytes(bytes)
  {
    Powers();
    Unpack(bytes, 8)
  }

  ghost function DigitBits(digits: seq<nat>): seq<bool>
    requires Digits(digits)
  {
    Powers();
    Unpack(digits, 5)
  }

  /** The letters of some digits. */
  ghost function Letters(digits: seq<nat>): (text: string)
    requires Digits(digits)
  {
    seq(|digits|, i requires 0 <= i < |digits| => BASE32[digits[i]])
  }

  /** How many zeros fill bits up to whole groups of five. */
  function Padding(count: nat): (zeros: nat)
    ensures zeros < 5
  {
    (5 - count % 5) % 5
  }

  /** Base32 without padding characters: the bits, filled up with zeros to whole groups of five. */
  ghost function Base32Bits(bits: seq<bool>): (text: string) {
    Powers();
    Letters(Pack(bits + Zeros(Padding(|bits|)), 5))
  }

  ghost function Base32Of(bytes: seq<nat>): (text: string)
    requires Bytes(bytes)
  {
    Base32Bits(ByteBits(bytes))
  }

  /** The checksum of a message. */
  ghost function CrcOf(bytes: seq<nat>): (crc: nat)
    requires Bytes(bytes)
    ensures crc < 0x1_0000
  {
    Powers();
    Num(Run(Zeros(16), ByteBits(bytes)))
  }

  /** The strkey of a key. */
  ghost function StrKey(version: nat, payload: seq<nat>): (text: string)
    requires version < 256 && Bytes(payload)
  {
    var body := [version] + payload;
    Base32Of(body + [CrcOf(body) % 256, CrcOf(body) / 256])
  }

  /** A letter's place in the alphabet, or -1. */
  function Digit(letter: char): (digit: int)
    ensures -1 <= digit < 32
    ensures if digit == -1 then letter !in BASE32 else BASE32[digit] == letter
  {
    if 'A' <= letter <= 'Z' then letter as int - 'A' as int
    else if '2' <= letter <= '7' then letter as int - '2' as int + 26
    else -1
  }

  lemma DigitOfLetter(digit: nat)
    requires digit < 32
    ensures Digit(BASE32[digit]) == digit
  {
  }

  ghost predicate InAlphabet(text: string) {
    forall i | 0 <= i < |text| :: Digit(text[i]) >= 0
  }

  ghost function DigitsOf(text: string): (digits: seq<nat>)
    requires InAlphabet(text)
    ensures Digits(digits) && |digits| == |text|
  {
    seq(|text|, i requires 0 <= i < |text| => Digit(text[i]))
  }

  /** What a text of the alphabet decodes to: whole bytes; a last few bits are dropped. */
  ghost function BytesOf(text: string): (bytes: seq<nat>)
    requires InAlphabet(text)
    ensures Bytes(bytes)
  {
    Powers();
    Pack(DigitBits(DigitsOf(text)), 8)
  }

  ghost function Decoded(text: string, version: nat): Decoding {
    if !InAlphabet(text) then NotAStrkey else
    var bytes := BytesOf(text);
    if |bytes| != 35 then NotValid else
    var body := bytes[..33];
    if body[0] != version || bytes[33] != CrcOf(body) % 256 || bytes[34] != CrcOf(body) / 256 then NotValid
    else Ok(body[1..])
  }
}
