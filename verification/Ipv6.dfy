/**
 * IPv6 addresses as text (section 2.2 of RFC 4291) and as eight groups, and the keys clients are limited
 * under. Addresses are those the runtime accepts as IPv6, in lower case.
 */
module Ipv6 {
  import opened Options

  const DIGITS := "0123456789abcdef"

  // ------------------------------------------------------------------------------------- numerals

  function DigitValue(c: char): (value: int)
    ensures -1 <= value < 16
  {
    if '0' <= c <= '9' then c as int - '0' as int
    else if 'a' <= c <= 'f' then c as int - 'a' as int + 10
    else -1
  }

  lemma DigitOf(value: nat)
    requires value < 16
    ensures DigitValue(DIGITS[value]) == value && DIGITS[value] != ':' && DIGITS[value] != '.' && DIGITS[value] != '/'
  {
  }

  /** A number in base 10 or 16, without leading zeros. */
  function Written(n: nat, base: nat): (text: string)
    requires base == 10 || base == 16
    ensures text != ""
  {
    if n < base then [DIGITS[n]] else Written(n / base, base) + [DIGITS[n % base]]
  }

  ghost predicate Numeral(text: string, base: nat) {
    text != "" && forall i | 0 <= i < |text| :: 0 <= DigitValue(text[i]) < base
  }

  function Read(text: string, base: nat): nat {
    if text == "" then 0 else
    Read(text[..|text| - 1], base) * base + if DigitValue(text[|text| - 1]) < 0 then 0 else DigitValue(text[|text| - 1])
  }

  lemma {:induction false} ReadInvertsWritten(n: nat, base: nat)
    requires base == 10 || base == 16
    ensures Numeral(Written(n, base), base) && Read(Written(n, base), base) == n
    decreases n
  {
    DigitOf(n % base);
    if n >= base {
      ReadInvertsWritten(n / base, base);
      var text := Written(n, base);
      assert text[..|text| - 1] == Written(n / base, base);
    } else {
      assert n % base == n;
      assert Written(n, base)[..0] == "";
    }
  }

  lemma NumeralHasNo(text: string, base: nat, c: char)
    requires Numeral(text, base) && DigitValue(c) < 0
    ensures c !in text
  {
  }

  // ------------------------------------------------------------------------------ splitting and joining

  function Split(text: string, separator: char): (parts: seq<string>)
    ensures parts != []
  {
    if text == "" then [""] else
    if text[0] == separator then [""] + Split(text[1..], separator) else
    var rest := Split(text[1..], separator);
    [[text[0]] + rest[0]] + rest[1..]
  }

  function Join(parts: seq<string>, separator: char): string {
    if parts == [] then "" else
    if |parts| == 1 then parts[0] else parts[0] + [separator] + Join(parts[1..], separator)
  }

  ghost predicate Free(parts: seq<string>, separator: char) {
    forall i | 0 <= i < |parts| :: separator !in parts[i]
  }

  lemma {:induction false} SplitFirst(part: string, rest: string, separator: char)
    requires separator !in part
    ensures Split(part + [separator] + rest, separator) == [part] + Split(rest, separator)
    ensures Split(part, separator) == [part]
  {
    if part == "" {
      assert (part + [separator] + rest)[1..] == rest;
    } else {
      SplitFirst(part[1..], rest, separator);
      assert part == [part[0]] + part[1..];
      assert (part + [separator] + rest)[1..] == part[1..] + [separator] + rest;
    }
  }

  lemma {:induction false} SplitInvertsJoin(parts: seq<string>, separator: char)
    requires parts != [] && Free(parts, separator)
    ensures Split(Join(parts, separator), separator) == parts
  {
    if |parts| == 1 {
      SplitFirst(parts[0], "", separator);
    } else {
      SplitInvertsJoin(parts[1..], separator);
      SplitFirst(parts[0], Join(parts[1..], separator), separator);
    }
  }

  lemma {:induction false} SplitKeeps(text: string, separator: char, c: char)
    requires c in text && c != separator
    ensures exists i :: 0 <= i < |Split(text, separator)| && c in Split(text, separator)[i]
  {
    var parts := Split(text, separator);
    if text[0] == c {
      assert c in parts[0];
    } else {
      SplitKeeps(text[1..], separator, c);
      var rest := Split(text[1..], separator);
      var i :| 0 <= i < |rest| && c in rest[i];
      assert c in parts[if text[0] == separator then i + 1 else i];
    }
  }

  lemma {:induction false} JoinHasNo(parts: seq<string>, separator: char, c: char)
    requires Free(parts, c) && c != separator
    ensures c !in Join(parts, separator)
  {
    if |parts| > 1 {
      JoinHasNo(parts[1..], separator, c);
    }
  }

  lemma {:induction false} JoinLast(parts: seq<string>, last: string, separator: char)
    ensures Join(parts + [last], separator)
         == if parts == [] then last else Join(parts, separator) + [separator] + last
  {
    if parts == [] {
      assert parts + [last] == [last];
    } else {
      JoinLast(parts[1..], last, separator);
      assert (parts + [last])[1..] == parts[1..] + [last];
    }
  }

  // --------------------------------------------------------------------------- the dotted IPv4 tail

  ghost predicate IsDotted(text: string) {
    var parts := Split(text, '.');
    |parts| == 4 && forall i | 0 <= i < 4 :: Numeral(parts[i], 10)
  }

  /** Where a dotted tail begins, as early as one can; the text's length when there is none. */
  ghost function DottedFrom(text: string): (i: nat)
    ensures i <= |text|
    ensures i < |text| ==> IsDotted(text[i..])
  {
    if text == "" || IsDotted(text) then 0 else 1 + DottedFrom(text[1..])
  }

  function DottedText(bytes: seq<nat>): string {
    Join(seq(|bytes|, i requires 0 <= i < |bytes| => Written(bytes[i], 10)), '.')
  }

  /** Four decimal numbers as two groups of hex digits. */
  function TwoGroups(parts: seq<string>): string
    requires |parts| == 4
  {
    Written(Read(parts[0], 10) * 256 + Read(parts[1], 10), 16)
    + ":" + Written(Read(parts[2], 10) * 256 + Read(parts[3], 10), 16)
  }

  /** The address with a dotted tail written as two groups. */
  ghost function Undotted(text: string): string {
    var i := DottedFrom(text);
    if i == |text| then text else text[..i] + TwoGroups(Split(text[i..], '.'))
  }

  lemma DottedHasNoColon(text: string)
    requires IsDotted(text)
    ensures ':' !in text
  {
    if ':' in text {
      SplitKeeps(text, '.', ':');
      assert false;
    }
  }

  lemma DottedTextIsDotted(bytes: seq<nat>)
    requires |bytes| == 4
    ensures IsDotted(DottedText(bytes)) && DottedText(bytes) != ""
    ensures var parts := Split(DottedText(bytes), '.');
            |parts| == 4 && forall i | 0 <= i < 4 :: Read(parts[i], 10) == bytes[i]
  {
    var parts := seq(|bytes|, i requires 0 <= i < |bytes| => Written(bytes[i], 10));
    forall i | 0 <= i < 4 ensures Numeral(parts[i], 10) && Read(parts[i], 10) == bytes[i] && '.' !in parts[i] {
      ReadInvertsWritten(bytes[i], 10);
      NumeralHasNo(parts[i], 10, '.');
    }
    SplitInvertsJoin(parts, '.');
  }

  ghost predicate EndsInColon(prefix: string) {
    prefix == "" || prefix[|prefix| - 1] == ':'
  }

  lemma {:induction false} DottedBegins(prefix: string, tail: string)
    requires EndsInColon(prefix) && tail != "" && IsDotted(tail)
    ensures DottedFrom(prefix + tail) == |prefix|
  {
    if prefix == "" {
      assert prefix + tail == tail;
    } else {
      var text := prefix + tail;
      assert text[|prefix| - 1] == ':';
      if IsDotted(text) {
        DottedHasNoColon(text);
        assert false;
      }
      assert text[1..] == prefix[1..] + tail;
      DottedBegins(prefix[1..], tail);
    }
  }

  lemma {:induction false} NoDottedTail(text: string)
    requires '.' !in text
    ensures DottedFrom(text) == |text|
  {
    if text != "" {
      SplitFirst(text, "", '.');
      NoDottedTail(text[1..]);
    }
  }

  lemma TakesApart(a: string, b: string)
    ensures (a + b)[..|a|] == a && (a + b)[|a|..] == b
  {
  }

  lemma UndottedAt(prefix: string, tail: string)
    requires EndsInColon(prefix) && IsDotted(tail) && tail != ""
    ensures Undotted(prefix + tail) == prefix + TwoGroups(Split(tail, '.'))
  {
    DottedBegins(prefix, tail);
    TakesApart(prefix, tail);
  }

  lemma TwoGroupsAre(parts: seq<string>, bytes: seq<nat>)
    requires |parts| == |bytes| == 4 && Read(parts[0], 10) == bytes[0] && Read(parts[1], 10) == bytes[1]
    requires Read(parts[2], 10) == bytes[2] && Read(parts[3], 10) == bytes[3]
    ensures TwoGroups(parts) == Written(bytes[0] * 256 + bytes[1], 16) + ":" + Written(bytes[2] * 256 + bytes[3], 16)
  {
  }

  lemma UndottedIs(prefix: string, bytes: seq<nat>)
    requires EndsInColon(prefix) && |bytes| == 4
    ensures Undotted(prefix + DottedText(bytes))
         == prefix + (Written(bytes[0] * 256 + bytes[1], 16) + ":" + Written(bytes[2] * 256 + bytes[3], 16))
  {
    DottedTextIsDotted(bytes);
    UndottedAt(prefix, DottedText(bytes));
    TwoGroupsAre(Split(DottedText(bytes), '.'), bytes);
  }

  // ----------------------------------------------------------------------------------- the groups

  /** Where the first `::` is, or the text's length. */
  function FindDouble(text: string): (i: nat)
    ensures i <= |text| && (i < |text| ==> i + 2 <= |text|)
  {
    if |text| < 2 then |text| else if DoubleAt(text, 0) then 0 else 1 + FindDouble(text[1..])
  }

  function ValuesOf(parts: seq<string>): (values: seq<nat>)
    ensures |values| == |parts|
  {
    seq(|parts|, i requires 0 <= i < |parts| => Read(parts[i], 16))
  }

  function Parse(part: string): seq<nat> {
    if part == "" then [] else ValuesOf(Split(part, ':'))
  }

  function Zeros(count: int): (zeros: seq<nat>)
    ensures |zeros| == if count < 0 then 0 else count
  {
    if count <= 0 then [] else [0] + Zeros(count - 1)
  }

  /** What comes before the first `::`, and what comes after it up to another one, if there is any. */
  function Halves(text: string): (string, Option<string>) {
    var i := FindDouble(text);
    if i == |text| then (text, None) else
    var rest := text[i + 2..];
    (text[..i], Some(rest[..FindDouble(rest)]))
  }

  /** Zeros between the groups before and after, for eight in all. */
  function Filled(front: seq<nat>, back: seq<nat>): seq<nat> {
    front + Zeros(8 - |front| - |back|) + back
  }

  /** The eight groups of an address without a dotted tail, `::` expanded. */
  function Expanded(text: string): seq<nat> {
    var (head, tail) := Halves(text);
    Filled(Parse(head), if tail.Some? then Parse(tail.value) else [])
  }

  /** The eight groups of an address. */
  ghost function Groups(address: string): seq<nat> {
    Expanded(Undotted(address))
  }

  predicate DoubleAt(text: string, k: int) {
    0 <= k < |text| - 1 && text[k] == ':' && text[k + 1] == ':'
  }

  ghost predicate NoDouble(text: string) {
    forall k {:trigger DoubleAt(text, k)} :: !DoubleAt(text, k)
  }

  lemma NoDoubleLater(text: string)
    requires NoDouble(text) && text != ""
    ensures NoDouble(text[1..])
  {
    forall k ensures !DoubleAt(text[1..], k) {
      assert !DoubleAt(text, k + 1);
    }
  }

  lemma {:induction false} FindsNone(text: string)
    requires NoDouble(text)
    ensures FindDouble(text) == |text|
  {
    if |text| >= 2 {
      NoDoubleLater(text);
      FindsNone(text[1..]);
    }
  }

  lemma {:induction false} FindsAfter(text: string, rest: string)
    requires NoDouble(text) && (text != "" ==> text[|text| - 1] != ':')
    ensures FindDouble(text + "::" + rest) == |text|
  {
    var whole := text + "::" + rest;
    if text == "" {
      assert DoubleAt(whole, 0);
    } else {
      assert whole[1..] == text[1..] + "::" + rest;
      NoDoubleLater(text);
      assert |text| > 1 ==> !DoubleAt(text, 0) && whole[1] == text[1];
      assert !DoubleAt(whole, 0);
      FindsAfter(text[1..], rest);
    }
  }

  ghost predicate Tokens(parts: seq<string>) {
    forall i | 0 <= i < |parts| :: Numeral(parts[i], 16)
  }

  /** Without `::`, and without a colon at either end. */
  ghost predicate Plain(text: string) {
    NoDouble(text) && (text != "" ==> text[0] != ':' && text[|text| - 1] != ':')
  }

  lemma PlainToken(part: string)
    requires part != "" && ':' !in part
    ensures Plain(part)
  {
    assert forall k | 0 <= k < |part| :: part[k] in part;
  }

  lemma PlainJoined(a: string, b: string)
    requires Plain(a) && Plain(b) && a != "" && b != ""
    ensures Plain(a + ":" + b)
  {
    var both := a + ":" + b;
    forall k ensures !DoubleAt(both, k) {
      assert !DoubleAt(a, k) && !DoubleAt(b, k - |a| - 1);
    }
  }

  lemma {:induction false} JoinIsPlain(parts: seq<string>)
    requires Free(parts, ':') && forall i | 0 <= i < |parts| :: parts[i] != ""
    ensures Plain(Join(parts, ':')) && (Join(parts, ':') == "" <==> parts == [])
  {
    if parts != [] {
      PlainToken(parts[0]);
    }
    if |parts| > 1 {
      JoinIsPlain(parts[1..]);
      PlainJoined(parts[0], Join(parts[1..], ':'));
    }
  }

  lemma JoinedTokens(parts: seq<string>)
    requires Tokens(parts)
    ensures Plain(Join(parts, ':')) && Parse(Join(parts, ':')) == ValuesOf(parts)
  {
    forall i | 0 <= i < |parts| ensures ':' !in parts[i] {
      NumeralHasNo(parts[i], 16, ':');
    }
    JoinIsPlain(parts);
    if parts != [] {
      SplitInvertsJoin(parts, ':');
    }
  }

  // --------------------------------------------------------------------------------- every spelling

  /**
   * A spelling of an address: the groups before `::`, or all of them, the groups after it when there is one,
   * and the four bytes that are written dotted at the end, when they are.
   */
  datatype Spelling = Spelling(front: seq<string>, back: Option<seq<string>>, dotted: Option<seq<nat>>)

  /** Numerals of at most four hex digits, leading zeros allowed. */
  ghost predicate GroupTexts(parts: seq<string>) {
    Tokens(parts) && forall i | 0 <= i < |parts| :: |parts[i]| <= 4
  }

  ghost function TailOf(s: Spelling): seq<nat> {
    if s.dotted.None? || |s.dotted.value| != 4 then [] else
    var b := s.dotted.value;
    [b[0] * 256 + b[1], b[2] * 256 + b[3]]
  }

  ghost function BackOf(s: Spelling): seq<string> {
    if s.back.Some? then s.back.value else []
  }

  /** Eight groups in all, or fewer with a `::` for the rest. */
  ghost predicate IsSpelling(s: Spelling) {
    && GroupTexts(s.front) && GroupTexts(BackOf(s))
    && (s.dotted.Some? ==> |s.dotted.value| == 4 && forall i | 0 <= i < 4 :: s.dotted.value[i] < 256)
    && var count := |s.front| + |BackOf(s)| + |TailOf(s)|;
       if s.back.None? then count == 8 else count < 8
  }

  ghost function DottedPart(s: Spelling): seq<string> {
    if s.dotted.Some? then [DottedText(s.dotted.value)] else []
  }

  ghost function TextOf(s: Spelling): string {
    match s.back
    case None => Join(s.front + DottedPart(s), ':')
    case Some(back) => Join(s.front, ':') + "::" + Join(back + DottedPart(s), ':')
  }

  /** The groups a spelling stands for. */
  ghost function MeaningOf(s: Spelling): seq<nat> {
    if s.back.None? then ValuesOf(s.front) + TailOf(s)
    else Filled(ValuesOf(s.front), ValuesOf(s.back.value) + TailOf(s))
  }

  /** The groups of a dotted tail, written as the program writes them. */
  ghost function TailTexts(s: Spelling): (parts: seq<string>)
    ensures |parts| == |TailOf(s)|
  {
    seq(|TailOf(s)|, i requires 0 <= i < |TailOf(s)| => Written(TailOf(s)[i], 16))
  }

  lemma TailTextsAreTail(s: Spelling)
    ensures Tokens(TailTexts(s)) && ValuesOf(TailTexts(s)) == TailOf(s)
  {
    forall i | 0 <= i < |TailOf(s)| ensures Numeral(TailTexts(s)[i], 16) && Read(TailTexts(s)[i], 16) == TailOf(s)[i] {
      ReadInvertsWritten(TailOf(s)[i], 16);
    }
  }

  lemma JoinOfTokensHasNoDot(parts: seq<string>)
    requires Tokens(parts)
    ensures '.' !in Join(parts, ':')
  {
    forall i | 0 <= i < |parts| ensures '.' !in parts[i] {
      NumeralHasNo(parts[i], 16, '.');
    }
    JoinHasNo(parts, ':', '.');
  }

  /** Behind anything that ends in a colon, a part with a dotted tail becomes one with two groups more. */
  lemma UndottedPart(before: string, parts: seq<string>, s: Spelling)
    requires EndsInColon(before) && s.dotted.Some? && |s.dotted.value| == 4
    ensures Undotted(before + Join(parts + DottedPart(s), ':')) == before + Join(parts + TailTexts(s), ':')
  {
    DottedJoined(parts, s);
    TailJoined(parts, s);
    LeadEndsInColon(parts);
    UndottedBehind(before, Lead(parts), s.dotted.value);
  }

  lemma LeadEndsInColon(parts: seq<string>)
    ensures EndsInColon(Lead(parts))
  {
  }

  lemma DottedJoined(parts: seq<string>, s: Spelling)
    requires s.dotted.Some?
    ensures Join(parts + DottedPart(s), ':') == Lead(parts) + DottedText(s.dotted.value)
  {
    JoinOne(parts, DottedText(s.dotted.value));
  }

  lemma TailJoined(parts: seq<string>, s: Spelling)
    requires s.dotted.Some? && |s.dotted.value| == 4
    ensures var b := s.dotted.value;
            Join(parts + TailTexts(s), ':')
            == Lead(parts) + (Written(b[0] * 256 + b[1], 16) + ":" + Written(b[2] * 256 + b[3], 16))
  {
    TailIsTwo(s);
    TwoJoined(parts, TailTexts(s));
  }

  lemma TwoJoined(parts: seq<string>, tail: seq<string>)
    requires |tail| == 2
    ensures Join(parts + tail, ':') == Lead(parts) + (tail[0] + ":" + tail[1])
  {
    assert tail == [tail[0], tail[1]];
    JoinTwo(parts, tail[0], tail[1]);
  }

  lemma TailIsTwo(s: Spelling)
    requires s.dotted.Some? && |s.dotted.value| == 4
    ensures var b := s.dotted.value; TailTexts(s) == [Written(b[0] * 256 + b[1], 16), Written(b[2] * 256 + b[3], 16)]
  {
  }

  lemma UndottedBehind(before: string, lead: string, bytes: seq<nat>)
    requires EndsInColon(before) && EndsInColon(lead) && |bytes| == 4
    ensures Undotted(before + (lead + DottedText(bytes)))
         == before + (lead + (Written(bytes[0] * 256 + bytes[1], 16) + ":" + Written(bytes[2] * 256 + bytes[3], 16)))
  {
    Associates(before, lead, DottedText(bytes));
    assert EndsInColon(before + lead);
    UndottedIs(before + lead, bytes);
    Associates(before, lead, Written(bytes[0] * 256 + bytes[1], 16) + ":" + Written(bytes[2] * 256 + bytes[3], 16));
  }

  /** What comes before one more part. */
  ghost function Lead(parts: seq<string>): string {
    if parts == [] then "" else Join(parts, ':') + ":"
  }

  lemma Associates(a: string, b: string, c: string)
    ensures (a + b) + c == a + (b + c)
  {
  }

  lemma JoinOne(parts: seq<string>, one: string)
    ensures Join(parts + [one], ':') == Lead(parts) + one
    ensures Lead(parts + [one]) == Lead(parts) + one + ":"
  {
    JoinLast(parts, one, ':');
  }

  lemma JoinTwo(parts: seq<string>, one: string, two: string)
    ensures Join(parts + [one, two], ':') == Lead(parts) + (one + ":" + two)
  {
    JoinOne(parts, one);
    JoinOne(parts + [one], two);
    assert parts + [one, two] == parts + [one] + [two];
    Associates(Lead(parts), one, ":");
    Associates(Lead(parts), one + ":", two);
  }

  lemma UndottedText(s: Spelling)
    requires IsSpelling(s)
    ensures Undotted(TextOf(s)) == match s.back
      case None => Join(s.front + TailTexts(s), ':')
      case Some(back) => Join(s.front, ':') + "::" + Join(back + TailTexts(s), ':')
  {
    var before := if s.back.None? then "" else Join(s.front, ':') + "::";
    var parts := if s.back.None? then s.front else s.back.value;
    assert TextOf(s) == before + Join(parts + DottedPart(s), ':');
    if s.dotted.Some? {
      UndottedPart(before, parts, s);
    } else {
      assert parts + DottedPart(s) == parts && parts + TailTexts(s) == parts;
      JoinOfTokensHasNoDot(s.front);
      JoinOfTokensHasNoDot(parts);
      NoDottedTail(TextOf(s));
    }
  }

  lemma ValuesOfBoth(a: seq<string>, b: seq<string>)
    ensures ValuesOf(a + b) == ValuesOf(a) + ValuesOf(b)
  {
  }

  lemma HalvesOfWhole(text: string)
    requires Plain(text)
    ensures Halves(text) == (text, None)
  {
    FindsNone(text);
  }

  lemma HalvesAround(first: string, last: string)
    requires Plain(first) && Plain(last)
    ensures Halves(first + "::" + last) == (first, Some(last))
  {
    var text := first + "::" + last;
    FindsAfter(first, last);
    FindsNone(last);
    assert text[..|first|] == first && text[|first| + 2..] == last;
    assert last[..|last|] == last;
  }

  lemma FilledWhole(front: seq<nat>)
    requires |front| == 8
    ensures Filled(front, []) == front
  {
  }

  lemma ExpandedWhole(parts: seq<string>)
    requires Tokens(parts) && |parts| == 8
    ensures Expanded(Join(parts, ':')) == ValuesOf(parts)
  {
    JoinedTokens(parts);
    HalvesOfWhole(Join(parts, ':'));
    FilledWhole(ValuesOf(parts));
  }

  lemma ExpandedElided(a: seq<string>, b: seq<string>)
    requires Tokens(a) && Tokens(b)
    ensures Expanded(Join(a, ':') + "::" + Join(b, ':')) == Filled(ValuesOf(a), ValuesOf(b))
  {
    JoinedTokens(a);
    JoinedTokens(b);
    HalvesAround(Join(a, ':'), Join(b, ':'));
  }

  lemma WholeIsRead(s: Spelling)
    requires IsSpelling(s) && s.back.None?
    ensures Groups(TextOf(s)) == MeaningOf(s)
  {
    UndottedText(s);
    TailTextsAreTail(s);
    ExpandedWhole(s.front + TailTexts(s));
    ValuesOfBoth(s.front, TailTexts(s));
  }

  lemma ElidedIsRead(s: Spelling)
    requires IsSpelling(s) && s.back.Some?
    ensures Groups(TextOf(s)) == MeaningOf(s)
  {
    UndottedText(s);
    TailTextsAreTail(s);
    ExpandedElided(s.front, s.back.value + TailTexts(s));
    ValuesOfBoth(s.back.value, TailTexts(s));
  }

  /** Reading inverts spelling, however the address is written. */
  lemma GroupsInvertSpelling(s: Spelling)
    requires IsSpelling(s)
    ensures Groups(TextOf(s)) == MeaningOf(s) && |MeaningOf(s)| == 8
  {
    if s.back.None? {
      WholeIsRead(s);
    } else {
      ElidedIsRead(s);
    }
  }

  // ------------------------------------------------------------------------------------- the keys

  ghost predicate Address(groups: seq<nat>) {
    |groups| == 8 && forall i | 0 <= i < 8 :: groups[i] < 0x1_0000
  }

  /** An IPv4 address mapped into IPv6. */
  predicate Mapped(groups: seq<nat>)
    requires |groups| == 8
  {
    groups[..5] == [0, 0, 0, 0, 0] && groups[5] == 0xffff
  }

  function MappedBytes(groups: seq<nat>): seq<nat>
    requires |groups| == 8
  {
    [groups[6] / 256, groups[6] % 256, groups[7] / 256, groups[7] % 256]
  }

  predicate PrefixLength(bits: nat) {
    0 < bits <= 128 && bits % 8 == 0
  }

  /** What is kept of a group that begins at bit `start`. */
  function KeptOf(group: nat, start: nat, bits: nat): nat {
    if start >= bits then 0 else if start + 16 <= bits then group else group / 256 * 256
  }

  function PrefixTexts(groups: seq<nat>, bits: nat): (parts: seq<string>)
    requires |groups| == 8 && PrefixLength(bits)
    ensures parts != []
  {
    seq((bits + 15) / 16, i requires 0 <= i < (bits + 15) / 16 => Written(KeptOf(groups[i], 16 * i, bits), 16))
  }

  function PrefixText(groups: seq<nat>, bits: nat): string
    requires |groups| == 8 && PrefixLength(bits)
  {
    Join(PrefixTexts(groups, bits), ':') + "::" + ("/" + Written(bits, 10))
  }

  /** The key of an IPv6 address: its IPv4 address when it maps one, or else its prefix of so many bits. */
  function KeyOf(groups: seq<nat>, bits: nat): string
    requires |groups| == 8 && PrefixLength(bits)
  {
    if Mapped(groups) then DottedText(MappedBytes(groups)) else PrefixText(groups, bits)
  }

  /** The first bits of two addresses agree. */
  ghost predicate SamePrefix(g: seq<nat>, h: seq<nat>, bits: nat)
    requires |g| == |h| == 8 && PrefixLength(bits)
  {
    forall i | 0 <= i < (bits + 15) / 16 :: KeptOf(g[i], 16 * i, bits) == KeptOf(h[i], 16 * i, bits)
  }

  lemma PrefixTextsAreTokens(groups: seq<nat>, bits: nat)
    requires |groups| == 8 && PrefixLength(bits)
    ensures Tokens(PrefixTexts(groups, bits))
    ensures forall i | 0 <= i < (bits + 15) / 16 ::
              Read(PrefixTexts(groups, bits)[i], 16) == KeptOf(groups[i], 16 * i, bits)
  {
    forall i | 0 <= i < (bits + 15) / 16
      ensures Numeral(PrefixTexts(groups, bits)[i], 16)
      ensures Read(PrefixTexts(groups, bits)[i], 16) == KeptOf(groups[i], 16 * i, bits)
    {
      ReadInvertsWritten(KeptOf(groups[i], 16 * i, bits), 16);
    }
  }

  lemma SlashIsPlain(bits: nat)
    ensures Plain("/" + Written(bits, 10))
  {
    ReadInvertsWritten(bits, 10);
    NumeralHasNo(Written(bits, 10), 10, ':');
    PlainToken("/" + Written(bits, 10));
  }

  lemma PrefixIsRead(groups: seq<nat>, bits: nat)
    requires |groups| == 8 && PrefixLength(bits)
    ensures var head := Halves(PrefixText(groups, bits)).0;
            Split(head, ':') == PrefixTexts(groups, bits)
  {
    var parts := PrefixTexts(groups, bits);
    PrefixTextsAreTokens(groups, bits);
    JoinedTokens(parts);
    SlashIsPlain(bits);
    HalvesAround(Join(parts, ':'), "/" + Written(bits, 10));
    forall i | 0 <= i < |parts| ensures ':' !in parts[i] {
      NumeralHasNo(parts[i], 16, ':');
    }
    SplitInvertsJoin(parts, ':');
  }

  lemma PrefixTextsAgree(g: seq<nat>, h: seq<nat>, bits: nat)
    requires |g| == |h| == 8 && PrefixLength(bits)
    ensures PrefixText(g, bits) == PrefixText(h, bits) <==> SamePrefix(g, h, bits)
  {
    if PrefixText(g, bits) == PrefixText(h, bits) {
      PrefixIsRead(g, bits);
      PrefixIsRead(h, bits);
      PrefixTextsAreTokens(g, bits);
      PrefixTextsAreTokens(h, bits);
    }
    if SamePrefix(g, h, bits) {
      assert PrefixTexts(g, bits) == PrefixTexts(h, bits);
    }
  }

  lemma DottedTextsAgree(a: seq<nat>, b: seq<nat>)
    requires |a| == |b| == 4
    ensures DottedText(a) == DottedText(b) ==> a == b
  {
    DottedTextIsDotted(a);
    DottedTextIsDotted(b);
    if DottedText(a) == DottedText(b) {
      assert forall i | 0 <= i < 4 :: a[i] == b[i];
    }
  }

  lemma PrefixHasColon(groups: seq<nat>, bits: nat)
    requires |groups| == 8 && PrefixLength(bits)
    ensures ':' in PrefixText(groups, bits)
  {
    assert PrefixText(groups, bits)[|Join(PrefixTexts(groups, bits), ':')|] == ':';
  }

  lemma DottedTextHasNoColon(bytes: seq<nat>)
    requires |bytes| == 4
    ensures ':' !in DottedText(bytes)
  {
    DottedTextIsDotted(bytes);
    DottedHasNoColon(DottedText(bytes));
  }

  lemma MappedKeyIsNoPrefix(g: seq<nat>, h: seq<nat>, bits: nat)
    requires |g| == |h| == 8 && PrefixLength(bits)
    ensures DottedText(MappedBytes(g)) != PrefixText(h, bits)
  {
    DottedTextHasNoColon(MappedBytes(g));
    PrefixHasColon(h, bits);
  }

  /**
   * Two addresses have one key exactly when both map the same IPv4 address, or neither maps one and their
   * prefixes agree.
   */
  lemma KeysAgreeExactly(g: seq<nat>, h: seq<nat>, bits: nat)
    requires Address(g) && Address(h) && PrefixLength(bits)
    ensures KeyOf(g, bits) == KeyOf(h, bits)
       <==> if Mapped(g) && Mapped(h) then g == h else !Mapped(g) && !Mapped(h) && SamePrefix(g, h, bits)
  {
    if Mapped(g) && Mapped(h) {
      DottedTextsAgree(MappedBytes(g), MappedBytes(h));
      if MappedBytes(g) == MappedBytes(h) {
        assert g[..5] == h[..5];
        assert g[6] == g[6] / 256 * 256 + g[6] % 256 && g[7] == g[7] / 256 * 256 + g[7] % 256;
        SameBytesSameAddress(g, h);
      }
    } else if Mapped(g) {
      MappedKeyIsNoPrefix(g, h, bits);
    } else if Mapped(h) {
      MappedKeyIsNoPrefix(h, g, bits);
    } else {
      PrefixTextsAgree(g, h, bits);
    }
  }

  lemma SameBytesSameAddress(g: seq<nat>, h: seq<nat>)
    requires |g| == |h| == 8 && Mapped(g) && Mapped(h) && MappedBytes(g) == MappedBytes(h)
    ensures g == h
  {
    var a, b := MappedBytes(g), MappedBytes(h);
    assert a[0] == b[0] && a[1] == b[1] && a[2] == b[2] && a[3] == b[3];
    assert g[6] == h[6] && g[7] == h[7];
    assert forall i | 0 <= i < 5 :: g[i] == g[..5][i] && h[i] == h[..5][i];
  }

  /** The prefixes keep whole groups and, at the end, perhaps half of one. */
  lemma PrefixesByGroups(g: seq<nat>, h: seq<nat>)
    requires Address(g) && Address(h)
    ensures SamePrefix(g, h, 64) <==> g[..4] == h[..4]
    ensures SamePrefix(g, h, 56) <==> g[..3] == h[..3] && g[3] / 256 == h[3] / 256
    ensures SamePrefix(g, h, 48) <==> g[..3] == h[..3]
  {
    SameFirst(g, h, 3);
    SameFirst(g, h, 4);
    assert KeptOf(g[3], 48, 56) == g[3] / 256 * 256 && KeptOf(h[3], 48, 56) == h[3] / 256 * 256;
  }

  lemma SameFirst(g: seq<nat>, h: seq<nat>, count: nat)
    requires |g| == |h| == 8 && count <= 8
    ensures g[..count] == h[..count] <==> forall i | 0 <= i < count :: g[i] == h[i]
  {
    if g[..count] == h[..count] {
      assert forall i | 0 <= i < count :: g[i] == g[..count][i] && h[i] == h[..count][i];
    }
  }

  // ------------------------------------------------------------------------- clients and networks

  /** A client's address without brackets, zone or port: IPv4, IPv6 in some spelling, or neither. */
  datatype Client = V4(bytes: seq<nat>) | V6(spelling: Spelling) | NoAddress

  ghost predicate IsClient(c: Client) {
    match c
    case V4(bytes) => FourBytes(bytes)
    case V6(spelling) => IsSpelling(spelling)
    case NoAddress => true
  }

  /** The one key of whatever is no address. */
  const UNPARSED := "unparsed"

  const CLIENT_BITS := 56
  const NETWORK_BITS := 48

  /** The key of an address, an IPv6 one by so many of its bits. */
  ghost function KeyWith(c: Client, bits: nat): string
    requires IsClient(c) && PrefixLength(bits)
  {
    match c
    case V4(bytes) => DottedText(bytes)
    case V6(spelling) =>
      GroupsInvertSpelling(spelling);
      KeyOf(Groups(TextOf(spelling)), bits)
    case NoAddress => UNPARSED
  }

  ghost function ClientKey(c: Client): string
    requires IsClient(c)
  {
    KeyWith(c, CLIENT_BITS)
  }

  ghost function NetworkKey(c: Client): string
    requires IsClient(c)
  {
    KeyWith(c, NETWORK_BITS)
  }

  /** An address that is keyed by a prefix: IPv6, and no IPv4 address mapped. */
  ghost predicate HasPrefix(c: Client)
    requires IsClient(c)
  {
    c.V6? && (GroupsInvertSpelling(c.spelling); !Mapped(MeaningOf(c.spelling)))
  }

  /** Only such keys hold a colon. */
  lemma KeysOfKind(c: Client, bits: nat)
    requires IsClient(c) && PrefixLength(bits)
    ensures HasPrefix(c) <==> ':' in KeyWith(c, bits)
    ensures HasPrefix(c) ==> |MeaningOf(c.spelling)| == 8 && KeyWith(c, bits) == PrefixText(MeaningOf(c.spelling), bits)
  {
    match c
    case V4(bytes) => DottedTextHasNoColon(bytes);
    case V6(spelling) =>
      GroupsInvertSpelling(spelling);
      if Mapped(MeaningOf(spelling)) {
        DottedTextHasNoColon(MappedBytes(MeaningOf(spelling)));
      } else {
        PrefixHasColon(MeaningOf(spelling), bits);
      }
    case NoAddress =>
  }

  /** The others do not depend on the length of the prefix. */
  lemma KeysWithoutPrefix(c: Client, bits: nat, fewer: nat)
    requires IsClient(c) && PrefixLength(bits) && PrefixLength(fewer) && !HasPrefix(c)
    ensures KeyWith(c, bits) == KeyWith(c, fewer)
  {
    if c.V6? {
      GroupsInvertSpelling(c.spelling);
    }
  }

  lemma ShorterPrefix(g: seq<nat>, h: seq<nat>, bits: nat, fewer: nat)
    requires |g| == |h| == 8 && PrefixLength(bits) && PrefixLength(fewer) && fewer <= bits && SamePrefix(g, h, bits)
    ensures SamePrefix(g, h, fewer)
  {
    forall i | 0 <= i < (fewer + 15) / 16 ensures KeptOf(g[i], 16 * i, fewer) == KeptOf(h[i], 16 * i, fewer) {
      assert KeptOf(g[i], 16 * i, bits) == KeptOf(h[i], 16 * i, bits);
    }
  }

  lemma PrefixTextsShorten(g: seq<nat>, h: seq<nat>, bits: nat, fewer: nat)
    requires |g| == |h| == 8 && PrefixLength(bits) && PrefixLength(fewer) && fewer <= bits
    requires PrefixText(g, bits) == PrefixText(h, bits)
    ensures PrefixText(g, fewer) == PrefixText(h, fewer)
  {
    PrefixTextsAgree(g, h, bits);
    ShorterPrefix(g, h, bits, fewer);
    PrefixTextsAgree(g, h, fewer);
  }

  /** Addresses with one key have one key by fewer bits too, whatever they are and however they are written. */
  lemma KeysNest(c: Client, d: Client, bits: nat, fewer: nat)
    requires IsClient(c) && IsClient(d) && PrefixLength(bits) && PrefixLength(fewer) && fewer <= bits
    requires KeyWith(c, bits) == KeyWith(d, bits)
    ensures KeyWith(c, fewer) == KeyWith(d, fewer)
  {
    KeysOfKind(c, bits);
    KeysOfKind(d, bits);
    if HasPrefix(c) {
      KeysOfKind(c, fewer);
      KeysOfKind(d, fewer);
      PrefixTextsShorten(MeaningOf(c.spelling), MeaningOf(d.spelling), bits, fewer);
    } else {
      KeysWithoutPrefix(c, bits, fewer);
      KeysWithoutPrefix(d, bits, fewer);
    }
  }

  /** So clients with one key belong to one network: no client counts against two networks' shares. */
  lemma ClientsShareNetworks(c: Client, d: Client)
    requires IsClient(c) && IsClient(d) && ClientKey(c) == ClientKey(d)
    ensures NetworkKey(c) == NetworkKey(d)
  {
    KeysNest(c, d, CLIENT_BITS, NETWORK_BITS);
  }

  function Sixteens(count: nat): nat {
    if count == 0 then 1 else 16 * Sixteens(count - 1)
  }

  lemma {:induction false} ReadIsSmall(text: string)
    requires forall i | 0 <= i < |text| :: 0 <= DigitValue(text[i]) < 16
    ensures Read(text, 16) < Sixteens(|text|)
  {
    if text != "" {
      var rest := text[..|text| - 1];
      assert forall i | 0 <= i < |rest| :: rest[i] == text[i];
      ReadIsSmall(rest);
    }
  }

  lemma GroupIsSmall(text: string)
    requires Numeral(text, 16) && |text| <= 4
    ensures Read(text, 16) < 0x1_0000
  {
    ReadIsSmall(text);
    assert Sixteens(1) == 16 && Sixteens(2) == 256 && Sixteens(3) == 4096 && Sixteens(4) == 0x1_0000;
  }

  ghost predicate AllSmall(values: seq<nat>) {
    forall i | 0 <= i < |values| :: values[i] < 0x1_0000
  }

  lemma GroupsAreSmall(parts: seq<string>)
    requires GroupTexts(parts)
    ensures AllSmall(ValuesOf(parts))
  {
    forall i | 0 <= i < |parts| ensures Read(parts[i], 16) < 0x1_0000 {
      GroupIsSmall(parts[i]);
    }
  }

  lemma {:induction false} ZerosAreSmall(count: int)
    ensures AllSmall(Zeros(count))
  {
    if count > 0 {
      ZerosAreSmall(count - 1);
    }
  }

  lemma SmallTogether(a: seq<nat>, b: seq<nat>)
    requires AllSmall(a) && AllSmall(b)
    ensures AllSmall(a + b)
  {
  }

  lemma FilledIsSmall(front: seq<nat>, back: seq<nat>)
    requires AllSmall(front) && AllSmall(back)
    ensures AllSmall(Filled(front, back))
  {
    var zeros := Zeros(8 - |front| - |back|);
    ZerosAreSmall(8 - |front| - |back|);
    SmallTogether(front, zeros);
    SmallTogether(front + zeros, back);
  }

  lemma TailIsSmall(s: Spelling)
    requires IsSpelling(s)
    ensures AllSmall(TailOf(s))
  {
  }

  lemma MeaningIsSmall(s: Spelling)
    requires IsSpelling(s)
    ensures AllSmall(MeaningOf(s))
  {
    GroupsAreSmall(s.front);
    GroupsAreSmall(BackOf(s));
    TailIsSmall(s);
    if s.back.None? {
      SmallTogether(ValuesOf(s.front), TailOf(s));
    } else {
      SmallTogether(ValuesOf(s.back.value), TailOf(s));
      FilledIsSmall(ValuesOf(s.front), ValuesOf(s.back.value) + TailOf(s));
    }
  }

  /** What a spelling stands for is an address: eight groups of 16 bits. */
  lemma SpellingIsAddress(s: Spelling)
    requires IsSpelling(s)
    ensures Address(MeaningOf(s))
  {
    GroupsInvertSpelling(s);
    MeaningIsSmall(s);
  }

  /**
   * Two spellings have one key exactly when the addresses they stand for both map the same IPv4 address, or
   * neither maps one and their prefixes agree.
   */
  lemma SpellingsShareKeys(s: Spelling, t: Spelling, bits: nat)
    requires IsSpelling(s) && IsSpelling(t) && PrefixLength(bits)
    ensures var g, h := MeaningOf(s), MeaningOf(t);
            && |g| == |h| == 8
            && (KeyWith(V6(s), bits) == KeyWith(V6(t), bits)
                <==> if Mapped(g) && Mapped(h) then g == h else !Mapped(g) && !Mapped(h) && SamePrefix(g, h, bits))
  {
    GroupsInvertSpelling(s);
    GroupsInvertSpelling(t);
    SpellingIsAddress(s);
    SpellingIsAddress(t);
    KeysAgreeExactly(MeaningOf(s), MeaningOf(t), bits);
  }

  ghost function MappedSpelling(bytes: seq<nat>): Spelling {
    Spelling([], Some(["ffff"]), Some(bytes))
  }

  ghost predicate FourBytes(bytes: seq<nat>) {
    |bytes| == 4 && forall i | 0 <= i < 4 :: bytes[i] < 256
  }

  lemma FfffIsGroup()
    ensures GroupTexts(["ffff"]) && |ValuesOf(["ffff"])| == 1
  {
    assert Numeral("ffff", 16);
  }

  lemma MappedText(bytes: seq<nat>)
    requires FourBytes(bytes)
    ensures IsSpelling(MappedSpelling(bytes)) && TextOf(MappedSpelling(bytes)) == "::ffff:" + DottedText(bytes)
  {
    FfffIsGroup();
    var tail := DottedText(bytes);
    JoinOne(["ffff"], tail);
    assert Lead(["ffff"]) == "ffff:";
    Associates("::", "ffff:", tail);
    assert "" + "::" == "::" && "::" + "ffff:" == "::ffff:";
  }

  lemma MappedMeaning(bytes: seq<nat>)
    requires FourBytes(bytes)
    ensures MeaningOf(MappedSpelling(bytes))
         == [0, 0, 0, 0, 0, 0xffff, bytes[0] * 256 + bytes[1], bytes[2] * 256 + bytes[3]]
  {
    FfffIsRead();
    assert ValuesOf(["ffff"]) == [0xffff];
    assert Zeros(5) == [0, 0, 0, 0, 0];
  }

  lemma FfffIsRead()
    ensures Read("ffff", 16) == 0xffff
  {
    assert "ffff"[..3] == "fff" && "fff"[..2] == "ff" && "ff"[..1] == "f" && "f"[..0] == "";
    assert Read("f", 16) == 15 && Read("ff", 16) == 255 && Read("fff", 16) == 4095;
  }

  lemma MappedGroups(bytes: seq<nat>, groups: seq<nat>)
    requires FourBytes(bytes) && groups == [0, 0, 0, 0, 0, 0xffff, bytes[0] * 256 + bytes[1], bytes[2] * 256 + bytes[3]]
    ensures Mapped(groups) && MappedBytes(groups) == bytes
  {
    assert groups[..5] == [0, 0, 0, 0, 0];
  }

  /** A mapped address, written with its IPv4 address dotted, has that address's own key. */
  lemma MappedKeyIsIpv4(bytes: seq<nat>, bits: nat)
    requires FourBytes(bytes) && PrefixLength(bits)
    ensures var groups := Groups("::ffff:" + DottedText(bytes));
            |groups| == 8 && KeyOf(groups, bits) == DottedText(bytes)
  {
    MappedText(bytes);
    GroupsInvertSpelling(MappedSpelling(bytes));
    MappedMeaning(bytes);
    MappedGroups(bytes, MeaningOf(MappedSpelling(bytes)));
  }
}
