/** Version-4 UUID text: the in-place decoder, the formatter, and how they undo each other. */
module Uuid {
  import opened Protocol

  datatype IdError = InvalidLength | InvalidHyphens | InvalidHex | NotVersion4 | InvalidVariant

  datatype Parsed = Invalid(error: IdError) | Valid(bytes: Bytes)

  const HYPHEN: uint8 := '-' as int
  const TEXT_LENGTH: nat := 36

  // ---------------------------------------------------------------- layout

  predicate IsHyphenAt(i: int) {
    i == 8 || i == 13 || i == 18 || i == 23
  }

  /** How many hyphens stand before a text position. */
  function HyphensBefore(i: int): nat {
    (if i > 8 then 1 else 0) + (if i > 13 then 1 else 0) + (if i > 18 then 1 else 0) + (if i > 23 then 1 else 0)
  }

  /** Where the two digits of a byte start. */
  function DigitsAt(k: nat): nat {
    2 * k + if k < 4 then 0 else if k < 6 then 1 else if k < 8 then 2 else if k < 10 then 3 else 4
  }

  // ---------------------------------------------------------------- digits

  predicate IsHex(byte: uint8) {
    '0' as int <= byte <= '9' as int || 'a' as int <= byte <= 'f' as int || 'A' as int <= byte <= 'F' as int
  }

  function Nibble(byte: uint8): (n: uint8)
    requires IsHex(byte)
    ensures n < 16
  {
    if byte <= '9' as int then byte - '0' as int
    else if byte >= 'a' as int then byte - 'a' as int + 10
    else byte - 'A' as int + 10
  }

  function Digit(n: uint8): (byte: uint8)
    requires n < 16
    ensures IsHex(byte) && Nibble(byte) == n
  {
    if n < 10 then '0' as int + n else 'a' as int + n - 10
  }

  function Lower(byte: uint8): uint8 {
    if 'A' as int <= byte <= 'Z' as int then byte + 32 else byte
  }

  function LowerText(text: Bytes): Bytes {
    seq(|text|, i requires 0 <= i < |text| => Lower(text[i]))
  }

  lemma DigitOfNibble(byte: uint8)
    requires IsHex(byte)
    ensures Digit(Nibble(byte)) == Lower(byte)
  {
  }

  // ---------------------------------------------------------------- specification

  predicate HasHyphens(text: Bytes)
    requires |text| == TEXT_LENGTH
  {
    text[8] == text[13] == text[18] == text[23] == HYPHEN
  }

  predicate AllHex(text: Bytes)
    requires |text| == TEXT_LENGTH
  {
    forall i | 0 <= i < TEXT_LENGTH && !IsHyphenAt(i) :: IsHex(text[i])
  }

  function ByteAt(text: Bytes, k: nat): uint8
    requires |text| == TEXT_LENGTH && AllHex(text) && k < 16
  {
    16 * Nibble(text[DigitsAt(k)]) + Nibble(text[DigitsAt(k) + 1])
  }

  function AllBytes(text: Bytes): (bytes: Bytes)
    requires |text| == TEXT_LENGTH && AllHex(text)
    ensures |bytes| == 16
  {
    seq(16, k requires 0 <= k < 16 => ByteAt(text, k))
  }

  /** The version and variant of RFC 4122, sections 4.1.3 and 4.1.1. */
  function Checked(bytes: Bytes): Parsed
    requires |bytes| == 16
  {
    if bytes[6] / 16 != 4 then Invalid(NotVersion4)
    else if bytes[8] / 64 != 2 then Invalid(InvalidVariant)
    else Valid(bytes)
  }

  function Decoded(text: Bytes): Parsed {
    if |text| != TEXT_LENGTH then Invalid(InvalidLength)
    else if !HasHyphens(text) then Invalid(InvalidHyphens)
    else if !AllHex(text) then Invalid(InvalidHex)
    else Checked(AllBytes(text))
  }

  /** The lowercase hyphenated form of RFC 4122, section 3. */
  function CharacterAt(bytes: Bytes, i: nat): uint8
    requires |bytes| == 16 && i < TEXT_LENGTH
  {
    if IsHyphenAt(i) then HYPHEN
    else
      var digit := i - HyphensBefore(i);
      Digit(if digit % 2 == 0 then bytes[digit / 2] / 16 else bytes[digit / 2] % 16)
  }

  function Formatted(bytes: Bytes): (text: Bytes)
    requires |bytes| == 16
    ensures |text| == TEXT_LENGTH
  {
    seq(TEXT_LENGTH, i requires 0 <= i < TEXT_LENGTH => CharacterAt(bytes, i))
  }

  // ---------------------------------------------------------------- the decoder

  method DecodeUuidV4(text: Bytes) returns (parsed: Parsed)
    ensures parsed == Decoded(text)
  {
    if |text| != TEXT_LENGTH {
      return Invalid(InvalidLength);
    }
    var inPlace := HyphensInPlace(text);
    if !inPlace {
      return Invalid(InvalidHyphens);
    }
    var decoded := new uint8[16](_ => 0);
    var source, target := 0, 0;
    while source < |text|
      invariant 0 <= source <= TEXT_LENGTH && source == 2 * target + HyphensBefore(source)
      invariant target <= 16
      invariant forall i | 0 <= i < source && !IsHyphenAt(i) :: IsHex(text[i])
      invariant forall k | 0 <= k < target ::
                  && DigitsAt(k) + 1 < source
                  && decoded[k] == 16 * Nibble(text[DigitsAt(k)]) + Nibble(text[DigitsAt(k) + 1])
      decreases TEXT_LENGTH - source
    {
      if IsHyphenAt(source) {
        source := source + 1;
        continue;
      }
      assert source == DigitsAt(target) && !IsHyphenAt(source + 1);
      if !IsHex(text[source]) || !IsHex(text[source + 1]) {
        return Invalid(InvalidHex);
      }
      decoded[target] := 16 * Nibble(text[source]) + Nibble(text[source + 1]);
      source := source + 2;
      target := target + 1;
    }
    assert decoded[..] == AllBytes(text);
    if decoded[6] / 16 != 4 {
      return Invalid(NotVersion4);
    }
    if decoded[8] / 64 != 2 {
      return Invalid(InvalidVariant);
    }
    return Valid(decoded[..]);
  }

  method HyphensInPlace(text: Bytes) returns (inPlace: bool)
    requires |text| == TEXT_LENGTH
    ensures inPlace == HasHyphens(text)
  {
    var hyphens := [8, 13, 18, 23];
    for h := 0 to 4
      invariant forall j | 0 <= j < h :: text[hyphens[j]] == HYPHEN
    {
      if text[hyphens[h]] != HYPHEN {
        return false;
      }
    }
    assert hyphens[0] == 8 && hyphens[1] == 13 && hyphens[2] == 18 && hyphens[3] == 23;
    return true;
  }

  // ---------------------------------------------------------------- the formatter

  method FormatUuid(bytes: Bytes) returns (text: Bytes)
    requires |bytes| == 16
    ensures text == Formatted(bytes)
  {
    text := [];
    for index := 0 to 16
      invariant |text| == DigitsAt(index) - (if index == 4 || index == 6 || index == 8 || index == 10 then 1 else 0)
      invariant forall i | 0 <= i < |text| :: text[i] == CharacterAt(bytes, i)
    {
      if index == 4 || index == 6 || index == 8 || index == 10 {
        text := text + [HYPHEN];
      }
      text := text + [Digit(bytes[index] / 16)];
      text := text + [Digit(bytes[index] % 16)];
    }
  }

  // ---------------------------------------------------------------- round trips

  lemma PrintedIsHex(bytes: Bytes)
    requires |bytes| == 16
    ensures HasHyphens(Formatted(bytes)) && AllHex(Formatted(bytes)) && AllBytes(Formatted(bytes)) == bytes
  {
    var text := Formatted(bytes);
    assert AllHex(text);
    forall k | 0 <= k < 16 ensures ByteAt(text, k) == bytes[k] {
      var i := DigitsAt(k);
      assert text[i] == CharacterAt(bytes, i) && text[i + 1] == CharacterAt(bytes, i + 1);
      assert i - HyphensBefore(i) == 2 * k && i + 1 - HyphensBefore(i + 1) == 2 * k + 1;
    }
    assert AllBytes(text) == bytes;
  }

  /** What was printed parses back exactly for version 4 and the RFC variant; else the error says which failed. */
  lemma PrintThenParse(bytes: Bytes)
    requires |bytes| == 16
    ensures Decoded(Formatted(bytes))
            == if bytes[6] < 0x40 || bytes[6] > 0x4F then Invalid(NotVersion4)
               else if bytes[8] < 0x80 || bytes[8] > 0xBF then Invalid(InvalidVariant)
               else Valid(bytes)
  {
    PrintedIsHex(bytes);
  }

  const DIGITS := "0123456789abcdef"

  /** Where each byte is printed. */
  const PLACES: seq<nat> := [0, 2, 4, 6, 9, 11, 14, 16, 19, 21, 24, 26, 28, 30, 32, 34]

  /** The higher half of a byte is printed first, in lower case, and hyphens stand at their four places. */
  lemma PrintedText(bytes: Bytes, k: nat)
    requires |bytes| == 16 && k < 16
    ensures |Formatted(bytes)| == 36
    ensures Formatted(bytes)[PLACES[k]] == DIGITS[bytes[k] / 16] as int
    ensures Formatted(bytes)[PLACES[k] + 1] == DIGITS[bytes[k] % 16] as int
    ensures forall i | i == 8 || i == 13 || i == 18 || i == 23 :: Formatted(bytes)[i] == '-' as int
  {
    var i := DigitsAt(k);
    assert PLACES[k] == i;
    assert Formatted(bytes)[i] == CharacterAt(bytes, i) && Formatted(bytes)[i + 1] == CharacterAt(bytes, i + 1);
    assert i - HyphensBefore(i) == 2 * k && i + 1 - HyphensBefore(i + 1) == 2 * k + 1;
    DigitIsListed(bytes[k] / 16);
    DigitIsListed(bytes[k] % 16);
  }

  lemma DigitIsListed(n: uint8)
    requires n < 16
    ensures Digit(n) == DIGITS[n] as int
  {
  }

  /** Texts that parse, by their characters alone. */
  predicate IsVersion4Text(text: Bytes) {
    && |text| == 36
    && text[8] == '-' as int && text[13] == '-' as int && text[18] == '-' as int && text[23] == '-' as int
    && (forall i | 0 <= i < 36 && i != 8 && i != 13 && i != 18 && i != 23 :: IsDigitOrLetter(text[i]))
    && text[14] == '4' as int
    && (text[19] == '8' as int || text[19] == '9' as int || text[19] == 'a' as int || text[19] == 'b' as int
        || text[19] == 'A' as int || text[19] == 'B' as int)
  }

  predicate IsDigitOrLetter(byte: uint8) {
    exists d :: 0 <= d < 16 && (byte == DIGITS[d] as int || byte == "0123456789ABCDEF"[d] as int)
  }

  lemma HexIsListed(byte: uint8)
    ensures IsHex(byte) <==> IsDigitOrLetter(byte)
    ensures IsHex(byte) ==> byte == DIGITS[Nibble(byte)] as int || byte == "0123456789ABCDEF"[Nibble(byte)] as int
  {
    if IsHex(byte) {
      var d := Nibble(byte);
      assert byte == DIGITS[d] as int || byte == "0123456789ABCDEF"[d] as int;
    }
  }

  /** A text parses exactly when its length, hyphens, digits, version digit and variant digit are right. */
  lemma ParsesExactlyWhen(text: Bytes)
    ensures Decoded(text).Valid? <==> IsVersion4Text(text)
  {
    forall byte: uint8 ensures IsHex(byte) <==> IsDigitOrLetter(byte) {
      HexIsListed(byte);
    }
    if |text| == 36 && HasHyphens(text) && AllHex(text) {
      var bytes := AllBytes(text);
      assert bytes[6] == 16 * Nibble(text[14]) + Nibble(text[15]);
      assert bytes[8] == 16 * Nibble(text[19]) + Nibble(text[20]);
    }
  }

  /** The first of the checks that fails decides the error. */
  lemma FirstFaultDecides(text: Bytes)
    ensures Decoded(text) == Invalid(InvalidLength) <==> |text| != 36
    ensures Decoded(text) == Invalid(InvalidHyphens) <==>
              && |text| == 36
              && !(text[8] == '-' as int && text[13] == '-' as int && text[18] == '-' as int && text[23] == '-' as int)
    ensures Decoded(text) == Invalid(InvalidHex) ==>
              exists i :: 0 <= i < |text| && i != 8 && i != 13 && i != 18 && i != 23 && !IsDigitOrLetter(text[i])
    ensures Decoded(text) == Invalid(NotVersion4) ==> text[14] != '4' as int
    ensures Decoded(text) == Invalid(InvalidVariant) ==> text[14] == '4' as int
  {
    forall byte: uint8 ensures IsHex(byte) <==> IsDigitOrLetter(byte) {
      HexIsListed(byte);
    }
    if |text| == 36 && HasHyphens(text) && AllHex(text) {
      var bytes := AllBytes(text);
      assert bytes[6] == 16 * Nibble(text[14]) + Nibble(text[15]);
    }
  }

  lemma DigitOfByte(text: Bytes, k: nat)
    requires |text| == TEXT_LENGTH && AllHex(text) && k < 16
    ensures Digit(ByteAt(text, k) / 16) == Lower(text[DigitsAt(k)])
    ensures Digit(ByteAt(text, k) % 16) == Lower(text[DigitsAt(k) + 1])
  {
    DigitOfNibble(text[DigitsAt(k)]);
    DigitOfNibble(text[DigitsAt(k) + 1]);
  }

  lemma PrintedCharacter(text: Bytes, i: nat)
    requires |text| == TEXT_LENGTH && HasHyphens(text) && AllHex(text) && i < TEXT_LENGTH
    ensures CharacterAt(AllBytes(text), i) == Lower(text[i])
  {
    if !IsHyphenAt(i) {
      var digit := i - HyphensBefore(i);
      assert DigitsAt(digit / 2) == if digit % 2 == 0 then i else i - 1;
      DigitOfByte(text, digit / 2);
    }
  }

  lemma DecodedLayout(text: Bytes)
    requires Decoded(text).Valid?
    ensures |text| == TEXT_LENGTH && HasHyphens(text) && AllHex(text) && Decoded(text).bytes == AllBytes(text)
  {
  }

  /** Printing what was parsed gives the text back in lower case. */
  lemma ParseThenPrint(text: Bytes)
    requires Decoded(text).Valid?
    ensures Formatted(Decoded(text).bytes) == LowerText(text)
  {
    DecodedLayout(text);
    forall i: nat | i < TEXT_LENGTH ensures CharacterAt(AllBytes(text), i) == Lower(text[i]) {
      PrintedCharacter(text, i);
    }
  }
}
