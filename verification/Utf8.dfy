/** Well-formed UTF-8 (RFC 3629, section 4): the reader's test, and the scalar values it stands for. */
module Utf8 {
  import opened Protocol

  predicate IsContinuation(byte: uint8) {
    0x80 <= byte <= 0xBF
  }

  /** How many bytes the first scalar value of well-formed UTF-8 takes; zero when it is malformed. */
  function ScalarLength(bytes: Bytes): (n: nat)
    requires bytes != []
    ensures n <= |bytes|
  {
    var first := bytes[0];
    if first < 0x80 then 1
    else if |bytes| < 2 || !IsContinuation(bytes[1]) then 0
    else if 0xC2 <= first <= 0xDF then 2
    else if |bytes| < 3 || !IsContinuation(bytes[2]) then 0
    else if 0xE0 <= first <= 0xEF then
      if (first == 0xE0 && bytes[1] < 0xA0) || (first == 0xED && bytes[1] > 0x9F) then 0 else 3
    else if |bytes| < 4 || !IsContinuation(bytes[3]) then 0
    else if 0xF0 <= first <= 0xF4 then
      if (first == 0xF0 && bytes[1] < 0x90) || (first == 0xF4 && bytes[1] > 0x8F) then 0 else 4
    else 0
  }

  predicate IsUtf8(bytes: Bytes)
    decreases |bytes|
  {
    bytes == [] || (ScalarLength(bytes) > 0 && IsUtf8(bytes[ScalarLength(bytes)..]))
  }

  lemma {:induction false} AsciiIsUtf8(bytes: Bytes)
    requires forall i | 0 <= i < |bytes| :: bytes[i] < 0x80
    ensures IsUtf8(bytes)
  {
    if bytes != [] {
      assert ScalarLength(bytes) == 1;
      AsciiIsUtf8(bytes[1..]);
    }
  }

  // ---------------------------------------------------------------- what the bytes stand for

  /** The numbers that are characters: no surrogates. */
  predicate IsScalar(c: nat) {
    c <= 0xD7FF || 0xE000 <= c <= 0x10FFFF
  }

  function Encoding(c: nat): (bytes: Bytes)
    requires IsScalar(c)
    ensures 1 <= |bytes| <= 4
  {
    if c < 0x80 then [c]
    else if c < 0x800 then [0xC0 + c / 0x40, 0x80 + c % 0x40]
    else if c < 0x10000 then [0xE0 + c / 0x1000, 0x80 + c / 0x40 % 0x40, 0x80 + c % 0x40]
    else [0xF0 + c / 0x40000, 0x80 + c / 0x1000 % 0x40, 0x80 + c / 0x40 % 0x40, 0x80 + c % 0x40]
  }

  predicate AreScalars(scalars: seq<nat>) {
    forall i | 0 <= i < |scalars| :: IsScalar(scalars[i])
  }

  function Encodings(scalars: seq<nat>): Bytes
    requires AreScalars(scalars)
  {
    if scalars == [] then [] else Encoding(scalars[0]) + Encodings(scalars[1..])
  }

  /** Bytes that encode some text. */
  ghost predicate IsText(bytes: Bytes) {
    exists scalars: seq<nat> :: AreScalars(scalars) && bytes == Encodings(scalars)
  }

  lemma EncodingIsRead(c: nat, rest: Bytes)
    requires IsScalar(c)
    ensures ScalarLength(Encoding(c) + rest) == |Encoding(c)|
  {
  }

  /** Six bits at a time. */
  function Sextets(a: nat, b: nat, d: nat, e: nat): nat {
    a * 0x40000 + b * 0x1000 + d * 0x40 + e
  }

  lemma LastSextet(x: nat, e: nat)
    requires e < 0x40
    ensures (x * 0x40 + e) / 0x40 == x && (x * 0x40 + e) % 0x40 == e
  {
  }

  lemma DividedTwice(c: nat)
    ensures c / 0x40 / 0x40 == c / 0x1000 && c / 0x40 / 0x40 / 0x40 == c / 0x40000
  {
  }

  lemma SextetsComeApart(a: nat, b: nat, d: nat, e: nat)
    requires b < 0x40 && d < 0x40 && e < 0x40
    ensures var c := Sextets(a, b, d, e);
            && c / 0x40000 == a && c / 0x1000 % 0x40 == b && c / 0x40 % 0x40 == d && c % 0x40 == e
            && c / 0x1000 == 0x40 * a + b && c / 0x40 == 0x1000 * a + 0x40 * b + d
  {
    var ab := a * 0x40 + b;
    var abd := ab * 0x40 + d;
    assert Sextets(a, b, d, e) == abd * 0x40 + e;
    LastSextet(a, b);
    LastSextet(ab, d);
    LastSextet(abd, e);
    DividedTwice(Sextets(a, b, d, e));
  }

  function Scalar(bytes: Bytes): nat
    requires bytes != []
  {
    var n := ScalarLength(bytes);
    if n == 2 then Sextets(0, 0, bytes[0] - 0xC0, bytes[1] - 0x80)
    else if n == 3 then Sextets(0, bytes[0] - 0xE0, bytes[1] - 0x80, bytes[2] - 0x80)
    else if n == 4 then Sextets(bytes[0] - 0xF0, bytes[1] - 0x80, bytes[2] - 0x80, bytes[3] - 0x80)
    else bytes[0]
  }

  lemma ReadIsEncoding(bytes: Bytes)
    requires bytes != [] && ScalarLength(bytes) > 0
    ensures IsScalar(Scalar(bytes)) && bytes[..ScalarLength(bytes)] == Encoding(Scalar(bytes))
  {
    var n := ScalarLength(bytes);
    if n == 2 {
      SextetsComeApart(0, 0, bytes[0] - 0xC0, bytes[1] - 0x80);
    } else if n == 3 {
      SextetsComeApart(0, bytes[0] - 0xE0, bytes[1] - 0x80, bytes[2] - 0x80);
    } else if n == 4 {
      SextetsComeApart(bytes[0] - 0xF0, bytes[1] - 0x80, bytes[2] - 0x80, bytes[3] - 0x80);
    }
  }

  lemma {:induction false} TextIsWellFormed(scalars: seq<nat>)
    requires AreScalars(scalars)
    ensures IsUtf8(Encodings(scalars))
  {
    if scalars != [] {
      var first, rest := Encoding(scalars[0]), Encodings(scalars[1..]);
      EncodingIsRead(scalars[0], rest);
      TextIsWellFormed(scalars[1..]);
      assert (first + rest)[|first|..] == rest;
    }
  }

  lemma OneMoreScalar(c: nat, others: seq<nat>)
    requires IsScalar(c) && AreScalars(others)
    ensures AreScalars([c] + others) && Encodings([c] + others) == Encoding(c) + Encodings(others)
  {
    assert ([c] + others)[1..] == others;
  }

  lemma FirstScalar(bytes: Bytes)
    requires bytes != [] && IsUtf8(bytes)
    ensures var rest := bytes[|Encoding(Scalar(bytes))|..];
            IsScalar(Scalar(bytes)) && bytes == Encoding(Scalar(bytes)) + rest && |rest| < |bytes| && IsUtf8(rest)
  {
    ReadIsEncoding(bytes);
    var n := ScalarLength(bytes);
    assert bytes == bytes[..n] + bytes[n..];
  }

  lemma {:induction false} WellFormedIsText(bytes: Bytes) returns (scalars: seq<nat>)
    requires IsUtf8(bytes)
    ensures AreScalars(scalars) && bytes == Encodings(scalars)
    decreases |bytes|
  {
    if bytes == [] {
      scalars := [];
    } else {
      var c := Scalar(bytes);
      FirstScalar(bytes);
      var others := WellFormedIsText(bytes[|Encoding(c)|..]);
      OneMoreScalar(c, others);
      scalars := [c] + others;
    }
  }

  /** The test accepts exactly the encodings of text. */
  lemma WellFormedExactlyWhen(bytes: Bytes)
    ensures IsUtf8(bytes) <==> IsText(bytes)
  {
    if IsUtf8(bytes) {
      var scalars := WellFormedIsText(bytes);
    }
    if IsText(bytes) {
      var scalars: seq<nat> :| AreScalars(scalars) && bytes == Encodings(scalars);
      TextIsWellFormed(scalars);
    }
  }
}
