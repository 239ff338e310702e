/** Fixed-width big-endian fields, written before a tail and taken off the front again. */
module ByteFields {
  import opened Protocol

  /** What taking a field off the front of some bytes yields. */
  datatype Taken<+T> = Malformed | Taken(value: T, rest: Bytes) {
    predicate IsFailure() { Malformed? }
    function PropagateFailure<U>(): Taken<U> requires Malformed? { Malformed }
    function Extract(): (T, Bytes) requires Taken? { (value, rest) }
  }

  function Bound(width: nat): (n: nat)
    ensures n > 0
  {
    if width == 0 then 1 else 0x100 * Bound(width - 1)
  }

  function BigEndian(width: nat, value: nat): (bytes: Bytes)
    ensures |bytes| == width
  {
    if width == 0 then [] else BigEndian(width - 1, value / 0x100) + [value % 0x100]
  }

  function Value(bytes: Bytes): (n: nat)
    ensures n < Bound(|bytes|)
  {
    if bytes == [] then 0 else 0x100 * Value(bytes[..|bytes| - 1]) + bytes[|bytes| - 1]
  }

  lemma {:induction false} ValueOfBigEndian(width: nat, value: nat)
    requires value < Bound(width)
    ensures Value(BigEndian(width, value)) == value
  {
    if width > 0 {
      ValueOfBigEndian(width - 1, value / 0x100);
      assert BigEndian(width, value)[..width - 1] == BigEndian(width - 1, value / 0x100);
    }
  }

  lemma Bounds()
    ensures Bound(1) == 0x100 && Bound(2) == 0x1_0000 && Bound(4) == 0x1_0000_0000
    ensures Bound(8) == 0x1_0000_0000_0000_0000
    ensures Bound(16) == 0x1_0000_0000_0000_0000_0000_0000_0000_0000
  {
    assert Bound(3) == 0x100_0000;
    assert Bound(5) == 0x100_0000_0000;
    assert Bound(6) == 0x1_0000_0000_0000;
    assert Bound(7) == 0x100_0000_0000_0000;
    assert Bound(9) == 0x100_0000_0000_0000_0000;
    assert Bound(10) == 0x1_0000_0000_0000_0000_0000;
    assert Bound(11) == 0x100_0000_0000_0000_0000_0000;
    assert Bound(12) == 0x1_0000_0000_0000_0000_0000_0000;
    assert Bound(13) == 0x100_0000_0000_0000_0000_0000_0000;
    assert Bound(14) == 0x1_0000_0000_0000_0000_0000_0000_0000;
    assert Bound(15) == 0x100_0000_0000_0000_0000_0000_0000_0000;
  }

  function TakeBytes(width: nat, bytes: Bytes): (taken: Taken<Bytes>)
    ensures taken.Taken? ==> |taken.value| == width
  {
    if |bytes| < width then Malformed else Taken(bytes[..width], bytes[width..])
  }

  lemma TakeWhatWasPut(chunk: Bytes, tail: Bytes)
    ensures TakeBytes(|chunk|, chunk + tail) == Taken(chunk, tail)
  {
  }

  // ---------------------------------------------------------------- integers

  function Uint8(x: uint8): Bytes { [x] }
  function Uint16(x: uint16): Bytes { BigEndian(2, x) }
  function Uint32(x: uint32): Bytes { BigEndian(4, x) }
  function Uint64(x: uint64): Bytes { BigEndian(8, x) }
  function Uint128(x: uint128): Bytes { BigEndian(16, x) }
  function Bool(x: bool): Bytes { [if x then 1 else 0] }

  // Two's complement.
  function Int16(x: int16): Bytes { BigEndian(2, if x < 0 then x + 0x1_0000 else x) }
  function Int32(x: int32): Bytes { BigEndian(4, if x < 0 then x + 0x1_0000_0000 else x) }

  function TakeUint8(bytes: Bytes): Taken<uint8> {
    if bytes == [] then Malformed else Taken(bytes[0], bytes[1..])
  }

  function TakeUint16(bytes: Bytes): Taken<uint16> {
    var (chunk, rest) :- TakeBytes(2, bytes);
    Bounds();
    Taken(Value(chunk), rest)
  }

  function TakeUint32(bytes: Bytes): Taken<uint32> {
    var (chunk, rest) :- TakeBytes(4, bytes);
    Bounds();
    Taken(Value(chunk), rest)
  }

  function TakeUint64(bytes: Bytes): Taken<uint64> {
    var (chunk, rest) :- TakeBytes(8, bytes);
    Bounds();
    Taken(Value(chunk), rest)
  }

  function TakeUint128(bytes: Bytes): Taken<uint128> {
    var (chunk, rest) :- TakeBytes(16, bytes);
    Bounds();
    Taken(Value(chunk), rest)
  }

  function TakeBool(bytes: Bytes): Taken<bool> {
    var (byte, rest) :- TakeUint8(bytes);
    if byte > 1 then Malformed else Taken(byte == 1, rest)
  }

  function TakeInt16(bytes: Bytes): Taken<int16> {
    var (n, rest) :- TakeUint16(bytes);
    Taken(if n >= 0x8000 then n - 0x1_0000 else n, rest)
  }

  function TakeInt32(bytes: Bytes): Taken<int32> {
    var (n, rest) :- TakeUint32(bytes);
    Taken(if n >= 0x8000_0000 then n - 0x1_0000_0000 else n, rest)
  }

  lemma Uint8RoundTrip(x: uint8, tail: Bytes)
    ensures TakeUint8(Uint8(x) + tail) == Taken(x, tail)
  {
  }

  lemma BoolRoundTrip(x: bool, tail: Bytes)
    ensures TakeBool(Bool(x) + tail) == Taken(x, tail)
  {
    Uint8RoundTrip(Bool(x)[0], tail);
  }

  lemma Uint16RoundTrip(x: uint16, tail: Bytes)
    ensures TakeUint16(Uint16(x) + tail) == Taken(x, tail)
  {
    Bounds();
    ValueOfBigEndian(2, x);
    TakeWhatWasPut(Uint16(x), tail);
  }

  lemma Uint32RoundTrip(x: uint32, tail: Bytes)
    ensures TakeUint32(Uint32(x) + tail) == Taken(x, tail)
  {
    Bounds();
    ValueOfBigEndian(4, x);
    TakeWhatWasPut(Uint32(x), tail);
  }

  lemma Uint64RoundTrip(x: uint64, tail: Bytes)
    ensures TakeUint64(Uint64(x) + tail) == Taken(x, tail)
  {
    Bounds();
    ValueOfBigEndian(8, x);
    TakeWhatWasPut(Uint64(x), tail);
  }

  lemma Uint128RoundTrip(x: uint128, tail: Bytes)
    ensures TakeUint128(Uint128(x) + tail) == Taken(x, tail)
  {
    Bounds();
    ValueOfBigEndian(16, x);
    TakeWhatWasPut(Uint128(x), tail);
  }

  lemma Int16RoundTrip(x: int16, tail: Bytes)
    ensures TakeInt16(Int16(x) + tail) == Taken(x, tail)
  {
    Uint16RoundTrip(if x < 0 then x + 0x1_0000 else x, tail);
  }

  lemma Int32RoundTrip(x: int32, tail: Bytes)
    ensures TakeInt32(Int32(x) + tail) == Taken(x, tail)
  {
    Uint32RoundTrip(if x < 0 then x + 0x1_0000_0000 else x, tail);
  }
}
