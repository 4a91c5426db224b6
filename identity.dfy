/**
 * The device identity: the 64-bit hardware id written most-significant byte
 * first into an 8-byte buffer, and its rendering as upper-case hexadecimal
 * (two digits per byte, high nibble first, byte 0 first).
 */
module DeviceIdentity {
  import opened Options

  /** An octet, as the source's uint8_t. */
  type byte = b: int | 0 <= b < 256

  /** An unsigned 64-bit value, as the source's uint64_t. */
  type u64 = x: int | 0 <= x < 0x1_0000_0000_0000_0000

  /** The digit alphabet of every hex rendering the device produces. */
  const HexChars: string := "0123456789ABCDEF"

  /** A digit of the alphabet, by arithmetic on character codes. */
  function HexDigit(n: int): (c: char)
    requires 0 <= n < 16
  {
    if n < 10 then ('0' as int + n) as char else ('A' as int + n - 10) as char
  }

  /** The digit of n is entry n of the table. */
  lemma HexDigitInTable(n: int)
    requires 0 <= n < 16
    ensures HexChars[n] == HexDigit(n)
  {
  }

  /** An upper-case hex digit. */
  predicate IsHexDigit(c: char)
  {
    '0' <= c <= '9' || 'A' <= c <= 'F'
  }

  /**
   * The two digits of one byte, high nibble first. On an unsigned byte
   * `(b >> 4) & 0xF` is `b / 16` and `b & 0xF` is `b % 16`.
   */
  function HexByte(b: byte): (s: string)
    ensures |s| == 2
  {
    [HexDigit(b / 16), HexDigit(b % 16)]
  }

  /** Hex rendering of a byte string: every byte becomes two upper-case digits. */
  function Hex(bytes: seq<byte>): (s: string)
    ensures |s| == 2 * |bytes|
  {
    if bytes == [] then "" else Hex(bytes[..|bytes| - 1]) + HexByte(bytes[|bytes| - 1])
  }

  /** Byte `i` of the input is rendered at characters `2i` (high nibble) and `2i + 1` (low nibble). */
  lemma {:induction false} HexAt(bytes: seq<byte>, i: nat)
    requires i < |bytes|
    ensures 2 * i + 2 <= |Hex(bytes)|
    ensures Hex(bytes)[2 * i] == HexDigit(bytes[i] / 16)
    ensures Hex(bytes)[2 * i + 1] == HexDigit(bytes[i] % 16)
  {
    var n := |bytes| - 1;
    var init := bytes[..n];
    assert Hex(bytes) == Hex(init) + HexByte(bytes[n]);
    if i < n {
      HexAt(init, i);
      assert bytes[i] == init[i];
    }
  }

  /** Every character of a rendering is one of the sixteen upper-case hex digits. */
  lemma HexAlphabet(bytes: seq<byte>)
    ensures forall i :: 0 <= i < |Hex(bytes)| ==> IsHexDigit(Hex(bytes)[i])
  {
    forall i | 0 <= i < |Hex(bytes)|
      ensures IsHexDigit(Hex(bytes)[i])
    {
      HexAt(bytes, i / 2);
    }
  }

  /** The value of one hex digit, or None for any other character. */
  function NibbleValue(c: char): (r: Option<int>)
    ensures r.Some? <==> IsHexDigit(c)
    ensures r.Some? ==> 0 <= r.value < 16 && HexDigit(r.value) == c
  {
    if '0' <= c <= '9' then Some(c as int - '0' as int)
    else if 'A' <= c <= 'F' then Some(c as int - 'A' as int + 10)
    else None
  }

  lemma NibbleOfDigit(n: int)
    requires 0 <= n < 16
    ensures NibbleValue(HexDigit(n)) == Some(n)
  {
  }

  /** The byte two digits stand for, high digit first; None unless both are hex digits. */
  function ByteOfDigits(hi: char, lo: char): (r: Option<byte>)
    ensures r.Some? <==> IsHexDigit(hi) && IsHexDigit(lo)
    ensures r.Some? ==> HexByte(r.value) == [hi, lo]
  {
    match (NibbleValue(hi), NibbleValue(lo))
    case (Some(h), Some(l)) => Some(h * 16 + l)
    case _ => None
  }

  lemma ByteOfHexByte(b: byte)
    ensures ByteOfDigits(HexByte(b)[0], HexByte(b)[1]) == Some(b)
  {
    NibbleOfDigit(b / 16);
    NibbleOfDigit(b % 16);
  }

  /** Reads a hex string back into bytes; the inverse of Hex. */
  function ParseHex(s: string): (r: Option<seq<byte>>)
    ensures r.Some? ==> 2 * |r.value| == |s|
  {
    if s == "" then Some([])
    else if |s| < 2 then None
    else
      match ParseHex(s[..|s| - 2])
      case None => None
      case Some(init) =>
        match ByteOfDigits(s[|s| - 2], s[|s| - 1])
        case None => None
        case Some(b) => Some(init + [b])
  }

  /** Rendering then parsing gives back the bytes, in their order. */
  lemma {:induction false} HexRoundTrip(bytes: seq<byte>)
    ensures ParseHex(Hex(bytes)) == Some(bytes)
  {
    if bytes != [] {
      var n := |bytes| - 1;
      var t := Hex(bytes[..n]);
      var s := t + HexByte(bytes[n]);
      assert Hex(bytes) == s;
      assert s[..|s| - 2] == t && s[|s| - 2] == HexByte(bytes[n])[0] && s[|s| - 1] == HexByte(bytes[n])[1];
      HexRoundTrip(bytes[..n]);
      ByteOfHexByte(bytes[n]);
      assert bytes[..n] + [bytes[n]] == bytes;
    }
  }

  /** Every string ParseHex accepts is exactly the rendering of what it returns. */
  lemma {:induction false} ParseHexSound(s: string)
    requires ParseHex(s).Some?
    ensures Hex(ParseHex(s).value) == s
  {
    if s != "" {
      var t := s[..|s| - 2];
      ParseHexSound(t);
      var b := ByteOfDigits(s[|s| - 2], s[|s| - 1]).value;
      var bytes := ParseHex(s).value;
      assert bytes == ParseHex(t).value + [b];
      assert bytes[..|bytes| - 1] == ParseHex(t).value;
      assert Hex(bytes) == t + HexByte(b);
      assert s == t + [s[|s| - 2], s[|s| - 1]];
    }
  }

  /** Hex is one-to-one: distinct byte strings never render alike. */
  lemma HexInjective(a: seq<byte>, b: seq<byte>)
    requires Hex(a) == Hex(b)
    ensures a == b
  {
    HexRoundTrip(a);
    HexRoundTrip(b);
  }

  /** Appends two hex digits per byte of data[..len], high nibble first. */
  method BytesToHex(data: array<byte>, len: nat) returns (out: string)
    requires len <= data.Length
    ensures out == Hex(data[..len])
  {
    out := "";
    for i := 0 to len
      invariant out == Hex(data[..i])
    {
      HexDigitInTable(data[i] / 16);
      HexDigitInTable(data[i] % 16);
      out := out + [HexChars[data[i] / 16]];
      out := out + [HexChars[data[i] % 16]];
      assert data[..i + 1][..i] == data[..i];
    }
  }

  /** 256 to the power n. */
  function Pow256(n: nat): (r: nat)
    ensures r >= 1
  {
    if n == 0 then 1 else 256 * Pow256(n - 1)
  }

  /** A positive multiple of d is at least d. */
  lemma {:induction false} MulAtLeast(k: nat, d: nat)
    requires k >= 1
    ensures k * d >= d
  {
    if k > 1 {
      MulAtLeast(k - 1, d);
      assert k * d == (k - 1) * d + d;
    }
  }

  /** A larger multiplier of d is larger by at least d. */
  lemma MulGap(lo: nat, hi: nat, d: nat)
    requires lo < hi
    ensures lo * d + d <= hi * d
  {
    var k := hi - lo;
    assert hi * d == lo * d + k * d;
    MulAtLeast(k, d);
  }

  /** The quotient is the only q with x == q * d + t and 0 <= t < d. */
  lemma DivUnique(x: nat, d: nat, q: nat, t: nat)
    requires d >= 1 && t < d && x == q * d + t
    ensures x / d == q
  {
    var q' := x / d;
    assert q' * d + x % d == q * d + t;
    if q' < q {
      MulGap(q', q, d);
    } else if q' > q {
      MulGap(q, q', d);
    }
  }

  /** Two nested quotient-remainder splits regroup into one. */
  lemma Regroup(x: nat, a: nat, q: nat, r: nat, b: nat, q2: nat, r2: nat)
    requires x == q * a + r && q == q2 * b + r2
    ensures x == q2 * (a * b) + (r2 * a + r)
  {
    assert (q2 * b + r2) * a == q2 * (a * b) + r2 * a;
  }

  /** Digits below their bases give a two-place value below the product of the bases. */
  lemma TwoPlaceBound(r2: nat, r: nat, a: nat, b: nat)
    requires r2 < b && r < a
    ensures r2 * a + r < a * b
  {
    if r2 < b - 1 {
      MulGap(r2, b - 1, a);
    }
    assert (b - 1) * a + a == a * b;
  }

  /** Dividing by a and then by b is dividing by a * b. */
  lemma DivDiv(x: nat, a: nat, b: nat)
    requires a >= 1 && b >= 1
    ensures x / a / b == x / (a * b)
  {
    var q, r := x / a, x % a;
    var q2, r2 := q / b, q % b;
    Regroup(x, a, q, r, b, q2, r2);
    TwoPlaceBound(r2, r, a, b);
    DivUnique(x, a * b, q2, r2 * a + r);
  }

  /** `x >> (8 * i)` on an unsigned value: i successive shifts by one byte, each a division by 256. */
  function ShiftBytes(x: nat, i: nat): nat
  {
    if i == 0 then x else ShiftBytes(x, i - 1) / 256
  }

  /** Shifting right by i bytes is dividing by 256^i. */
  lemma {:induction false} ShiftBytesDivides(x: nat, i: nat)
    ensures ShiftBytes(x, i) == x / Pow256(i)
  {
    if i > 0 {
      ShiftBytesDivides(x, i - 1);
      DivDiv(x, Pow256(i - 1), 256);
    }
  }

  /** Shifting out i bytes leaves a value below 256^j when x was below 256^(i+j). */
  lemma {:induction false} ShiftBytesBound(x: nat, i: nat, j: nat)
    requires x < Pow256(i + j)
    ensures ShiftBytes(x, i) < Pow256(j)
  {
    if i > 0 {
      ShiftBytesBound(x, i - 1, j + 1);
      assert i - 1 + (j + 1) == i + j;
    }
  }

  /** The identity bytes: byte k is `(id >> 8 * (7 - k)) & 0xFF`, most significant byte first. */
  function DeviceIdOf(id: u64): (r: seq<byte>)
    ensures |r| == 8
  {
    seq(8, k requires 0 <= k < 8 => ShiftBytes(id, 7 - k) % 256)
  }

  /** Reads a byte string as an unsigned number, most significant byte first. */
  function BigEndian(bytes: seq<byte>): nat
  {
    if bytes == [] then 0 else BigEndian(bytes[..|bytes| - 1]) * 256 + bytes[|bytes| - 1]
  }

  /** The first n identity bytes read as a number are the id shifted right by 8 - n bytes. */
  lemma {:induction false} DeviceIdPrefix(id: u64, n: nat)
    requires n <= 8
    ensures BigEndian(DeviceIdOf(id)[..n]) == ShiftBytes(id, 8 - n)
  {
    var r := DeviceIdOf(id);
    if n == 0 {
      assert Pow256(8) == 0x1_0000_0000_0000_0000;
      ShiftBytesBound(id, 8, 0);
    } else {
      DeviceIdPrefix(id, n - 1);
      assert r[..n][..n - 1] == r[..n - 1];
      var y := ShiftBytes(id, 8 - n);
      assert ShiftBytes(id, 8 - (n - 1)) == y / 256;
      assert r[n - 1] == y % 256;
    }
  }

  /** The identity is the big-endian encoding of the hardware id. */
  lemma DeviceIdRoundTrip(id: u64)
    ensures BigEndian(DeviceIdOf(id)) == id
  {
    DeviceIdPrefix(id, 8);
    assert DeviceIdOf(id)[..8] == DeviceIdOf(id);
  }

  /** Distinct hardware ids give distinct identities. */
  lemma DeviceIdInjective(a: u64, b: u64)
    requires DeviceIdOf(a) == DeviceIdOf(b)
    ensures a == b
  {
    DeviceIdRoundTrip(a);
    DeviceIdRoundTrip(b);
  }

  /**
   * Fills the 8-byte buffer from the hardware id: the low byte of the id goes
   * into slot 7 - i, then the id is shifted right by one byte.
   */
  method BuildDeviceId(deviceId: array<byte>, efuseMac: u64)
    requires deviceId.Length == 8
    modifies deviceId
    ensures deviceId[..] == DeviceIdOf(efuseMac)
  {
    var id: nat := efuseMac;
    for i := 0 to 8
      invariant id == ShiftBytes(efuseMac, i)
      invariant forall k :: 8 - i <= k < 8 ==> deviceId[k] == DeviceIdOf(efuseMac)[k]
    {
      deviceId[7 - i] := id % 256;
      id := id / 256;
    }
  }

  /** The worked example: hardware id 0x0102030405060708 gives identity bytes 01 .. 08. */
  lemma ExampleDeviceId()
    ensures DeviceIdOf(0x0102030405060708) == [1, 2, 3, 4, 5, 6, 7, 8]
  {
    var id := 0x0102030405060708;
    assert ShiftBytes(id, 1) == 0x01020304050607;
    assert ShiftBytes(id, 2) == 0x010203040506;
    assert ShiftBytes(id, 3) == 0x0102030405;
    assert ShiftBytes(id, 4) == 0x01020304;
    assert ShiftBytes(id, 5) == 0x010203;
    assert ShiftBytes(id, 6) == 0x0102;
    assert ShiftBytes(id, 7) == 0x01;
  }

  /** The identity bytes 01 .. 08 render as "0102030405060708". */
  lemma HexOfCounting()
    ensures Hex([1, 2, 3, 4, 5, 6, 7, 8]) == "0102030405060708"
  {
    assert [1, 2][..1] == [1];
    assert [1, 2, 3][..2] == [1, 2];
    assert [1, 2, 3, 4][..3] == [1, 2, 3];
    assert [1, 2, 3, 4, 5][..4] == [1, 2, 3, 4];
    assert [1, 2, 3, 4, 5, 6][..5] == [1, 2, 3, 4, 5];
    assert [1, 2, 3, 4, 5, 6, 7][..6] == [1, 2, 3, 4, 5, 6];
    assert [1, 2, 3, 4, 5, 6, 7, 8][..7] == [1, 2, 3, 4, 5, 6, 7];
    assert Hex([1, 2, 3]) == "010203";
    assert Hex([1, 2, 3, 4, 5]) == "0102030405";
    assert Hex([1, 2, 3, 4, 5, 6, 7]) == "01020304050607";
  }

  /** ... so the worked-example identity renders as "0102030405060708". */
  lemma ExampleHex()
    ensures Hex(DeviceIdOf(0x0102030405060708)) == "0102030405060708"
  {
    ExampleDeviceId();
    HexOfCounting();
  }
}
