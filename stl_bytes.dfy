/**
 * Byte-level building blocks of a binary STL file: the 80-byte header made
 * from the object name (struct format '80s' over the UTF-8 encoding), the
 * facet count (struct format '<i', a signed 32-bit little-endian integer)
 * and an abstract single-precision float encoder.
 */
module StlBytes {

  type byte = b: int | 0 <= b < 256

  /** Four bytes: what struct format 'f' produces for one float. */
  type Bytes4 = s: seq<byte> | |s| == 4 witness [0, 0, 0, 0]

  /**
   * IEEE-754 single precision encoding is not modelled; every serialiser
   * takes the encoder as a parameter, so layouts and lengths are proved for
   * any encoder that yields four bytes.
   */
  type Float32Encoder = real -> Bytes4

  const Int32Min: int := -0x8000_0000
  const Int32Max: int := 0x7FFF_FFFF
  const HeaderSize: nat := 80

  // ---------------------------------------------------------------------------
  // struct.pack('<i', n)
  // ---------------------------------------------------------------------------

  /** Two's complement, least significant byte first. */
  function Int32LE(n: int): (r: seq<byte>)
    requires Int32Min <= n <= Int32Max
    ensures |r| == 4
    ensures n >= 0 ==> r[3] < 128
    ensures n < 0 ==> r[3] >= 128
  {
    var u := if n < 0 then n + 0x1_0000_0000 else n;
    var u1 := u / 256;
    var u2 := u1 / 256;
    [u % 256, u1 % 256, u2 % 256, u2 / 256]
  }

  /** Reads back what Int32LE writes (struct.unpack('<i', b)). */
  function DecodeInt32LE(b: seq<byte>): (n: int)
    requires |b| == 4
    ensures Int32Min <= n <= Int32Max
  {
    var u := b[0] as int + 256 * (b[1] as int + 256 * (b[2] as int + 256 * (b[3] as int)));
    if u >= 0x8000_0000 then u - 0x1_0000_0000 else u
  }

  lemma Int32LERoundTrip(n: int)
    requires Int32Min <= n <= Int32Max
    ensures DecodeInt32LE(Int32LE(n)) == n
  {
    var u := if n < 0 then n + 0x1_0000_0000 else n;
    var u1 := u / 256;
    var u2 := u1 / 256;
    assert u == u % 256 + 256 * u1;
    assert u1 == u1 % 256 + 256 * u2;
    assert u2 == u2 % 256 + 256 * (u2 / 256);
    assert u < 0x8000_0000 <==> n >= 0;
  }

  lemma Int32LEInjective(m: int, n: int)
    requires Int32Min <= m <= Int32Max && Int32Min <= n <= Int32Max
    requires Int32LE(m) == Int32LE(n)
    ensures m == n
  {
    Int32LERoundTrip(m);
    Int32LERoundTrip(n);
  }

  // ---------------------------------------------------------------------------
  // str.encode() (UTF-8) and struct.pack('80s', ...)
  // ---------------------------------------------------------------------------

  /** The UTF-8 encoding of one Unicode scalar value. */
  function Utf8Char(c: char): (r: seq<byte>)
    ensures 1 <= |r| <= 4
    ensures |r| == 1 <==> (c as int) < 0x80
    ensures |r| == 1 ==> r[0] == c as int
    ensures |r| > 1 ==> r[0] >= 0xC0 && forall i :: 1 <= i < |r| ==> 0x80 <= r[i] < 0xC0
  {
    var cp := c as int;
    if cp < 0x80 then [cp]
    else if cp < 0x800 then [0xC0 + cp / 0x40, 0x80 + cp % 0x40]
    else if cp < 0x1_0000 then [0xE0 + cp / 0x1000, 0x80 + (cp / 0x40) % 0x40, 0x80 + cp % 0x40]
    else [0xF0 + cp / 0x4_0000, 0x80 + (cp / 0x1000) % 0x40, 0x80 + (cp / 0x40) % 0x40, 0x80 + cp % 0x40]
  }

  /** Reads one encoded scalar value back: the partner of Utf8Char. */
  function DecodeUtf8Char(b: seq<byte>): int
    requires 1 <= |b| <= 4
  {
    var b0, b1, b2, b3 := b[0] as int, (if |b| > 1 then b[1] else 0) as int,
                          (if |b| > 2 then b[2] else 0) as int, (if |b| > 3 then b[3] else 0) as int;
    if |b| == 1 then b0
    else if |b| == 2 then (b0 - 0xC0) * 0x40 + (b1 - 0x80)
    else if |b| == 3 then (b0 - 0xE0) * 0x1000 + (b1 - 0x80) * 0x40 + (b2 - 0x80)
    else (b0 - 0xF0) * 0x4_0000 + (b1 - 0x80) * 0x1000 + (b2 - 0x80) * 0x40 + (b3 - 0x80)
  }

  lemma Utf8CharRoundTrip(c: char)
    ensures DecodeUtf8Char(Utf8Char(c)) == c as int
  {
    var cp := c as int;
    if cp < 0x80 {
    } else if cp < 0x800 {
      assert cp == (cp / 0x40) * 0x40 + cp % 0x40;
    } else if cp < 0x1_0000 {
      assert cp / 0x40 == (cp / 0x1000) * 0x40 + (cp / 0x40) % 0x40;
      assert cp == (cp / 0x40) * 0x40 + cp % 0x40;
    } else {
      assert cp / 0x1000 == (cp / 0x4_0000) * 0x40 + (cp / 0x1000) % 0x40;
      assert cp / 0x40 == (cp / 0x1000) * 0x40 + (cp / 0x40) % 0x40;
      assert cp == (cp / 0x40) * 0x40 + cp % 0x40;
    }
  }

  function Utf8(s: string): (r: seq<byte>)
    ensures |r| >= |s|
    ensures |r| <= 4 * |s|
  {
    if s == [] then [] else Utf8(s[..|s| - 1]) + Utf8Char(s[|s| - 1])
  }

  predicate IsAscii(s: string) {
    forall i :: 0 <= i < |s| ==> (s[i] as int) < 0x80
  }

  /** An ASCII string encodes to its own code points, one byte per character. */
  lemma {:induction false} Utf8Ascii(s: string)
    requires IsAscii(s)
    ensures |Utf8(s)| == |s|
    ensures forall i :: 0 <= i < |s| ==> Utf8(s)[i] == s[i] as int
  {
    if s != [] {
      Utf8Ascii(s[..|s| - 1]);
    }
  }

  /**
   * struct.pack('80s', name.encode()): the encoded name, cut to 80 bytes
   * when longer and padded with zero bytes when shorter.
   */
  function Header80(name: string): (h: seq<byte>)
    ensures |h| == HeaderSize
    ensures forall i :: 0 <= i < HeaderSize && i < |Utf8(name)| ==> h[i] == Utf8(name)[i]
    ensures forall i :: |Utf8(name)| <= i < HeaderSize ==> h[i] == 0
  {
    var e := Utf8(name);
    if |e| >= HeaderSize then e[..HeaderSize] else e + seq(HeaderSize - |e|, _ => 0)
  }

  /** For an ASCII name the header spells the name and then holds only zero bytes. */
  lemma AsciiHeader(name: string)
    requires IsAscii(name) && |name| <= HeaderSize
    ensures Header80(name)[..|name|] == Utf8(name)
    ensures forall i :: 0 <= i < |name| ==> Header80(name)[i] == name[i] as int
    ensures forall i :: |name| <= i < HeaderSize ==> Header80(name)[i] == 0
  {
    Utf8Ascii(name);
  }
}
