/** Little-endian integers and the 44-byte PCM header that all WAV writers here share. */
module WavHeader {

  type Byte = x: int | 0 <= x < 256

  const TWO16 := 0x1_0000
  const TWO32 := 0x1_0000_0000

  /** The low byte of n shifted right by k bytes. */
  function B0(n: int): Byte { n % 256 }
  function B1(n: int): Byte { B0(n / 256) }
  function B2(n: int): Byte { B1(n / 256) }
  function B3(n: int): Byte { B2(n / 256) }

  function U16At(b: seq<Byte>, i: nat): (n: nat)
    requires i + 2 <= |b|
    ensures n < TWO16
  {
    b[i] as int + 256 * (b[i + 1] as int)
  }

  function U32At(b: seq<Byte>, i: nat): (n: nat)
    requires i + 4 <= |b|
    ensures n < TWO32
  {
    b[i] as int + 256 * (b[i + 1] as int) + 65536 * (b[i + 2] as int) + 16777216 * (b[i + 3] as int)
  }

  /** The four bytes at i spell these character codes. */
  predicate TagAt(b: seq<Byte>, i: nat, t0: Byte, t1: Byte, t2: Byte, t3: Byte)
    requires i + 4 <= |b|
  {
    b[i] == t0 && b[i + 1] == t1 && b[i + 2] == t2 && b[i + 3] == t3
  }

  predicate IsRiff(b: seq<Byte>, i: nat) requires i + 4 <= |b| { TagAt(b, i, 82, 73, 70, 70) }
  predicate IsWave(b: seq<Byte>, i: nat) requires i + 4 <= |b| { TagAt(b, i, 87, 65, 86, 69) }
  predicate IsFmt(b: seq<Byte>, i: nat) requires i + 4 <= |b| { TagAt(b, i, 102, 109, 116, 32) }
  predicate IsData(b: seq<Byte>, i: nat) requires i + 4 <= |b| { TagAt(b, i, 100, 97, 116, 97) }

  /** Splitting an integer into bytes keeps it modulo the width. */
  lemma BytesOf16(n: int)
    ensures B0(n) as int + 256 * (B1(n) as int) == n % TWO16
  {
    var q := n / 256;
    assert n == 256 * q + n % 256 && q == 256 * (q / 256) + q % 256;
  }

  lemma BytesOf32(n: int)
    ensures B0(n) as int + 256 * (B1(n) as int) + 65536 * (B2(n) as int) + 16777216 * (B3(n) as int) == n % TWO32
  {
    var q := n / 65536;
    assert n / 256 / 256 == q;
    BytesOf16(n);
    BytesOf16(q);
    assert n == 65536 * q + n % TWO16 && q == 65536 * (q / 65536) + q % TWO16;
  }

  /** Byte i of the header; every field wraps to its width. */
  function HeaderByte(channels: int, sampleRate: int, bits: int, dataSize: int, i: nat): Byte
    requires i < 44
  {
    var align := bits / 8 * channels;
    var rate := sampleRate * align;
    match i
    case 0 => 82 case 1 => 73 case 2 => 70 case 3 => 70
    case 4 => B0(36 + dataSize) case 5 => B1(36 + dataSize) case 6 => B2(36 + dataSize) case 7 => B3(36 + dataSize)
    case 8 => 87 case 9 => 65 case 10 => 86 case 11 => 69
    case 12 => 102 case 13 => 109 case 14 => 116 case 15 => 32
    case 16 => 16 case 17 => 0 case 18 => 0 case 19 => 0
    case 20 => 1 case 21 => 0 case 22 => B0(channels) case 23 => B1(channels)
    case 24 => B0(sampleRate) case 25 => B1(sampleRate) case 26 => B2(sampleRate) case 27 => B3(sampleRate)
    case 28 => B0(rate) case 29 => B1(rate) case 30 => B2(rate) case 31 => B3(rate)
    case 32 => B0(align) case 33 => B1(align) case 34 => B0(bits) case 35 => B1(bits)
    case 36 => 100 case 37 => 97 case 38 => 116 case 39 => 97
    case 40 => B0(dataSize) case 41 => B1(dataSize) case 42 => B2(dataSize) case _ => B3(dataSize)
  }

  /** The header for PCM data of this many bytes. */
  function Header(channels: int, sampleRate: int, bits: int, dataSize: int): (h: seq<Byte>)
    ensures |h| == 44
  {
    seq(44, i requires 0 <= i < 44 => HeaderByte(channels, sampleRate, bits, dataSize, i))
  }

  /** The bytes start with a PCM header whose fields read as given. */
  ghost predicate Describes(b: seq<Byte>, channels: nat, sampleRate: nat, align: nat, bits: nat, dataSize: nat)
  {
    && |b| >= 44
    && IsRiff(b, 0) && IsWave(b, 8) && IsFmt(b, 12) && IsData(b, 36)
    && U32At(b, 16) == 16 && U16At(b, 20) == 1
    && U16At(b, 22) == channels && U32At(b, 24) == sampleRate
    && U16At(b, 32) == align && U16At(b, 34) == bits
    && U32At(b, 40) == dataSize
  }

  /** The size of what follows the first eight bytes, and the bytes per second. */
  lemma HeaderGivesSizes(channels: int, sampleRate: int, bits: int, dataSize: int, body: seq<Byte>)
    ensures var b := Header(channels, sampleRate, bits, dataSize) + body;
            U32At(b, 4) == (36 + dataSize) % TWO32 && U32At(b, 28) == sampleRate * (bits / 8 * channels) % TWO32
  {
    BytesOf32(36 + dataSize);
    BytesOf32(sampleRate * (bits / 8 * channels));
  }

  /** Every field of the header reads back as what was written, modulo its width. */
  lemma HeaderDescribes(channels: int, sampleRate: int, bits: int, dataSize: int, body: seq<Byte>)
    ensures Describes(Header(channels, sampleRate, bits, dataSize) + body,
                      channels % TWO16, sampleRate % TWO32, bits / 8 * channels % TWO16, bits % TWO16, dataSize % TWO32)
  {
    BytesOf16(channels);
    BytesOf32(sampleRate);
    BytesOf16(bits / 8 * channels);
    BytesOf16(bits);
    BytesOf32(dataSize);
  }
}
