/**
 Reading and writing WAV files of 8, 16, 24 and 32-bit PCM.

 A file is a sequence of bytes. Samples are real numbers, so the only error of a round
 trip is quantisation. Where the original would panic, the outcome is `Panic`.
 */
module Wav {
  import opened Common
  import opened Arithmetic
  import opened WavHeader
  import LowPass

  datatype Audio = Audio(sampleRate: int, channels: nat, format: nat, samples: seq<seq<real>>)

  datatype Failure =
    | BadRiff | BadWave | Truncated | MissingFmt | MissingData | NotPcm | NoFrames

  datatype Outcome = Loaded(audio: Audio) | Rejected(why: Failure) | Panic

  predicate Supported(bits: int) { bits == 8 || bits == 16 || bits == 24 || bits == 32 }

  /** Half the number of codes at this depth: 2^(bits-1). */
  function FullScale(bits: int): int
    requires Supported(bits)
  {
    if bits == 8 then 128 else if bits == 16 then 32768 else if bits == 24 then 8388608 else 2147483648
  }

  function Clamp(v: real): real { if v > 1.0 then 1.0 else if v < -1.0 then -1.0 else v }

  // ------------------------------------------------------------------ single samples

  /** The signed code of a sample; 8-bit codes are shifted so that 128 is silence. */
  function Quantize(v: real, bits: int): (code: int)
    requires Supported(bits)
    ensures -FullScale(bits) < code < FullScale(bits)
  {
    var c := Clamp(v);
    if bits == 8 then LowPass.Truncate(c * 127.0 + 128.0) - 128
    else if bits == 16 then LowPass.Truncate(c * 32767.0)
    else if bits == 24 then LowPass.Truncate(c * 8388607.0)
    else LowPass.Truncate(c * 2147483647.0)
  }

  function CodeBytes(code: int, bits: int): (b: seq<Byte>)
    requires Supported(bits)
    ensures |b| == bits / 8
  {
    if bits == 8 then [B0(code + 128)]
    else if bits == 16 then [B0(code), B1(code)]
    else if bits == 24 then [B0(code), B1(code), B2(code)]
    else [B0(code), B1(code), B2(code), B3(code)]
  }

  /** The bytes floatToBytes leaves for a sample; an unknown depth writes nothing over the zeroed buffer. */
  function EncodeSample(v: real, bits: int): (b: seq<Byte>)
    requires bits >= 0
    ensures |b| == bits / 8
  {
    if Supported(bits) then CodeBytes(Quantize(v, bits), bits) else seq(bits / 8, _ => 0)
  }

  /** The signed code stored at position i. */
  function CodeAt(data: seq<Byte>, i: nat, bits: int): int
    requires Supported(bits) && i + bits / 8 <= |data|
  {
    if bits == 8 then data[i] as int - 128
    else
      var u := if bits == 16 then U16At(data, i)
               else if bits == 24 then data[i] as int + 256 * (data[i + 1] as int) + 65536 * (data[i + 2] as int)
               else U32At(data, i);
      if u >= FullScale(bits) then u - 2 * FullScale(bits) else u
  }

  function DecodeSample(data: seq<Byte>, i: nat, bits: int): real
    requires i + SampleBytes(bits) <= |data|
  {
    if bits == 8 then CodeAt(data, i, 8) as real / 128.0
    else if bits == 16 then CodeAt(data, i, 16) as real / 32768.0
    else if bits == 24 then CodeAt(data, i, 24) as real / 8388608.0
    else if bits == 32 then CodeAt(data, i, 32) as real / 2147483648.0
    else 0.0
  }

  /** How many bytes bytesToFloat looks at. */
  function SampleBytes(bits: int): nat { if Supported(bits) then bits / 8 else 0 }

  lemma Bytes24(n: int)
    ensures B0(n) as int + 256 * (B1(n) as int) + 65536 * (B2(n) as int) == n % 16777216
  {
    BytesOf16(n);
    var q := n / 65536;
    assert n / 256 / 256 == q;
    assert n == 65536 * q + n % TWO16 && q == 256 * (q / 256) + q % 256;
  }

  lemma Unwrap(code: int, full: int)
    requires full > 0 && -full <= code < full
    ensures code % (2 * full) == if code < 0 then code + 2 * full else code
  {
    if code < 0 {
      RemainderUnique(code, -1, code + 2 * full, 2 * full);
    } else {
      RemainderUnique(code, 0, code, 2 * full);
    }
  }

  lemma StoredAt16(code: int, data: seq<Byte>, i: nat)
    requires -32768 <= code < 32768 && i + 2 <= |data| && data[i] == B0(code) && data[i + 1] == B1(code)
    ensures CodeAt(data, i, 16) == code
  {
    BytesOf16(code);
    Unwrap(code, 32768);
  }

  lemma StoredAt24(code: int, data: seq<Byte>, i: nat)
    requires -8388608 <= code < 8388608 && i + 3 <= |data|
    requires data[i] == B0(code) && data[i + 1] == B1(code) && data[i + 2] == B2(code)
    ensures CodeAt(data, i, 24) == code
  {
    Bytes24(code);
    Unwrap(code, 8388608);
  }

  lemma StoredAt32(code: int, data: seq<Byte>, i: nat)
    requires -2147483648 <= code < 2147483648 && i + 4 <= |data|
    requires data[i] == B0(code) && data[i + 1] == B1(code) && data[i + 2] == B2(code) && data[i + 3] == B3(code)
    ensures CodeAt(data, i, 32) == code
  {
    BytesOf32(code);
    Unwrap(code, 2147483648);
  }

  /** A code in range survives being stored. */
  lemma CodeRoundTrip(code: int, bits: int, data: seq<Byte>, i: nat)
    requires Supported(bits) && -FullScale(bits) <= code < FullScale(bits)
    requires i + bits / 8 <= |data| && data[i..i + bits / 8] == CodeBytes(code, bits)
    ensures CodeAt(data, i, bits) == code
  {
    var stored := data[i..i + bits / 8];
    assert data[i] == stored[0];
    if bits >= 16 { assert data[i + 1] == stored[1]; }
    if bits >= 24 { assert data[i + 2] == stored[2]; }
    if bits == 16 { StoredAt16(code, data, i); }
    if bits == 24 { StoredAt24(code, data, i); }
    if bits == 32 {
      assert data[i + 3] == stored[3];
      StoredAt32(code, data, i);
    }
  }

  function Abs(x: real): real { if x < 0.0 then -x else x }

  lemma AbsIsDistance(x: real)
    ensures Abs(x) >= 0.0 && (Abs(x) == x || Abs(x) == -x)
  {
  }

  lemma Bound8(v: real)
    ensures Abs(Quantize(v, 8) as real / 128.0 - Clamp(v)) < 2.0 / 128.0
  {
  }

  lemma Bound16(v: real)
    ensures Abs(Quantize(v, 16) as real / 32768.0 - Clamp(v)) < 2.0 / 32768.0
  {
  }

  lemma Bound24(v: real)
    ensures Abs(Quantize(v, 24) as real / 8388608.0 - Clamp(v)) < 2.0 / 8388608.0
  {
  }

  lemma Bound32(v: real)
    ensures Abs(Quantize(v, 32) as real / 2147483648.0 - Clamp(v)) < 2.0 / 2147483648.0
  {
  }

  /** A stored sample is less than two steps away from the clamped original. */
  lemma QuantisationBound(v: real, bits: int, data: seq<Byte>, i: nat)
    requires Supported(bits) && i + bits / 8 <= |data| && data[i..i + bits / 8] == EncodeSample(v, bits)
    ensures Abs(DecodeSample(data, i, bits) - Clamp(v)) < 2.0 / (FullScale(bits) as real)
  {
    CodeRoundTrip(Quantize(v, bits), bits, data, i);
    if bits == 8 { Bound8(v); }
    if bits == 16 { Bound16(v); }
    if bits == 24 { Bound24(v); }
    if bits == 32 { Bound32(v); }
  }

  /** Load a stored code and save it again. */
  function Resave(code: int, bits: int): (again: int)
    requires Supported(bits)
  {
    Quantize(code as real / (FullScale(bits) as real), bits)
  }

  lemma Resave8(code: int)
    requires -128 <= code < 128
    ensures Resave(code, 8) == if code > 0 then code - 1 else if code == -128 then -127 else code
  {
    var c := code as real / 128.0;
    assert -1.0 <= c < 1.0 && c * 127.0 + 128.0 == (code + 128) as real - c;
  }

  /** Less than one step short of a code truncates to the next code towards silence. */
  lemma TruncateShort(code: int, c: real)
    requires (code > 0 ==> 0.0 < c < 1.0) && (code < 0 ==> -1.0 <= c < 0.0) && (code == 0 ==> c == 0.0)
    ensures LowPass.Truncate(code as real - c) == if code > 0 then code - 1 else if code < 0 then code + 1 else 0
  {
    if code > 0 {
      assert code as real - c >= 0.0;
    } else if code < 0 {
      assert code as real - c <= 0.0;
    }
  }

  lemma Resave16(code: int)
    requires -32768 <= code < 32768
    ensures Resave(code, 16) == if code > 0 then code - 1 else if code < 0 then code + 1 else 0
  {
    var c := code as real / 32768.0;
    assert -1.0 <= c < 1.0 && c * 32767.0 == code as real - c;
    TruncateShort(code, c);
  }

  lemma Resave24(code: int)
    requires -8388608 <= code < 8388608
    ensures Resave(code, 24) == if code > 0 then code - 1 else if code < 0 then code + 1 else 0
  {
    var c := code as real / 8388608.0;
    assert -1.0 <= c < 1.0 && c * 8388607.0 == code as real - c;
    TruncateShort(code, c);
  }

  lemma Resave32(code: int)
    requires -2147483648 <= code < 2147483648
    ensures Resave(code, 32) == if code > 0 then code - 1 else if code < 0 then code + 1 else 0
  {
    var c := code as real / 2147483648.0;
    assert -1.0 <= c < 1.0 && c * 2147483647.0 == code as real - c;
    TruncateShort(code, c);
  }

  function Generations(code: int, bits: int, k: nat): int
    requires Supported(bits)
    decreases k
  {
    if k == 0 then code else Generations(Resave(code, bits), bits, k - 1)
  }

  /**
   Loading and saving is not free: at 16, 24 and 32 bits every code that is not zero moves
   one step towards zero each time; after k generations it is k steps closer, or zero.
   */
  lemma {:induction false} GenerationsFade(code: int, bits: int, k: nat)
    requires (bits == 16 || bits == 24 || bits == 32) && -FullScale(bits) <= code < FullScale(bits)
    ensures Generations(code, bits, k) ==
            if code > k then code - k else if code + k < 0 then code + k else 0
    decreases k
  {
    if k > 0 {
      if bits == 16 { Resave16(code); }
      if bits == 24 { Resave24(code); }
      if bits == 32 { Resave32(code); }
      GenerationsFade(Resave(code, bits), bits, k - 1);
    }
  }

  /** At 8 bits only the positive half fades; the negative half stays, apart from its lowest code. */
  lemma {:induction false} GenerationsFade8(code: int, k: nat)
    requires -128 <= code < 128
    ensures Generations(code, 8, k) ==
            if code > k then code - k else if code > 0 then 0 else if code == -128 && k > 0 then -127 else code
    decreases k
  {
    if k > 0 {
      Resave8(code);
      GenerationsFade8(Resave(code, 8), k - 1);
    }
  }

  // ------------------------------------------------------------------------ writing

  function Bits(a: Audio): nat { if a.format == 0 then 16 else a.format }

  function Channels(a: Audio): nat { if a.channels == 0 then 1 else a.channels }

  function NumSamples(a: Audio): nat { if a.samples == [] then 0 else |a.samples[0]| }

  /** Every channel that will be written has a sample for every frame. */
  predicate Shaped(a: Audio)
  {
    NumSamples(a) > 0 ==>
      Channels(a) <= |a.samples| && forall ch :: 0 <= ch < Channels(a) ==> |a.samples[ch]| >= NumSamples(a)
  }

  function BlockAlign(a: Audio): nat { Bits(a) / 8 * Channels(a) }

  /** The encoded samples of frame i, one per channel. */
  function FrameCodes(a: Audio, i: nat): (codes: seq<seq<Byte>>)
    requires Shaped(a) && i < NumSamples(a)
    ensures |codes| == Channels(a) && AllOfLength(codes, Bits(a) / 8)
  {
    seq(Channels(a), ch requires 0 <= ch < Channels(a) => EncodeSample(a.samples[ch][i], Bits(a)))
  }

  function Frames(a: Audio): (frames: seq<seq<Byte>>)
    requires Shaped(a)
    ensures |frames| == NumSamples(a)
  {
    seq(NumSamples(a), i requires 0 <= i < NumSamples(a) => Flatten(FrameCodes(a, i)))
  }

  lemma FramesAreBlocks(a: Audio)
    requires Shaped(a)
    ensures AllOfLength(Frames(a), BlockAlign(a))
    ensures |Flatten(Frames(a))| == NumSamples(a) * BlockAlign(a)
  {
    forall i | 0 <= i < NumSamples(a) ensures |Frames(a)[i]| == BlockAlign(a) {
      FlattenLength(FrameCodes(a, i), Bits(a) / 8);
      assert Channels(a) * (Bits(a) / 8) == BlockAlign(a);
    }
    FlattenLength(Frames(a), BlockAlign(a));
  }

  function WavBytes(a: Audio): seq<Byte>
    requires Shaped(a)
  {
    Header(Channels(a), a.sampleRate, Bits(a), NumSamples(a) * BlockAlign(a)) + Flatten(Frames(a))
  }

  /** A missing depth is 16 bits and a missing channel count is one channel. */
  lemma MissingFieldsHaveDefaults(a: Audio)
    requires Shaped(a)
    ensures a.format == 0 ==> Shaped(a.(format := 16)) && WavBytes(a) == WavBytes(a.(format := 16))
    ensures a.channels == 0 ==> Shaped(a.(channels := 1)) && WavBytes(a) == WavBytes(a.(channels := 1))
  {
    if a.format == 0 {
      var b := a.(format := 16);
      assert forall i :: 0 <= i < NumSamples(a) ==> FrameCodes(a, i) == FrameCodes(b, i);
      assert Frames(a) == Frames(b);
    }
    if a.channels == 0 {
      var b := a.(channels := 1);
      assert forall i :: 0 <= i < NumSamples(a) ==> FrameCodes(a, i) == FrameCodes(b, i);
      assert Frames(a) == Frames(b);
    }
  }

  /** Audio without samples, or with enough channels as long as the first, can be written. */
  lemma RegularAudioIsShaped(a: Audio)
    requires a.samples != [] && a.samples[0] != [] ==>
               |a.samples| >= a.channels && forall ch :: 0 <= ch < |a.samples| ==> |a.samples[ch]| >= |a.samples[0]|
    ensures Shaped(a)
    ensures a.samples == [] ==> WavBytes(a) == Header(Channels(a), a.sampleRate, Bits(a), 0)
  {
    if a.samples == [] { assert Frames(a) == []; }
  }

  /** A channel that is missing or shorter than the first cannot. */
  lemma ShortChannelIsNotShaped(a: Audio, ch: nat)
    requires a.samples != [] && a.samples[0] != [] && ch < a.channels
    requires ch >= |a.samples| || |a.samples[ch]| < |a.samples[0]|
    ensures !Shaped(a)
  {
  }

  /** Writes the file; without a result, it panics on a channel that is missing or too short. */
  method WriteWav(a: Audio) returns (out: Option<seq<Byte>>)
    ensures out == if Shaped(a) then Some(WavBytes(a)) else None
  {
    if !Shaped(a) {
      return None;
    }
    var bytes := WriteShaped(a);
    return Some(bytes);
  }

  method WriteShaped(a: Audio) returns (out: seq<Byte>)
    requires Shaped(a)
    ensures out == WavBytes(a)
  {
    var bits, channels, numFrames := Bits(a), Channels(a), NumSamples(a);
    out := Header(channels, a.sampleRate, bits, numFrames * BlockAlign(a));
    ghost var head, frames := out, Frames(a);
    for i := 0 to numFrames
      invariant out == head + Flatten(frames[..i])
    {
      var buf := WriteFrame(a, i);
      out := out + buf;
      assert frames[..i + 1] == frames[..i] + [frames[i]];
      FlattenAppend(frames[..i], buf);
    }
    assert frames[..numFrames] == frames;
  }

  method WriteFrame(a: Audio, i: nat) returns (buf: seq<Byte>)
    requires Shaped(a) && i < NumSamples(a)
    ensures buf == Frames(a)[i]
  {
    buf := [];
    ghost var codes := FrameCodes(a, i);
    for ch := 0 to Channels(a)
      invariant buf == Flatten(codes[..ch])
    {
      buf := buf + EncodeSample(a.samples[ch][i], Bits(a));
      assert codes[..ch + 1] == codes[..ch] + [codes[ch]];
      FlattenAppend(codes[..ch], codes[ch]);
    }
    assert codes[..Channels(a)] == codes;
  }

  // ------------------------------------------------------------------------ reading

  datatype Fmt = Fmt(audioFormat: nat, channels: nat, sampleRate: nat, blockAlign: nat, bits: nat)

  /** A chunk shorter than 16 bytes gives no format. */
  function ParseFmt(b: seq<Byte>): Option<Fmt>
  {
    if |b| < 16 then None
    else Some(Fmt(U16At(b, 0), U16At(b, 2), U32At(b, 4), U16At(b, 12), U16At(b, 14)))
  }

  datatype Chunks = Parsed(fmt: Option<Fmt>, data: Option<seq<Byte>>) | Broken

  /**
   The chunk loop from position pos. It ends quietly where no whole chunk id is left;
   unknown chunks are skipped even past the end; a later fmt or data chunk replaces an
   earlier one, and a short fmt chunk erases it.
   */
  function ParseChunks(b: seq<Byte>, pos: nat, fmt: Option<Fmt>, data: Option<seq<Byte>>): Chunks
    decreases |b| - pos
  {
    if pos + 4 > |b| then Parsed(fmt, data)
    else if pos + 8 > |b| then Broken
    else
      var body, size := pos + 8, U32At(b, pos + 4);
      if IsFmt(b, pos) then
        if body + size > |b| then Broken else ParseChunks(b, body + size, ParseFmt(b[body..body + size]), data)
      else if IsData(b, pos) then
        if body + size > |b| then Broken else ParseChunks(b, body + size, fmt, Some(b[body..body + size]))
      else ParseChunks(b, body + size, fmt, data)
  }

  /** The block size in force: a zero field is replaced by the natural size. */
  function EffectiveAlign(f: Fmt): nat { if f.blockAlign == 0 then f.bits / 8 * f.channels else f.blockAlign }

  function Offset(f: Fmt, i: nat, ch: nat): nat { i * EffectiveAlign(f) + ch * (f.bits / 8) }

  ghost predicate InBounds(data: seq<Byte>, f: Fmt, n: nat)
  {
    forall i, ch :: 0 <= i < n && 0 <= ch < f.channels ==> Offset(f, i, ch) + SampleBytes(f.bits) <= |data|
  }

  function Samples(data: seq<Byte>, f: Fmt, n: nat): seq<seq<real>>
    requires InBounds(data, f, n)
  {
    seq(f.channels, ch requires 0 <= ch < f.channels =>
      seq(n, i requires 0 <= i < n => DecodeSample(data, Offset(f, i, ch), f.bits)))
  }

  ghost function Decoded(data: seq<Byte>, f: Fmt): Outcome
  {
    var align := EffectiveAlign(f);
    if align == 0 then Panic
    else
      var n := |data| / align;
      if n == 0 then Rejected(NoFrames)
      else if !InBounds(data, f, n) then Panic
      else Loaded(Audio(f.sampleRate, f.channels, f.bits, Samples(data, f, n)))
  }

  /** Fill the channel buffers frame by frame. */
  method DecodePcm(data: seq<Byte>, f: Fmt) returns (o: Outcome)
    ensures o == Decoded(data, f)
  {
    var align := EffectiveAlign(f);
    if align == 0 {
      return Panic;
    }
    var n := |data| / align;
    if n == 0 {
      return Rejected(NoFrames);
    }
    var grid := new real[f.channels, n];
    for i := 0 to n
      invariant forall j, ch :: 0 <= j < i && 0 <= ch < f.channels ==>
                  && Offset(f, j, ch) + SampleBytes(f.bits) <= |data|
                  && grid[ch, j] == DecodeSample(data, Offset(f, j, ch), f.bits)
    {
      for ch := 0 to f.channels
        invariant forall j, c :: 0 <= c < f.channels && (0 <= j < i || (j == i && c < ch)) ==>
                    && Offset(f, j, c) + SampleBytes(f.bits) <= |data|
                    && grid[c, j] == DecodeSample(data, Offset(f, j, c), f.bits)
      {
        var at := Offset(f, i, ch);
        if at + SampleBytes(f.bits) > |data| {
          return Panic;
        }
        grid[ch, i] := DecodeSample(data, at, f.bits);
      }
    }
    var samples := seq(f.channels, ch requires 0 <= ch < f.channels reads grid =>
      seq(n, i requires 0 <= i < n && 0 <= ch < f.channels reads grid => grid[ch, i]));
    forall ch | 0 <= ch < f.channels
      ensures samples[ch] == Samples(data, f, n)[ch]
    {
      forall i | 0 <= i < n ensures samples[ch][i] == Samples(data, f, n)[ch][i] {}
    }
    o := Loaded(Audio(f.sampleRate, f.channels, f.bits, samples));
  }

  /** The formats differ at most in how they say the block size. */
  predicate SameLayout(f: Fmt, g: Fmt)
  {
    && f.bits == g.bits && f.channels == g.channels && f.sampleRate == g.sampleRate
    && EffectiveAlign(f) == EffectiveAlign(g)
  }

  lemma SameOffset(f: Fmt, g: Fmt, i: nat, ch: nat)
    requires SameLayout(f, g)
    ensures Offset(f, i, ch) == Offset(g, i, ch)
  {
  }

  lemma SameBounds(data: seq<Byte>, f: Fmt, g: Fmt, n: nat)
    requires SameLayout(f, g) && InBounds(data, f, n)
    ensures InBounds(data, g, n)
  {
    forall i, ch | 0 <= i < n && 0 <= ch < g.channels ensures Offset(g, i, ch) + SampleBytes(g.bits) <= |data| {
      SameOffset(f, g, i, ch);
    }
  }

  lemma SameSamples(data: seq<Byte>, f: Fmt, g: Fmt, n: nat)
    requires SameLayout(f, g) && InBounds(data, f, n) && InBounds(data, g, n)
    ensures Samples(data, f, n) == Samples(data, g, n)
  {
    forall ch | 0 <= ch < f.channels ensures Samples(data, f, n)[ch] == Samples(data, g, n)[ch] {
      forall i | 0 <= i < n ensures Samples(data, f, n)[ch][i] == Samples(data, g, n)[ch][i] {
        SameOffset(f, g, i, ch);
      }
    }
  }

  lemma SameDecoded(data: seq<Byte>, f: Fmt, g: Fmt)
    requires SameLayout(f, g)
    ensures Decoded(data, f) == Decoded(data, g)
  {
    var align := EffectiveAlign(f);
    if align > 0 {
      var n := |data| / align;
      if InBounds(data, f, n) {
        SameBounds(data, f, g, n);
        SameSamples(data, f, g, n);
      } else if InBounds(data, g, n) {
        SameBounds(data, g, f, n);
      }
    }
  }

  /** A block size of 0 stands for the natural one. */
  lemma NoBlockSizeIsNatural(data: seq<Byte>, f: Fmt)
    ensures Decoded(data, f.(blockAlign := 0)) == Decoded(data, f.(blockAlign := f.bits / 8 * f.channels))
  {
    SameDecoded(data, f.(blockAlign := 0), f.(blockAlign := f.bits / 8 * f.channels));
  }

  /** A depth that the code does not know is written and read as silence. */
  lemma UnknownDepthIsSilent(v: real, bits: nat, data: seq<Byte>, i: nat)
    requires !Supported(bits) && i <= |data|
    ensures forall k :: 0 <= k < bits / 8 ==> EncodeSample(v, bits)[k] == 0
    ensures i + SampleBytes(bits) <= |data| && DecodeSample(data, i, bits) == 0.0
  {
  }

  /** What becomes of the parsed chunks. */
  ghost function FromChunks(c: Chunks): Outcome
  {
    if c.Broken? then Rejected(Truncated)
    else if c.fmt.None? then Rejected(MissingFmt)
    else if c.data.None? then Rejected(MissingData)
    else if c.fmt.value.audioFormat != 1 then Rejected(NotPcm)
    else Decoded(c.data.value, c.fmt.value)
  }

  ghost function ReadSpec(b: seq<Byte>): Outcome
  {
    if |b| < 4 then Rejected(Truncated)
    else if !IsRiff(b, 0) then Rejected(BadRiff)
    else if |b| < 12 then Rejected(Truncated)
    else if !IsWave(b, 8) then Rejected(BadWave)
    else FromChunks(ParseChunks(b, 12, None, None))
  }

  method ReadWav(b: seq<Byte>) returns (o: Outcome)
    ensures o == ReadSpec(b)
  {
    if |b| < 4 { return Rejected(Truncated); }
    if !IsRiff(b, 0) { return Rejected(BadRiff); }
    if |b| < 12 { return Rejected(Truncated); }
    if !IsWave(b, 8) { return Rejected(BadWave); }
    var pos: nat := 12;
    var fmt: Option<Fmt>, data: Option<seq<Byte>> := None, None;
    while pos + 4 <= |b|
      invariant ParseChunks(b, 12, None, None) == ParseChunks(b, pos, fmt, data)
      decreases |b| - pos
    {
      if pos + 8 > |b| { return Rejected(Truncated); }
      var body, size := pos + 8, U32At(b, pos + 4);
      if IsFmt(b, pos) {
        if body + size > |b| { return Rejected(Truncated); }
        fmt := ParseFmt(b[body..body + size]);
      } else if IsData(b, pos) {
        if body + size > |b| { return Rejected(Truncated); }
        data := Some(b[body..body + size]);
      }
      pos := body + size;
    }
    if fmt.None? { return Rejected(MissingFmt); }
    if data.None? { return Rejected(MissingData); }
    if fmt.value.audioFormat != 1 { return Rejected(NotPcm); }
    o := DecodePcm(data.value, fmt.value);
  }

  // ------------------------------------------------------------------ chunk by chunk

  /** Parsing depends only on what lies ahead. */
  lemma {:induction false} ParseShift(x: seq<Byte>, b: seq<Byte>, pos: nat, fmt: Option<Fmt>, data: Option<seq<Byte>>)
    ensures ParseChunks(x + b, |x| + pos, fmt, data) == ParseChunks(b, pos, fmt, data)
    decreases |b| - pos
  {
    if pos + 8 <= |b| {
      var body, size := pos + 8, U32At(b, pos + 4);
      var end, fits := body + size, body + size <= |b|;
      SameAt(x, b, pos);
      SameAt(x, b, pos + 4);
      if fits { SliceAfter(x, b, body, end); }
      if IsFmt(b, pos) {
        if fits { ParseShift(x, b, end, ParseFmt(b[body..end]), data); }
      } else if IsData(b, pos) {
        if fits { ParseShift(x, b, end, fmt, Some(b[body..end])); }
      } else {
        ParseShift(x, b, end, fmt, data);
        assert ParseChunks(x + b, |x| + pos, fmt, data) == ParseChunks(x + b, |x| + end, fmt, data);
      }
    }
  }

  lemma SameAt(x: seq<Byte>, b: seq<Byte>, i: nat)
    requires i + 4 <= |b|
    ensures U32At(x + b, |x| + i) == U32At(b, i)
    ensures IsFmt(x + b, |x| + i) == IsFmt(b, i) && IsData(x + b, |x| + i) == IsData(b, i)
  {
    assert (x + b)[|x| + i] == b[i] && (x + b)[|x| + i + 1] == b[i + 1];
    assert (x + b)[|x| + i + 2] == b[i + 2] && (x + b)[|x| + i + 3] == b[i + 3];
  }

  datatype Chunk = Chunk(tag: seq<Byte>, body: seq<Byte>)

  predicate Whole(c: Chunk) { |c.tag| == 4 && |c.body| < TWO32 }

  ghost predicate AllWhole(chunks: seq<Chunk>) { forall k :: 0 <= k < |chunks| ==> Whole(chunks[k]) }

  function ChunkBytes(c: Chunk): seq<Byte>
  {
    c.tag + [B0(|c.body|), B1(|c.body|), B2(|c.body|), B3(|c.body|)] + c.body
  }

  function AllChunkBytes(chunks: seq<Chunk>): seq<Byte>
  {
    if chunks == [] then [] else AllChunkBytes(chunks[..|chunks| - 1]) + ChunkBytes(chunks[|chunks| - 1])
  }

  lemma ChunkHead(c: Chunk, rest: seq<Byte>)
    requires Whole(c)
    ensures var b := ChunkBytes(c) + rest;
            && |b| == 8 + |c.body| + |rest| && IsFmt(b, 0) == IsFmt(c.tag, 0) && IsData(b, 0) == IsData(c.tag, 0)
            && U32At(b, 4) == |c.body| && b[8..8 + |c.body|] == c.body
  {
    var b := ChunkBytes(c) + rest;
    assert b[0] == c.tag[0] && b[1] == c.tag[1] && b[2] == c.tag[2] && b[3] == c.tag[3];
    assert b[4] == B0(|c.body|) && b[5] == B1(|c.body|) && b[6] == B2(|c.body|) && b[7] == B3(|c.body|);
    BytesOf32(|c.body|);
  }

  function FmtAfter(c: Chunk, fmt: Option<Fmt>): Option<Fmt>
    requires Whole(c)
  {
    if IsFmt(c.tag, 0) then ParseFmt(c.body) else fmt
  }

  function DataAfter(c: Chunk, data: Option<seq<Byte>>): Option<seq<Byte>>
    requires Whole(c)
  {
    if IsData(c.tag, 0) then Some(c.body) else data
  }

  lemma ParseOne(c: Chunk, rest: seq<Byte>, fmt: Option<Fmt>, data: Option<seq<Byte>>)
    requires Whole(c)
    ensures ParseChunks(ChunkBytes(c) + rest, 0, fmt, data)
         == ParseChunks(rest, 0, FmtAfter(c, fmt), DataAfter(c, data))
  {
    ChunkHead(c, rest);
    ParseShift(ChunkBytes(c), rest, 0, FmtAfter(c, fmt), DataAfter(c, data));
  }

  /** The format of the last fmt chunk. */
  ghost function LastFmt(chunks: seq<Chunk>): Option<Fmt>
    requires AllWhole(chunks)
  {
    if chunks == [] then None
    else
      var c := chunks[|chunks| - 1];
      if IsFmt(c.tag, 0) then ParseFmt(c.body) else LastFmt(chunks[..|chunks| - 1])
  }

  /** The body of the last data chunk. */
  ghost function LastData(chunks: seq<Chunk>): Option<seq<Byte>>
    requires AllWhole(chunks)
  {
    if chunks == [] then None
    else
      var c := chunks[|chunks| - 1];
      if IsData(c.tag, 0) then Some(c.body) else LastData(chunks[..|chunks| - 1])
  }

  lemma {:induction false} ParseMany(chunks: seq<Chunk>, rest: seq<Byte>)
    requires AllWhole(chunks)
    ensures ParseChunks(AllChunkBytes(chunks) + rest, 0, None, None)
         == ParseChunks(rest, 0, LastFmt(chunks), LastData(chunks))
  {
    if chunks == [] {
      assert AllChunkBytes(chunks) + rest == rest;
    } else {
      var n := |chunks| - 1;
      ParseMany(chunks[..n], ChunkBytes(chunks[n]) + rest);
      ParseOne(chunks[n], rest, LastFmt(chunks[..n]), LastData(chunks[..n]));
      assert AllChunkBytes(chunks) + rest == AllChunkBytes(chunks[..n]) + (ChunkBytes(chunks[n]) + rest);
    }
  }

  /**
   A file of whole chunks is read from its last fmt and its last data chunk, wherever the others
   stand and whatever they are. Up to three bytes after them do not matter; four to seven make
   the file truncated.
   */
  lemma ReadFromLastChunks(head: seq<Byte>, chunks: seq<Chunk>, rest: seq<Byte>)
    requires |head| == 12 && IsRiff(head, 0) && IsWave(head, 8) && AllWhole(chunks) && |rest| < 8
    ensures var o, fmt, data := ReadSpec(head + (AllChunkBytes(chunks) + rest)), LastFmt(chunks), LastData(chunks);
            && (|rest| >= 4 ==> o == Rejected(Truncated))
            && (|rest| < 4 && fmt.None? ==> o == Rejected(MissingFmt))
            && (|rest| < 4 && fmt.Some? && data.None? ==> o == Rejected(MissingData))
            && (|rest| < 4 && fmt.Some? && data.Some? && fmt.value.audioFormat != 1 ==> o == Rejected(NotPcm))
            && (|rest| < 4 && fmt.Some? && data.Some? && fmt.value.audioFormat == 1 ==>
                  o == Decoded(data.value, fmt.value))
  {
    ReadAfterHead(head, AllChunkBytes(chunks) + rest);
    ParseMany(chunks, rest);
  }

  /** Chunks that the reader has no use for, such as LIST. */
  ghost predicate AllUnknown(chunks: seq<Chunk>)
  {
    AllWhole(chunks) && forall k :: 0 <= k < |chunks| ==> !IsFmt(chunks[k].tag, 0) && !IsData(chunks[k].tag, 0)
  }

  lemma {:induction false} LastWithoutUnknown(before: seq<Chunk>, unknown: seq<Chunk>, after: seq<Chunk>)
    requires AllWhole(before) && AllUnknown(unknown) && AllWhole(after)
    ensures LastFmt(before + unknown + after) == LastFmt(before + after)
    ensures LastData(before + unknown + after) == LastData(before + after)
    decreases |after|, |unknown|
  {
    var all := before + unknown + after;
    if after != [] {
      var n := |after| - 1;
      LastWithoutUnknown(before, unknown, after[..n]);
      assert all[..|all| - 1] == before + unknown + after[..n];
      assert (before + after)[..|before| + n] == before + after[..n];
    } else if unknown != [] {
      var n := |unknown| - 1;
      LastWithoutUnknown(before, unknown[..n], after);
      assert all[..|all| - 1] == before + unknown[..n] + after;
      assert all[|all| - 1] == unknown[n];
    } else {
      assert all == before + after;
    }
  }

  /** Unknown chunks anywhere between the others change nothing about how a file is read, whatever follows. */
  lemma UnknownChunksIgnored(head: seq<Byte>, before: seq<Chunk>, unknown: seq<Chunk>, after: seq<Chunk>,
                             rest: seq<Byte>)
    requires |head| == 12 && AllWhole(before) && AllUnknown(unknown) && AllWhole(after)
    ensures ReadSpec(head + (AllChunkBytes(before + unknown + after) + rest))
         == ReadSpec(head + (AllChunkBytes(before + after) + rest))
  {
    ReadAfterHead(head, AllChunkBytes(before + unknown + after) + rest);
    ReadAfterHead(head, AllChunkBytes(before + after) + rest);
    ParseMany(before + unknown + after, rest);
    ParseMany(before + after, rest);
    LastWithoutUnknown(before, unknown, after);
  }

  /** A file too short for its head is truncated, unless its first four bytes are already wrong. */
  lemma ShortFileRejected(b: seq<Byte>)
    requires |b| < 12
    ensures ReadSpec(b) == Rejected(if |b| >= 4 && !IsRiff(b, 0) then BadRiff else Truncated)
  {
  }

  lemma ReadAfterHead(head: seq<Byte>, rest: seq<Byte>)
    requires |head| == 12
    ensures ReadSpec(head + rest) ==
            if !IsRiff(head, 0) then Rejected(BadRiff)
            else if !IsWave(head, 8) then Rejected(BadWave)
            else FromChunks(ParseChunks(rest, 0, None, None))
  {
    ParseShift(head, rest, 0, None, None);
  }

  // --------------------------------------------------------------------- round trip

  /** The sizes that the header fields can hold. */
  predicate Fits(a: Audio)
  {
    && Shaped(a) && Supported(Bits(a)) && NumSamples(a) > 0
    && 0 <= a.sampleRate < TWO32 && BlockAlign(a) < TWO16
    && 36 + NumSamples(a) * BlockAlign(a) < TWO32
  }

  function OwnFmt(a: Audio): Fmt
    requires a.sampleRate >= 0
  {
    Fmt(1, Channels(a), a.sampleRate, BlockAlign(a), Bits(a))
  }

  lemma ParseFmtAt(b: seq<Byte>, i: nat)
    requires i + 16 <= |b|
    ensures ParseFmt(b[i..i + 16]) ==
            Some(Fmt(U16At(b, i), U16At(b, i + 2), U32At(b, i + 4), U16At(b, i + 12), U16At(b, i + 14)))
  {
  }

  /** A file of one fmt chunk and one data chunk parses into them. */
  lemma TwoChunks(b: seq<Byte>, channels: nat, sampleRate: nat, align: nat, bits: nat, d: seq<Byte>)
    requires Describes(b, channels, sampleRate, align, bits, |d|) && |b| == 44 + |d| && b[44..44 + |d|] == d
    ensures ParseChunks(b, 12, None, None) == Parsed(Some(Fmt(1, channels, sampleRate, align, bits)), Some(d))
  {
    var f := Some(Fmt(1, channels, sampleRate, align, bits));
    ParseFmtAt(b, 20);
    assert ParseChunks(b, 44 + |d|, f, Some(d)) == Parsed(f, Some(d));
    assert ParseChunks(b, 36, f, None) == ParseChunks(b, 44 + |d|, f, Some(d));
  }

  lemma HeaderParses(channels: nat, sampleRate: nat, bits: nat, d: seq<Byte>)
    requires channels < TWO16 && sampleRate < TWO32 && bits < TWO16 && 0 <= bits / 8 * channels < TWO16 && |d| < TWO32
    ensures var b := Header(channels, sampleRate, bits, |d|) + d;
            && IsRiff(b, 0) && IsWave(b, 8)
            && ParseChunks(b, 12, None, None)
               == Parsed(Some(Fmt(1, channels, sampleRate, bits / 8 * channels, bits)), Some(d))
  {
    var h, align := Header(channels, sampleRate, bits, |d|), bits / 8 * channels;
    HeaderDescribes(channels, sampleRate, bits, |d|, d);
    FieldsUnwrapped(h + d, channels, sampleRate, align, bits, |d|);
    SliceAfter(h, d, 0, |d|);
    assert d[0..|d|] == d;
    TwoChunks(h + d, channels, sampleRate, align, bits, d);
  }

  lemma FieldsUnwrapped(b: seq<Byte>, channels: nat, sampleRate: nat, align: nat, bits: nat, size: nat)
    requires Describes(b, channels % TWO16, sampleRate % TWO32, align % TWO16, bits % TWO16, size % TWO32)
    requires channels < TWO16 && sampleRate < TWO32 && align < TWO16 && bits < TWO16 && size < TWO32
    ensures Describes(b, channels, sampleRate, align, bits, size)
  {
  }

  /** What was written parses back into its format and data chunks. */
  lemma OwnChunks(a: Audio)
    requires Fits(a)
    ensures ParseChunks(WavBytes(a), 12, None, None) == Parsed(Some(OwnFmt(a)), Some(Flatten(Frames(a))))
    ensures |WavBytes(a)| >= 44 && IsRiff(WavBytes(a), 0) && IsWave(WavBytes(a), 8)
  {
    var d := Flatten(Frames(a));
    FramesAreBlocks(a);
    ChannelsFit(Bits(a) / 8, Channels(a));
    HeaderParses(Channels(a), a.sampleRate, Bits(a), d);
  }

  lemma ChannelsFit(w: nat, channels: nat)
    requires w > 0
    ensures channels <= w * channels
  {
    assert w * channels == channels + (w - 1) * channels;
    assert (w - 1) * channels >= 0;
  }

  lemma OwnOffsets(a: Audio, i: nat, ch: nat)
    requires Fits(a) && i < NumSamples(a) && ch < Channels(a)
    ensures var at, w, d := Offset(OwnFmt(a), i, ch), Bits(a) / 8, Flatten(Frames(a));
            at + w <= |d| && d[at..at + w] == EncodeSample(a.samples[ch][i], Bits(a))
  {
    FramesAreBlocks(a);
    NestedBlockAt(Frames(a), BlockAlign(a), i, FrameCodes(a, i), Bits(a) / 8, ch);
    OwnOffset(a, i, ch);
  }

  lemma OwnOffset(a: Audio, i: nat, ch: nat)
    requires Fits(a)
    ensures Offset(OwnFmt(a), i, ch) == i * BlockAlign(a) + ch * (Bits(a) / 8)
  {
    assert EffectiveAlign(OwnFmt(a)) == BlockAlign(a);
  }

  /** Within two quantisation steps of the clamped original. */
  ghost predicate Near(read: real, written: real, bits: int)
    requires Supported(bits)
  {
    Abs(read - Clamp(written)) < 2.0 / (FullScale(bits) as real)
  }

  lemma OwnSample(a: Audio, i: nat, ch: nat)
    requires Fits(a) && i < NumSamples(a) && ch < Channels(a)
    ensures var at, bits, d := Offset(OwnFmt(a), i, ch), Bits(a), Flatten(Frames(a));
            && at + SampleBytes(bits) <= |d|
            && Near(DecodeSample(d, at, bits), a.samples[ch][i], bits)
  {
    OwnOffsets(a, i, ch);
    QuantisationBound(a.samples[ch][i], Bits(a), Flatten(Frames(a)), Offset(OwnFmt(a), i, ch));
  }

  /** The written data decodes into all of its frames. */
  lemma OwnFrames(a: Audio)
    requires Fits(a)
    ensures var d, f, n := Flatten(Frames(a)), OwnFmt(a), NumSamples(a);
            InBounds(d, f, n) && Decoded(d, f) == Loaded(Audio(f.sampleRate, f.channels, f.bits, Samples(d, f, n)))
  {
    var d, f, n := Flatten(Frames(a)), OwnFmt(a), NumSamples(a);
    FramesAreBlocks(a);
    FrameTotal(n, BlockAlign(a));
    forall i, ch | 0 <= i < n && 0 <= ch < f.channels
      ensures Offset(f, i, ch) + SampleBytes(f.bits) <= |d|
    {
      OwnSample(a, i, ch);
    }
  }

  lemma OwnRead(a: Audio)
    requires Fits(a)
    ensures var o, d, f, n := ReadSpec(WavBytes(a)), Flatten(Frames(a)), OwnFmt(a), NumSamples(a);
            InBounds(d, f, n) && o == Loaded(Audio(a.sampleRate, Channels(a), Bits(a), Samples(d, f, n)))
  {
    OwnChunks(a);
    OwnFrames(a);
  }

  /**
   Reading back what was written gives the same rate, channel count, depth and frame
   count, and every sample within two quantisation steps of the clamped original.
   */
  lemma RoundTrip(a: Audio)
    requires Fits(a)
    ensures var o := ReadSpec(WavBytes(a));
            && o.Loaded?
            && o.audio.sampleRate == a.sampleRate && o.audio.channels == Channels(a) && o.audio.format == Bits(a)
            && |o.audio.samples| == Channels(a)
            && (forall ch :: 0 <= ch < Channels(a) ==> |o.audio.samples[ch]| == NumSamples(a))
            && (forall ch, i :: 0 <= ch < Channels(a) && 0 <= i < NumSamples(a) ==>
                  Near(o.audio.samples[ch][i], a.samples[ch][i], Bits(a)))
  {
    OwnRead(a);
    forall ch, i | 0 <= ch < Channels(a) && 0 <= i < NumSamples(a)
      ensures Near(ReadSpec(WavBytes(a)).audio.samples[ch][i], a.samples[ch][i], Bits(a))
    {
      OwnSample(a, i, ch);
    }
  }

  lemma FrameTotal(n: nat, align: nat)
    requires align > 0
    ensures n * align / align == n
  {
    AddMultiple(0, n, align);
    assert n * align == (n * align / align) * align + n * align % align;
    assert (n - n * align / align) * align == 0;
    SmallMultiple(n - n * align / align, align);
  }
}
