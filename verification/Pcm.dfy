/** 16-bit samples as bytes, and the plain 44-byte-header WAV files that hold them. */
module Pcm {
  import opened Common
  import opened Arithmetic
  import opened WavHeader

  type Int16 = x: int | -32768 <= x < 32768

  /** Sample i of a little-endian byte sequence. */
  function SampleAt(b: seq<Byte>, i: nat): Int16
    requires 2 * i + 2 <= |b|
  {
    var u := U16At(b, 2 * i);
    if u >= 32768 then u - 65536 else u
  }

  /** Whole samples only: an odd last byte is dropped. */
  function FromBytes(b: seq<Byte>): (s: seq<Int16>)
    ensures |s| == |b| / 2
  {
    seq(|b| / 2, i requires 0 <= i < |b| / 2 => SampleAt(b, i))
  }

  function ToBytes(s: seq<Int16>): (b: seq<Byte>)
    ensures |b| == 2 * |s|
  {
    seq(2 * |s|, i requires 0 <= i < 2 * |s| => if i % 2 == 0 then B0(s[i / 2]) else B1(s[i / 2]))
  }

  method BytesToInt16(b: seq<Byte>) returns (out: array<Int16>)
    ensures fresh(out) && out[..] == FromBytes(b)
  {
    var n := |b| / 2;
    out := new Int16[n](_ => 0);
    for i := 0 to n
      invariant forall j :: 0 <= j < i ==> out[j] == SampleAt(b, j)
    {
      out[i] := SampleAt(b, i);
    }
  }

  method Int16ToBytes(s: seq<Int16>) returns (out: array<Byte>)
    ensures fresh(out) && out[..] == ToBytes(s)
  {
    out := new Byte[2 * |s|](_ => 0);
    for i := 0 to |s|
      invariant forall j :: 0 <= j < 2 * i ==> out[j] == ToBytes(s)[j]
    {
      out[2 * i] := B0(s[i]);
      out[2 * i + 1] := B1(s[i]);
    }
  }

  /** Samples survive being written as bytes. */
  lemma SampleBack(s: seq<Int16>, i: nat)
    requires i < |s|
    ensures SampleAt(ToBytes(s), i) == s[i]
  {
    var b := ToBytes(s);
    assert b[2 * i] == B0(s[i]) && b[2 * i + 1] == B1(s[i]);
    BytesOf16(s[i]);
  }

  lemma SamplesRoundTrip(s: seq<Int16>)
    ensures FromBytes(ToBytes(s)) == s
  {
    forall i | 0 <= i < |s| ensures FromBytes(ToBytes(s))[i] == s[i] {
      SampleBack(s, i);
    }
  }

  lemma ByteBack(b: seq<Byte>, i: nat)
    requires 2 * i + 2 <= |b|
    ensures B0(SampleAt(b, i)) == b[2 * i] && B1(SampleAt(b, i)) == b[2 * i + 1]
  {
  }

  /** Bytes survive being read as samples exactly when there is an even number of them. */
  lemma BytesRoundTripExactly(b: seq<Byte>)
    ensures ToBytes(FromBytes(b)) == b <==> |b| % 2 == 0
  {
    if |b| % 2 == 0 {
      forall i | 0 <= i < |b| ensures ToBytes(FromBytes(b))[i] == b[i] {
        ByteBack(b, i / 2);
      }
    }
  }

  // ------------------------------------------------------------------- whole files

  datatype Decoded = Decoded(sampleRate: nat, channels: nat, samples: seq<Int16>) | NotDecoded

  /** Read a WAV file whose header is exactly 44 bytes; a zero size means "the rest of the file". */
  function DecodeWav(b: seq<Byte>): Decoded
  {
    if |b| < 44 || !IsRiff(b, 0) || !IsWave(b, 8) || !IsFmt(b, 12) || U16At(b, 34) != 16 then NotDecoded
    else
      var size := U32At(b, 40);
      if size == 0 then Decoded(U32At(b, 24), U16At(b, 22), FromBytes(b[44..]))
      else if 44 + size > |b| then NotDecoded
      else Decoded(U32At(b, 24), U16At(b, 22), FromBytes(b[44..44 + size]))
  }

  /** A file written with its true size decodes, up to the wrap of the size field. */
  lemma DecodeWritten(channels: int, sampleRate: int, data: seq<Byte>)
    ensures var d := DecodeWav(Header(channels, sampleRate, 16, |data|) + data);
            && d.Decoded? && d.sampleRate == sampleRate % TWO32 && d.channels == channels % TWO16
            && d.samples == FromBytes(if |data| % TWO32 == 0 then data else data[..|data| % TWO32])
  {
    var h := Header(channels, sampleRate, 16, |data|);
    HeaderDescribes(channels, sampleRate, 16, |data|, data);
    var size := |data| % TWO32;
    assert (h + data)[44..] == data;
    if size != 0 {
      SliceAfter(h, data, 0, size);
      assert data[0..size] == data[..size];
    }
  }

  /** All samples come back exactly when the byte count fits the size field or wraps to zero. */
  lemma DecodesAllExactly(channels: int, sampleRate: int, data: seq<Byte>)
    ensures var d := DecodeWav(Header(channels, sampleRate, 16, |data|) + data);
            d == Decoded(sampleRate % TWO32, channels % TWO16, FromBytes(data)) <==>
            |data| < TWO32 || |data| % TWO32 == 0
  {
    DecodeWritten(channels, sampleRate, data);
    PrefixIsAllExactly(data, |data| % TWO32);
  }

  /** The samples of the part that a size names are all of them exactly when nothing is cut off. */
  lemma PrefixIsAllExactly(data: seq<Byte>, size: nat)
    requires size == |data| % TWO32
    ensures FromBytes(if size == 0 then data else data[..size]) == FromBytes(data) <==> |data| < TWO32 || size == 0
  {
    var n := |data|;
    if n < TWO32 {
      assert size == n && data[..n] == data;
    } else if size != 0 {
      assert |FromBytes(data[..size])| == size / 2 < n / 2;
    }
  }

  /** WriteWAVFile followed by decodeWAV. */
  lemma FileRoundTrip(s: seq<Int16>, sampleRate: int, channels: int)
    requires 2 * |s| < TWO32
    ensures DecodeWav(Header(channels, sampleRate, 16, 2 * |s|) + ToBytes(s)) ==
            Decoded(sampleRate % TWO32, channels % TWO16, s)
  {
    DecodesAllExactly(channels, sampleRate, ToBytes(s));
    SamplesRoundTrip(s);
  }

  // ---------------------------------------------------------------------- playback

  datatype ReadResult = Got(samples: seq<Int16>) | Eof

  /** What has been delivered is the clip from its start, over and over. */
  ghost predicate Cycled(pcm: seq<Int16>, delivered: seq<Int16>, wraps: nat, pos: nat)
  {
    && pos <= |pcm|
    && |delivered| == wraps * |pcm| + pos
    && (pcm != [] ==> forall i :: 0 <= i < |delivered| ==> delivered[i] == Repeated(pcm, i))
  }

  /** The clip repeated without end. */
  function Repeated(pcm: seq<Int16>, i: nat): Int16
    requires pcm != []
  {
    pcm[i % |pcm|]
  }

  lemma RepeatedAt(pcm: seq<Int16>, wraps: nat, j: nat)
    requires j < |pcm|
    ensures Repeated(pcm, wraps * |pcm| + j) == pcm[j]
  {
    RemainderUnique(wraps * |pcm| + j, wraps, j, |pcm|);
  }

  lemma CycleWraps(pcm: seq<Int16>, delivered: seq<Int16>, wraps: nat)
    requires Cycled(pcm, delivered, wraps, |pcm|)
    ensures Cycled(pcm, delivered, wraps + 1, 0)
  {
    assert (wraps + 1) * |pcm| == wraps * |pcm| + |pcm|;
  }

  lemma CycleExtends(pcm: seq<Int16>, delivered: seq<Int16>, wraps: nat, pos: nat, end: nat)
    requires Cycled(pcm, delivered, wraps, pos) && pos <= end <= |pcm|
    ensures Cycled(pcm, delivered + pcm[pos..end], wraps, end)
  {
    var more := delivered + pcm[pos..end];
    forall i | |delivered| <= i < |more|
      ensures more[i] == Repeated(pcm, i)
    {
      RepeatedAt(pcm, wraps, pos + (i - |delivered|));
    }
  }

  /**
   A decoded clip read out piece by piece; `delivered` is everything handed out, over `wraps` returns
   to the start.
   */
  class AudioSource {
    const pcm: seq<Int16>
    var pos: nat
    var loop: bool
    ghost var delivered: seq<Int16>
    ghost var wraps: nat

    ghost predicate Valid()
      reads this
    {
      Cycled(pcm, delivered, wraps, pos)
    }

    constructor (pcm: seq<Int16>)
      ensures Valid() && delivered == [] && wraps == 0 && !loop && this.pcm == pcm
    {
      this.pcm, loop, pos, delivered, wraps := pcm, false, 0, [], 0;
    }

    method SetLoop(loop: bool)
      requires Valid()
      modifies `loop
      ensures Valid() && this.loop == loop
    {
      this.loop := loop;
    }

    /** Up to n further samples; the end is reported, and the start returned to, only once everything was delivered. */
    method ReadSamples(n: nat) returns (r: ReadResult)
      requires Valid()
      modifies `pos, `delivered, `wraps
      ensures Valid()
      ensures r.Eof? <==> !loop && old(pos) == |pcm|
      ensures wraps == old(wraps) + (if loop && old(pos) == |pcm| then 1 else 0)
      ensures delivered == old(delivered) + (if r.Got? then r.samples else [])
      ensures r.Got? ==> |r.samples| <= n && (|r.samples| < n ==> pos == |pcm|)
    {
      if pos >= |pcm| {
        if loop {
          CycleWraps(pcm, delivered, wraps);
          pos := 0;
          wraps := wraps + 1;
        } else {
          return Eof;
        }
      }
      var end := if pos + n > |pcm| then |pcm| else pos + n;
      var samples := pcm[pos..end];
      CycleExtends(pcm, delivered, wraps, pos, end);
      delivered := delivered + samples;
      pos := end;
      return Got(samples);
    }
  }
}
