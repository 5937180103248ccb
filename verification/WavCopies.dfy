/** A WAV file that is loaded and saved again and again. */
module WavCopies {
  import opened Common
  import opened Wav
  import opened WavHeader

  /** The code a sample is stored with. */
  function Code(a: Audio, i: nat, ch: nat): int
    requires Fits(a) && i < NumSamples(a) && ch < Channels(a)
  {
    Quantize(a.samples[ch][i], Bits(a))
  }

  /** Every sample as its code gives it back. */
  function Requantized(a: Audio, i: nat, ch: nat): real
    requires Fits(a) && i < NumSamples(a) && ch < Channels(a)
  {
    Code(a, i, ch) as real / (FullScale(Bits(a)) as real)
  }

  /** The audio read back from a file of this audio. */
  function Reloaded(a: Audio): (r: Audio)
    requires Fits(a)
    ensures |r.samples| == Channels(a) && forall ch :: 0 <= ch < Channels(a) ==> |r.samples[ch]| == NumSamples(a)
    ensures Bits(r) == Bits(a) && Channels(r) == Channels(a) && NumSamples(r) == NumSamples(a) && Fits(r)
  {
    Audio(a.sampleRate, Channels(a), Bits(a),
          seq(Channels(a), ch requires 0 <= ch < Channels(a) =>
            seq(NumSamples(a), i requires 0 <= i < NumSamples(a) => Requantized(a, i, ch))))
  }

  lemma ReloadedSample(a: Audio, i: nat, ch: nat)
    requires Fits(a) && i < NumSamples(a) && ch < Channels(a)
    ensures var at, d := Offset(OwnFmt(a), i, ch), Flatten(Frames(a));
            at + SampleBytes(Bits(a)) <= |d| && DecodeSample(d, at, Bits(a)) == Requantized(a, i, ch)
  {
    OwnOffsets(a, i, ch);
    StoredSample(a.samples[ch][i], Bits(a), Flatten(Frames(a)), Offset(OwnFmt(a), i, ch));
  }

  lemma StoredSample(v: real, bits: int, data: seq<Byte>, at: nat)
    requires Supported(bits) && at + bits / 8 <= |data| && data[at..at + bits / 8] == EncodeSample(v, bits)
    ensures DecodeSample(data, at, bits) == Quantize(v, bits) as real / (FullScale(bits) as real)
  {
    CodeRoundTrip(Quantize(v, bits), bits, data, at);
  }

  /** Reading a written file gives exactly this. */
  lemma ReadsReloaded(a: Audio)
    requires Fits(a)
    ensures ReadSpec(WavBytes(a)) == Loaded(Reloaded(a))
  {
    OwnRead(a);
    var d, f, n := Flatten(Frames(a)), OwnFmt(a), NumSamples(a);
    var got, want := Samples(d, f, n), Reloaded(a).samples;
    forall ch | 0 <= ch < Channels(a)
      ensures got[ch] == want[ch]
    {
      forall i | 0 <= i < n ensures got[ch][i] == want[ch][i] {
        ReloadedSample(a, i, ch);
      }
    }
    assert got == want;
  }

  /** What is left of the audio after k times saving and loading it. */
  function Copies(a: Audio, k: nat): (r: Audio)
    requires Fits(a)
    ensures Fits(r) && Bits(r) == Bits(a) && Channels(r) == Channels(a) && NumSamples(r) == NumSamples(a)
    decreases k
  {
    if k == 0 then a else Copies(Reloaded(a), k - 1)
  }

  lemma CodeOfReloaded(a: Audio, i: nat, ch: nat)
    requires Fits(a) && i < NumSamples(a) && ch < Channels(a)
    ensures Code(Reloaded(a), i, ch) == Resave(Code(a, i, ch), Bits(a))
  {
  }

  /** Each copy of a file stores what saving the loaded codes again gives. */
  lemma {:induction false} CopiesAreGenerations(a: Audio, k: nat, i: nat, ch: nat)
    requires Fits(a) && i < NumSamples(a) && ch < Channels(a)
    ensures Code(Copies(a, k), i, ch) == Generations(Code(a, i, ch), Bits(a), k)
    decreases k
  {
    if k > 0 {
      CodeOfReloaded(a, i, ch);
      CopiesAreGenerations(Reloaded(a), k - 1, i, ch);
    }
  }

  /**
   After k copies at 16, 24 or 32 bits every stored sample is k steps closer to silence, or
   silent; at 8 bits only the positive ones are, and the lowest code moves once.
   */
  lemma CopiesFade(a: Audio, k: nat, i: nat, ch: nat)
    requires Fits(a) && i < NumSamples(a) && ch < Channels(a)
    ensures var code, copy := Code(a, i, ch), Code(Copies(a, k), i, ch);
            && (Bits(a) != 8 ==> copy == if code > k then code - k else if code + k < 0 then code + k else 0)
            && (Bits(a) == 8 ==> copy == if code > k then code - k else if code > 0 then 0 else code)
  {
    CopiesAreGenerations(a, k, i, ch);
    if Bits(a) == 8 {
      GenerationsFade8(Code(a, i, ch), k);
    } else {
      GenerationsFade(Code(a, i, ch), Bits(a), k);
    }
  }

  /** A stored sample survives a copy exactly when it is silent, or not positive at 8 bits. */
  lemma CopyIsFaithfulExactly(a: Audio, i: nat, ch: nat)
    requires Fits(a) && i < NumSamples(a) && ch < Channels(a)
    ensures Code(Copies(a, 1), i, ch) == Code(a, i, ch) <==>
            if Bits(a) == 8 then Code(a, i, ch) <= 0 else Code(a, i, ch) == 0
  {
    CopiesFade(a, 1, i, ch);
  }
}
