/**
 The resampler's anti-aliasing FIR.

 It keeps the last samples between calls so that a stream cut into chunks is filtered
 as if it had come in one piece. The reference is a filter over the whole stream.
 */
module LowPass {
  import opened Common
  import Arithmetic

  /** Go's float-to-integer conversion, which drops the fraction. */
  function Truncate(x: real): (n: int)
    ensures x >= 0.0 ==> n as real <= x < (n + 1) as real
    ensures x <= 0.0 ==> (n - 1) as real < x <= n as real
  {
    if x >= 0.0 then x.Floor else -((-x).Floor)
  }

  lemma TruncateWhole(n: int)
    ensures Truncate(n as real) == n
  {
  }

  /** Saturation to the int16 range followed by the conversion. */
  function Saturate(x: real): (n: int)
    ensures -32768 <= n <= 32767
    ensures x >= 32767.0 ==> n == 32767
    ensures x <= -32768.0 ==> n == -32768
  {
    Truncate(if x > 32767.0 then 32767.0 else if x < -32768.0 then -32768.0 else x)
  }

  /** Inside the range there is nothing to saturate. */
  lemma InRangeIsTruncated(x: real)
    requires -32768.0 <= x <= 32767.0
    ensures Saturate(x) == Truncate(x)
  {
  }

  // ------------------------------------------------------------ filtering in chunks

  /** A whole-stream filter whose earlier output never depends on later samples. */
  ghost predicate Causal(f: seq<int> -> seq<int>)
  {
    && (forall x :: |f(x)| == |x|)
    && (forall x, n :: 0 <= n <= |x| ==> f(x[..n]) == f(x)[..n])
  }

  /** What a caller collects when the stream after `past` arrives in these chunks. */
  ghost function ChunkedOutput(f: seq<int> -> seq<int>, past: seq<int>, chunks: seq<seq<int>>): seq<int>
    requires Causal(f)
    decreases |chunks|
  {
    if chunks == [] then []
    else
      f(past + chunks[0])[|past|..] + ChunkedOutput(f, past + chunks[0], chunks[1..])
  }

  /** However the stream is cut, the outputs join to the whole-stream filter. */
  lemma {:induction false} ChunkingIsInvisible(f: seq<int> -> seq<int>, past: seq<int>, chunks: seq<seq<int>>)
    requires Causal(f)
    ensures var joined := f(past + Flatten(chunks));
            |joined| >= |past| && ChunkedOutput(f, past, chunks) == joined[|past|..]
    decreases |chunks|
  {
    if chunks == [] {
      assert past + Flatten(chunks) == past;
    } else {
      var next, rest := past + chunks[0], Flatten(chunks[1..]);
      ChunkingIsInvisible(f, next, chunks[1..]);
      assert past + Flatten(chunks) == next + rest;
      var joined := f(next + rest);
      assert (next + rest)[..|next|] == next;
      assert joined[|past|..] == joined[..|next|][|past|..] + joined[|next|..];
    }
  }

  // ------------------------------------------------------------------ FIR reference

  /** The first k terms of the tap sum whose window starts at position i. */
  function Dot(taps: seq<real>, x: seq<int>, i: nat, k: nat): real
    requires k <= |taps| && i + k <= |x|
  {
    if k == 0 then 0.0 else Dot(taps, x, i, k - 1) + taps[k - 1] * (x[i + k - 1] as real)
  }

  function Zeros(n: nat): seq<int> { seq(n, _ => 0) }

  /** One saturated convolution of the whole stream preceded by silence. */
  function Convolve(taps: seq<real>, stream: seq<int>): (y: seq<int>)
    requires |taps| > 0
    ensures |y| == |stream|
  {
    var x := Zeros(|taps| - 1) + stream;
    seq(|stream|, i requires 0 <= i < |stream| => Saturate(Dot(taps, x, i, |taps|)))
  }

  function Last(x: seq<int>, n: nat): seq<int>
    requires n <= |x|
  {
    x[|x| - n..]
  }

  /** A tap sum depends only on the samples under its window. */
  lemma {:induction false} DotDependsOnWindow(taps: seq<real>, x: seq<int>, i: nat, y: seq<int>, j: nat, k: nat)
    requires k <= |taps| && i + k <= |x| && j + k <= |y|
    requires x[i..i + k] == y[j..j + k]
    ensures Dot(taps, x, i, k) == Dot(taps, y, j, k)
  {
    if k > 0 {
      assert x[i..i + (k - 1)] == x[i..i + k][..k - 1] == y[j..j + k][..k - 1] == y[j..j + (k - 1)];
      DotDependsOnWindow(taps, x, i, y, j, k - 1);
      assert x[i + k - 1] == x[i..i + k][k - 1];
    }
  }

  /** Later samples never change earlier output. */
  lemma ConvolvePrefix(taps: seq<real>, s: seq<int>, n: nat)
    requires |taps| > 0 && n <= |s|
    ensures Convolve(taps, s[..n]) == Convolve(taps, s)[..n]
  {
    var x, y := Zeros(|taps| - 1) + s[..n], Zeros(|taps| - 1) + s;
    forall i | 0 <= i < n
      ensures Convolve(taps, s[..n])[i] == Convolve(taps, s)[i]
    {
      assert x[i..i + |taps|] == y[i..i + |taps|];
      DotDependsOnWindow(taps, x, i, y, i, |taps|);
    }
  }

  ghost function Fir(taps: seq<real>): seq<int> -> seq<int>
    requires |taps| > 0
  {
    x => Convolve(taps, x)
  }

  /** The FIR filter is causal, so by ChunkingIsInvisible its chunking cannot be heard. */
  lemma FirIsCausal(taps: seq<real>)
    requires |taps| > 0
    ensures Causal(Fir(taps))
  {
    forall x: seq<int>, n | 0 <= n <= |x|
      ensures Convolve(taps, x[..n]) == Convolve(taps, x)[..n]
    {
      ConvolvePrefix(taps, x, n);
    }
  }

  /** Only the last taps-1 samples before a chunk matter for its output. */
  lemma ConvolveFromHistory(taps: seq<real>, past: seq<int>, chunk: seq<int>, i: nat)
    requires |taps| > 0 && i < |chunk|
    ensures var history := Last(Zeros(|taps| - 1) + past, |taps| - 1);
            Convolve(taps, past + chunk)[|past| + i] == Saturate(Dot(taps, history + chunk, i, |taps|))
  {
    var h := |taps| - 1;
    var x := Zeros(h) + (past + chunk);
    var y := Last(Zeros(h) + past, h) + chunk;
    assert x == (Zeros(h) + past) + chunk;
    assert x[|past| + i..|past| + i + |taps|] == y[i..i + |taps|];
    DotDependsOnWindow(taps, x, |past| + i, y, i, |taps|);
  }

  // -------------------------------------------------------- what the filter computes

  /** The tap sum behind output i, before saturation. */
  function TapSum(taps: seq<real>, stream: seq<int>, i: nat): real
    requires |taps| > 0 && i < |stream|
  {
    Dot(taps, Zeros(|taps| - 1) + stream, i, |taps|)
  }

  /** Under a window with one sample that may be non-zero, only that sample's tap counts. */
  lemma {:induction false} DotOfImpulse(taps: seq<real>, x: seq<int>, i: nat, k: nat, q: nat)
    requires k <= |taps| && i + k <= |x| && q < |x|
    requires forall j :: 0 <= j < |x| && j != q ==> x[j] == 0
    ensures Dot(taps, x, i, k) == if i <= q < i + k then taps[q - i] * (x[q] as real) else 0.0
  {
    if k > 0 { DotOfImpulse(taps, x, i, k - 1, q); }
  }

  lemma TapSumOfImpulse(taps: seq<real>, stream: seq<int>, p: nat, i: nat)
    requires |taps| > 0 && p < |stream| && i < |stream|
    requires forall j :: 0 <= j < |stream| && j != p ==> stream[j] == 0
    ensures TapSum(taps, stream, i)
         == if p <= i < p + |taps| then taps[|taps| - 1 - (i - p)] * (stream[p] as real) else 0.0
  {
    var h := |taps| - 1;
    DotOfImpulse(taps, Zeros(h) + stream, i, |taps|, h + p);
  }

  /** A single sample in silence plays the taps backwards from its position on, scaled and saturated. */
  lemma ImpulseResponse(taps: seq<real>, stream: seq<int>, p: nat, i: nat)
    requires |taps| > 0 && p < |stream| && i < |stream|
    requires forall j :: 0 <= j < |stream| && j != p ==> stream[j] == 0
    ensures p <= i < p + |taps| ==>
              Convolve(taps, stream)[i] == Saturate(taps[|taps| - 1 - (i - p)] * (stream[p] as real))
    ensures !(p <= i < p + |taps|) ==> Convolve(taps, stream)[i] == 0
  {
    TapSumOfImpulse(taps, stream, p, i);
    OutputIsSaturated(taps, stream, i);
    assert Truncate(0.0) == 0;
  }

  lemma OutputIsSaturated(taps: seq<real>, stream: seq<int>, i: nat)
    requires |taps| > 0 && i < |stream|
    ensures Convolve(taps, stream)[i] == Saturate(TapSum(taps, stream, i))
  {
  }

  /** Two streams sounding together. */
  function Mixed(a: seq<int>, b: seq<int>): (y: seq<int>)
    requires |a| == |b|
  {
    seq(|a|, i requires 0 <= i < |a| => a[i] + b[i])
  }

  lemma TermIsAdditive(t: real, x: int, y: int)
    ensures t * ((x + y) as real) == t * (x as real) + t * (y as real)
  {
    Arithmetic.Distribute(t, x as real, y as real);
    assert (x + y) as real == x as real + y as real;
  }

  lemma {:induction false} DotIsAdditive(taps: seq<real>, a: seq<int>, b: seq<int>, sum: seq<int>, i: nat, k: nat)
    requires |a| == |b| == |sum| && k <= |taps| && i + k <= |a|
    requires forall j :: 0 <= j < |a| ==> sum[j] == a[j] + b[j]
    ensures Dot(taps, sum, i, k) == Dot(taps, a, i, k) + Dot(taps, b, i, k)
  {
    if k > 0 {
      DotIsAdditive(taps, a, b, sum, i, k - 1);
      TermIsAdditive(taps[k - 1], a[i + k - 1], b[i + k - 1]);
    }
  }

  /** The tap sum of two streams together is the sum of their tap sums. */
  lemma TapSumIsAdditive(taps: seq<real>, a: seq<int>, b: seq<int>, i: nat)
    requires |taps| > 0 && |a| == |b| && i < |a|
    ensures TapSum(taps, Mixed(a, b), i) == TapSum(taps, a, i) + TapSum(taps, b, i)
    ensures Convolve(taps, Mixed(a, b))[i] == Saturate(TapSum(taps, a, i) + TapSum(taps, b, i))
  {
    var silence := Zeros(|taps| - 1);
    DotIsAdditive(taps, silence + a, silence + b, silence + Mixed(a, b), i, |taps|);
    OutputIsSaturated(taps, Mixed(a, b), i);
  }

  /** The filter object: `stream` is every sample it has been given so far. */
  class LowPassFir {
    const taps: seq<real>
    const history: array<int>
    var outBuf: array<int>
    ghost var stream: seq<int>

    ghost predicate Valid()
      reads this, history
    {
      && |taps| > 0
      && history.Length == |taps| - 1
      && history != outBuf
      && history[..] == Last(Zeros(|taps| - 1) + stream, |taps| - 1)
    }

    constructor (taps: seq<real>)
      requires |taps| > 0
      ensures Valid() && this.taps == taps && stream == []
      ensures fresh(history) && fresh(outBuf)
    {
      this.taps := taps;
      history := new int[|taps| - 1](_ => 0);
      outBuf := new int[320](_ => 0);
      stream := [];
      new;
      assert history[..] == Zeros(|taps| - 1);
      assert Zeros(|taps| - 1) + stream == Zeros(|taps| - 1);
    }

    /** The tap sum at output i, read straight from history and input without joining them. */
    method Tap(input: array<int>, i: nat) returns (acc: real)
      requires Valid() && i < input.Length
      ensures acc == Dot(taps, history[..] + input[..], i, |taps|)
    {
      var histN := history.Length;
      ghost var x := history[..] + input[..];
      acc := 0.0;
      for k := 0 to |taps|
        invariant acc == Dot(taps, x, i, k)
      {
        var pos := i + k;
        var sample := if pos < histN then history[pos] else input[pos - histN];
        assert sample == x[i + k];
        acc := acc + taps[k] * (sample as real);
      }
    }

    /** A chunk at least as long as the history replaces it. */
    method ReplaceHistory(input: array<int>)
      requires input != history && input.Length >= history.Length
      modifies history
      ensures history[..] == input[input.Length - history.Length..]
    {
      var histN, n := history.Length, input.Length;
      for j := 0 to histN
        invariant forall d :: 0 <= d < j ==> history[d] == input[n - histN + d]
      {
        history[j] := input[n - histN + j];
      }
    }

    /** A shorter chunk shifts the history left and is appended to it. */
    method ShiftHistory(input: array<int>)
      requires input != history && input.Length < history.Length
      modifies history
      ensures history[..] == old(history[..])[input.Length..] + input[..]
    {
      var histN, n := history.Length, input.Length;
      for j := 0 to histN - n
        invariant forall d :: 0 <= d < j ==> history[d] == old(history[n + d])
        invariant forall d :: j <= d < histN ==> history[d] == old(history[d])
      {
        history[j] := history[n + j];
      }
      for j := 0 to n
        invariant forall d :: 0 <= d < histN - n ==> history[d] == old(history[n + d])
        invariant forall d :: histN - n <= d < histN - n + j ==> history[d] == input[d - (histN - n)]
      {
        history[histN - n + j] := input[j];
      }
    }

    /** Keep the last taps-1 samples of history and input, in place. */
    method UpdateHistory(input: array<int>)
      requires input != history
      modifies history
      ensures history[..] == Last(old(history[..]) + input[..], history.Length)
    {
      if input.Length >= history.Length {
        ReplaceHistory(input);
      } else {
        ShiftHistory(input);
      }
    }

    /** Convolve the chunk into the output buffer. */
    method FillOutput(input: array<int>)
      requires Valid() && input != outBuf && input.Length <= outBuf.Length
      modifies outBuf
      ensures outBuf[..input.Length] == Convolve(taps, stream + input[..])[|stream|..]
    {
      ghost var whole := Convolve(taps, stream + input[..]);
      for i := 0 to input.Length
        invariant forall d :: 0 <= d < i ==> outBuf[d] == whole[|stream| + d]
      {
        var acc := Tap(input, i);
        ConvolveFromHistory(taps, stream, input[..], i);
        outBuf[i] := Saturate(acc);
      }
    }

    /**
     Filter one chunk. The output, a prefix of the reused buffer, continues the
     whole-stream convolution exactly where the previous chunk left off.
     */
    method Filter(input: array<int>) returns (out: array<int>)
      requires Valid() && input != history && input != outBuf
      modifies this, history, outBuf
      ensures Valid()
      ensures stream == old(stream) + input[..] && input[..] == old(input[..])
      ensures outBuf == old(outBuf) || fresh(outBuf)
      ensures input.Length == 0 ==> out == input
      ensures input.Length > 0 ==>
                && out == outBuf && out.Length >= input.Length
                && out[..input.Length] == Convolve(taps, stream)[|old(stream)|..]
    {
      if input.Length == 0 {
        assert old(stream) + input[..] == old(stream);
        return input;
      }
      if outBuf.Length < input.Length {
        outBuf := new int[input.Length];
      }
      out := outBuf;
      FillOutput(input);
      UpdateHistory(input);
      HistoryCarriesOver(|taps| - 1, stream, input[..]);
      stream := stream + input[..];
    }
  }

  lemma HistoryCarriesOver(h: nat, past: seq<int>, chunk: seq<int>)
    ensures Last(Last(Zeros(h) + past, h) + chunk, h) == Last(Zeros(h) + (past + chunk), h)
  {
    assert Zeros(h) + (past + chunk) == (Zeros(h) + past) + chunk;
  }

  /** One more chunk: what it gives joins what was collected. */
  lemma CollectNext(f: seq<int> -> seq<int>, past: seq<int>, chunks: seq<seq<int>>, i: nat, collected: seq<int>)
    requires Causal(f) && i < |chunks|
    ensures var next := past + chunks[i];
            collected + ChunkedOutput(f, past, chunks[i..])
            == (collected + f(next)[|past|..]) + ChunkedOutput(f, next, chunks[i + 1..])
  {
    assert chunks[i..][1..] == chunks[i + 1..];
    Regroup(collected, f(past + chunks[i])[|past|..], ChunkedOutput(f, past + chunks[i], chunks[i + 1..]));
  }

  lemma Regroup(a: seq<int>, b: seq<int>, c: seq<int>)
    ensures a + (b + c) == (a + b) + c
  {
  }

  method Copy(chunk: seq<int>) returns (a: array<int>)
    ensures fresh(a) && a[..] == chunk
  {
    a := new int[|chunk|](i requires 0 <= i < |chunk| => chunk[i]);
  }

  /** A fresh filter fed with any cut of a stream gives one convolution of the stream. */
  method FilterAll(taps: seq<real>, chunks: seq<seq<int>>) returns (collected: seq<int>)
    requires |taps| > 0
    ensures collected == Convolve(taps, Flatten(chunks))
  {
    var filter := new LowPassFir(taps);
    ghost var f := Fir(taps);
    FirIsCausal(taps);
    collected := [];
    assert chunks[0..] == chunks;
    for i := 0 to |chunks|
      invariant filter.Valid() && filter.taps == taps && fresh(filter) && fresh(filter.history) && fresh(filter.outBuf)
      invariant ChunkedOutput(f, [], chunks) == collected + ChunkedOutput(f, filter.stream, chunks[i..])
    {
      CollectNext(f, filter.stream, chunks, i, collected);
      ghost var past := filter.stream;
      var a := Copy(chunks[i]);
      var out := filter.Filter(a);
      assert out[..|chunks[i]|] == f(past + chunks[i])[|past|..];
      collected := collected + out[..|chunks[i]|];
    }
    assert chunks[|chunks|..] == [];
    ChunkingIsInvisible(f, [], chunks);
    assert [] + Flatten(chunks) == Flatten(chunks);
  }
}
