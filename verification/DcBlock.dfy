/**
 The DC blocker: a one-pole high-pass that filters each chunk in place.

 Two samples of state carry over between calls. The reference is the recurrence over the
 whole stream, from which its gain is bounded and the levels that cannot clip are found.
 */
module DcBlock {
  import opened Arithmetic
  import opened Common
  import opened LowPass

  /** The unsaturated filter value after the stream: y[n] = x[n] - x[n-1] + r y[n-1]. */
  function HighPass(r: real, x: seq<int>): real
  {
    if x == [] then 0.0
    else
      var before := x[..|x| - 1];
      (x[|x| - 1] as real) - Sample(before) + r * HighPass(r, before)
  }

  /** The last sample of the stream, or silence. */
  function Sample(x: seq<int>): real { if x == [] then 0.0 else x[|x| - 1] as real }

  /** The whole stream filtered in one piece. */
  function BlockDc(r: real, x: seq<int>): (y: seq<int>)
    ensures |y| == |x|
  {
    seq(|x|, i requires 0 <= i < |x| => Saturate(HighPass(r, x[..i + 1])))
  }

  ghost function Blocker(r: real): seq<int> -> seq<int> { x => BlockDc(r, x) }

  /** Later samples never change earlier output. */
  lemma DcBlockerIsCausal(r: real)
    ensures Causal(Blocker(r))
  {
    forall x: seq<int>, n | 0 <= n <= |x|
      ensures BlockDc(r, x[..n]) == BlockDc(r, x)[..n]
    {
      forall i | 0 <= i < n ensures BlockDc(r, x[..n])[i] == BlockDc(r, x)[i] {
        assert x[..n][..i + 1] == x[..i + 1];
      }
    }
  }

  lemma HighPassNext(r: real, x: seq<int>, v: int)
    ensures HighPass(r, x + [v]) == (v as real) - Sample(x) + r * HighPass(r, x)
    ensures Sample(x + [v]) == v as real
  {
    assert (x + [v])[..|x|] == x;
  }

  /** One turn of the loop on the whole stream. */
  lemma StreamNext(r: real, past: seq<int>, chunk: seq<int>, i: nat)
    requires i < |chunk|
    ensures past + chunk[..i] + [chunk[i]] == past + chunk[..i + 1]
    ensures BlockDc(r, past + chunk)[|past|..][i] == Saturate(HighPass(r, past + chunk[..i + 1]))
  {
    assert (past + chunk)[..|past| + i + 1] == past + chunk[..i + 1];
  }

  /** The filtered part grows by one sample and the unfiltered part shrinks by one. */
  lemma ReplaceNext(now: seq<int>, done: seq<int>, chunk: seq<int>, i: nat)
    requires i < |chunk| == |done| && now == done[..i] + chunk[i..]
    ensures now[i] == chunk[i] && now[i := done[i]] == done[..i + 1] + chunk[i + 1..]
  {
  }

  class DcBlocker {
    const r: real
    var xPrev: real
    var yPrev: real
    ghost var stream: seq<int>

    ghost predicate Valid()
      reads this
    {
      xPrev == Sample(stream) && yPrev == HighPass(r, stream)
    }

    constructor (r: real)
      ensures Valid() && this.r == r && stream == []
    {
      this.r := r;
      xPrev, yPrev := 0.0, 0.0;
      stream := [];
    }

    /** One turn of the loop: advance the state by a sample and give its output. */
    method Step(v: int) returns (w: int)
      requires Valid()
      modifies this
      ensures Valid() && stream == old(stream) + [v] && w == Saturate(HighPass(r, stream))
    {
      var x := v as real;
      var y := x - xPrev + r * yPrev;
      HighPassNext(r, stream, v);
      xPrev, yPrev := x, y;
      stream := stream + [v];
      w := Saturate(y);
    }

    /** Filter a chunk in place, continuing the whole-stream filter. */
    method Process(a: array<int>)
      requires Valid()
      modifies this, a
      ensures Valid() && stream == old(stream) + old(a[..])
      ensures a[..] == BlockDc(r, stream)[|old(stream)|..]
    {
      ghost var past, chunk := stream, a[..];
      ghost var done := BlockDc(r, past + chunk)[|past|..];
      for i := 0 to a.Length
        invariant Valid() && stream == past + chunk[..i]
        invariant a[..] == done[..i] + chunk[i..]
      {
        ReplaceNext(a[..], done, chunk, i);
        StreamNext(r, past, chunk, i);
        ghost var before := a[..];
        var w := Step(a[i]);
        a[i] := w;
        assert a[..] == before[i := w];
      }
      assert chunk[..a.Length] == chunk && done[..a.Length] == done;
    }

    method Reset()
      modifies this
      ensures Valid() && stream == []
    {
      xPrev, yPrev := 0.0, 0.0;
      stream := [];
    }
  }

  function Power(r: real, n: nat): real { if n == 0 then 1.0 else r * Power(r, n - 1) }

  /** A constant offset decays geometrically: what the filter is for. */
  lemma {:induction false} OffsetDecays(r: real, offset: int, n: nat)
    ensures HighPass(r, seq(n + 1, _ => offset)) == (offset as real) * Power(r, n)
  {
    var x := seq(n + 1, _ => offset);
    if n > 0 {
      OffsetDecays(r, offset, n - 1);
      assert x[..n] == seq(n, _ => offset);
      var o, p := offset as real, Power(r, n - 1);
      assert r * (o * p) == o * (r * p);
    } else {
      assert x[..0] == [];
    }
  }

  /** A fresh blocker fed with any cut of a stream gives the filter of the whole stream. */
  method BlockAll(r: real, chunks: seq<seq<int>>) returns (collected: seq<int>)
    ensures collected == BlockDc(r, Flatten(chunks))
  {
    var blocker := new DcBlocker(r);
    ghost var f := Blocker(r);
    DcBlockerIsCausal(r);
    collected := [];
    assert chunks[0..] == chunks;
    for i := 0 to |chunks|
      invariant blocker.Valid() && blocker.r == r && fresh(blocker)
      invariant ChunkedOutput(f, [], chunks) == collected + ChunkedOutput(f, blocker.stream, chunks[i..])
    {
      CollectNext(f, blocker.stream, chunks, i, collected);
      ghost var past := blocker.stream;
      var a := Copy(chunks[i]);
      blocker.Process(a);
      assert a[..] == f(past + chunks[i])[|past|..];
      collected := collected + a[..];
    }
    assert chunks[|chunks|..] == [];
    ChunkingIsInvisible(f, [], chunks);
    assert [] + Flatten(chunks) == Flatten(chunks);
  }

  // ------------------------------------------------------------------ gain and clipping

  /** The source says the blocker only attenuates; a full-scale step reaches twice full scale. */
  lemma StepOvershoots(r: real)
    requires 0.0 <= r < 1.0
    ensures HighPass(r, [-32768, 32767]) == 65535.0 - 32768.0 * r
    ensures HighPass(r, [-32768, 32767]) > 32767.0
    ensures BlockDc(r, [-32768, 32767])[1] == 32767
  {
    var x := [-32768, 32767];
    HighPassNext(r, [], -32768);
    HighPassNext(r, [-32768], 32767);
    assert [] + [-32768] == [-32768] && [-32768] + [32767] == x && x[..2] == x;
  }

  /** No sample is further than `bound` from silence. */
  ghost predicate Within(x: seq<int>, bound: nat) { forall i :: 0 <= i < |x| ==> -(bound as int) <= x[i] <= bound }

  lemma ScaledWithin(r: real, z: real, b: real)
    requires 0.0 <= r && 0.0 <= z + b && z <= b
    ensures 0.0 <= r * z + r * b && r * z <= r * b
  {
    Scale(r, z, b);
    ProductNonNegative(r, z + b);
    Distribute(r, z, b);
  }

  lemma DifferenceWithin(x: real, y: real, u: real, v: real)
    requires 0.0 <= x + u && x <= u && 0.0 <= y + v && y <= v
    ensures -(u + v) <= x - y <= u + v
  {
  }

  /** The weighted mean of two values stays within their common bound. */
  lemma MeanWithin(r: real, q: real, s: real, z: real, b: real)
    requires 0.0 <= r && 0.0 <= q && r * b + q * b == b && -b <= s <= b && -b <= z <= b
    ensures -b <= r * z - q * s <= b
  {
    ScaledWithin(r, z, b);
    ScaledWithin(q, s, b);
    DifferenceWithin(r * z, q * s, r * b, q * b);
  }

  lemma AddedNext(r: real, s: real, y: real, b: real)
    requires 0.0 <= r <= 1.0 && -b <= s <= b && -b <= y - s <= b
    ensures -b <= r * y - s <= b
  {
    var q, z := 1.0 - r, y - s;
    assert r * b + q * b == b;
    MeanWithin(r, q, s, z, b);
    assert r * y == r * z + r * s;
    assert q * s == s - r * s;
  }

  /** What the filter adds to a sample is a mean of what came before, so it too stays within the bound. */
  lemma {:induction false} AddedWithin(r: real, x: seq<int>, bound: nat)
    requires 0.0 <= r <= 1.0 && Within(x, bound)
    ensures -(bound as real) <= HighPass(r, x) - Sample(x) <= bound as real
  {
    if x != [] {
      var before := x[..|x| - 1];
      AddedWithin(r, before, bound);
      AddedNext(r, Sample(before), HighPass(r, before), bound as real);
    }
  }

  /** The gain is at most two. */
  lemma GainAtMostTwo(r: real, x: seq<int>, bound: nat)
    requires 0.0 <= r <= 1.0 && Within(x, bound)
    ensures -2.0 * (bound as real) <= HighPass(r, x) <= 2.0 * (bound as real)
  {
    AddedWithin(r, x, bound);
  }

  /** Bernoulli's inequality for the decay, with a = 1 - r. */
  lemma {:induction false} DecayBound(r: real, a: real, n: nat)
    requires 0.0 <= r && 0.0 <= a && r + a == 1.0
    ensures 0.0 <= Power(r, n) && Power(r, n) * (1.0 + n as real * a) <= 1.0
  {
    if n > 0 {
      DecayBound(r, a, n - 1);
      ProductNonNegative((n - 1) as real, a);
      DecayStep(r, Power(r, n - 1), 1.0 + (n - 1) as real * a, a);
      assert 1.0 + n as real * a == 1.0 + (n - 1) as real * a + a;
    }
  }

  lemma DecayStep(r: real, p: real, u: real, a: real)
    requires r + a == 1.0 && 0.0 <= r && 0.0 <= a && 0.0 <= p && 1.0 <= u && p * u <= 1.0
    ensures 0.0 <= r * p && (r * p) * (u + a) <= 1.0
  {
    ProductNonNegative(r, p);
    Shrinks(r, a, u);
    Scale(p, r * (u + a), u);
    Associate(p, r, u + a);
    assert r * p == p * r;
  }

  lemma Shrinks(r: real, a: real, u: real)
    requires r + a == 1.0 && 0.0 <= a && 1.0 <= u
    ensures r * (u + a) <= u
  {
    var w := u + a;
    ProductNonNegative(a, w - 1.0);
    Distribute(a, w, 1.0);
    Distribute(w, r, a);
  }

  lemma SmallProduct(p: real, v: real, k: real)
    requires 0.0 <= p && k <= v && p * (1.0 + v) <= 1.0
    ensures p * k < 1.0
  {
    Scale(p, k, v);
    Distribute(p, 1.0, v);
    if p == 0.0 {
      assert p * k == 0.0;
    } else {
      BelowOne(p, p * (1.0 + v), p * v, p * k);
    }
  }

  lemma BelowOne(p: real, pu: real, pv: real, pk: real)
    requires 0.0 < p && pu <= 1.0 && pu == p + pv && pk <= pv
    ensures pk < 1.0
  {
  }

  /** The decay goes below any level. */
  lemma DecaysBelow(r: real, k: real) returns (n: nat, p: real)
    requires 0.0 <= r < 1.0 && 0.0 <= k
    ensures p == Power(r, n) && 0.0 <= p && p * k < 1.0
  {
    var a := 1.0 - r;
    n := Reaches(k, a);
    DecayBound(r, a, n);
    p := Power(r, n);
    SmallProduct(p, n as real * a, k);
  }

  /** A long offset followed by its opposite. */
  function Flip(level: int, n: nat): seq<int> { seq(n + 1, _ => -level) + [level] }

  /** The opposite of a long offset comes out at nearly twice its level. */
  lemma FlipDoubles(r: real, level: int, n: nat, q: real)
    requires q == r * Power(r, n)
    ensures HighPass(r, Flip(level, n)) == (level as real) * (2.0 - q)
  {
    var x := seq(n + 1, _ => -level);
    OffsetDecays(r, -level, n);
    HighPassNext(r, x, level);
    var l, p := level as real, Power(r, n);
    assert Sample(x) == -l;
    assert r * (-l * p) == -(l * (r * p));
    assert l * (2.0 - r * p) == 2.0 * l - l * (r * p);
  }

  /** No stream at this level reaches the saturation branch. */
  ghost predicate NeverClips(r: real, bound: nat)
  {
    forall x: seq<int> :: Within(x, bound) ==> -32768.0 <= HighPass(r, x) <= 32767.0
  }

  /**
   Streams at a level never reach the saturation branch exactly when the level is below half
   of full scale, for every pole. Above that, an offset that has settled and then flips does.
   */
  lemma NeverClipsExactly(r: real, bound: nat)
    requires 0.0 <= r < 1.0
    ensures NeverClips(r, bound) <==> bound <= 16383
  {
    if bound <= 16383 {
      forall x: seq<int> | Within(x, bound)
        ensures -32768.0 <= HighPass(r, x) <= 32767.0
      {
        GainAtMostTwo(r, x, bound);
      }
    } else {
      LoudFlipClips(r, bound);
    }
  }

  lemma LoudFlipClips(r: real, bound: nat)
    requires 0.0 <= r < 1.0 && bound >= 16384
    ensures !NeverClips(r, bound)
  {
    var n := FlipNearlyDoubles(r, 16384);
    assert Within(Flip(16384, n), bound);
  }

  /** After a long enough offset the flip comes out at less than one below twice its level. */
  lemma FlipNearlyDoubles(r: real, level: nat) returns (n: nat)
    requires 0.0 <= r < 1.0
    ensures HighPass(r, Flip(level, n)) > 2.0 * (level as real) - 1.0
  {
    var q;
    n, q := DecaysEnough(r, level as real);
    FlipDoubles(r, level, n, q);
  }

  lemma DecaysEnough(r: real, level: real) returns (n: nat, q: real)
    requires 0.0 <= r < 1.0 && 0.0 <= level
    ensures q == r * Power(r, n) && level * (2.0 - q) > 2.0 * level - 1.0
  {
    var p;
    n, p, q := DecaysBelowTwice(r, level);
    NearlyDouble(q, p, level);
  }

  lemma DecaysBelowTwice(r: real, level: real) returns (n: nat, p: real, q: real)
    requires 0.0 <= r < 1.0 && 0.0 <= level
    ensures q == r * Power(r, n) && q <= p && p * level < 1.0
  {
    n, p := DecaysBelow(r, level);
    q := r * p;
    Scale(p, r, 1.0);
  }

  lemma NearlyDouble(q: real, p: real, level: real)
    requires q <= p && 0.0 <= level && p * level < 1.0
    ensures level * (2.0 - q) > 2.0 * level - 1.0
  {
    Scale(level, q, p);
    Distribute(level, 2.0, q);
    LessThanOne(level, level * q, p * level, level * (2.0 - q));
  }

  lemma LessThanOne(level: real, lost: real, small: real, result: real)
    requires lost <= small < 1.0 && result == level * 2.0 - lost
    ensures result > 2.0 * level - 1.0
  {
  }

  /** Nothing below half of full scale is changed by the saturation. */
  lemma QuietIsExact(r: real, x: seq<int>, i: nat)
    requires 0.0 <= r < 1.0 && Within(x, 16383) && i < |x|
    ensures BlockDc(r, x)[i] == Truncate(HighPass(r, x[..i + 1]))
  {
    GainAtMostTwo(r, x[..i + 1], 16383);
  }

  // ------------------------------------------------------------- samples that change

  lemma AddedNextStrict(r: real, s: real, y: real, b: real)
    requires 0.0 < r <= 1.0 && -b <= s <= b && -b < y - s < b
    ensures -b < r * y - s < b
  {
    var q, z := 1.0 - r, y - s;
    ScaledWithin(q, s, b);
    StrictScale(r, z, b);
    assert r * b + q * b == b;
    assert r * y == r * z + r * s && q * s == s - r * s;
    StrictDifference(r * z, q * s, r * b, q * b);
  }

  lemma StrictScale(r: real, z: real, b: real)
    requires 0.0 < r && -b < z < b
    ensures 0.0 < r * z + r * b && r * z < r * b
  {
    ProductPositive(r, b - z);
    ProductPositive(r, z + b);
    Distribute(r, b, z);
    Distribute(r, z, b);
  }

  lemma StrictDifference(x: real, y: real, u: real, v: real)
    requires 0.0 < x + u && x < u && 0.0 <= y + v && y <= v
    ensures -(u + v) < x - y < u + v
  {
  }

  /** With a pole above zero the added part never reaches the bound. */
  lemma {:induction false} AddedStrictlyWithin(r: real, x: seq<int>, bound: nat)
    requires 0.0 < r <= 1.0 && bound > 0 && Within(x, bound)
    ensures -(bound as real) < HighPass(r, x) - Sample(x) < bound as real
  {
    if x != [] {
      var before := x[..|x| - 1];
      AddedStrictlyWithin(r, before, bound);
      AddedNextStrict(r, Sample(before), HighPass(r, before), bound as real);
    }
  }

  /** The saturation changes the value that is written. */
  predicate Changed(y: real) { Saturate(y) != Truncate(y) }

  /** Conversion alone takes everything strictly below 32768 into the range. */
  lemma ChangedExactly(y: real)
    ensures Changed(y) <==> y >= 32768.0 || y <= -32769.0
  {
  }

  ghost predicate SomeChanged(r: real, bound: nat)
  {
    exists x: seq<int> :: Within(x, bound) && Changed(HighPass(r, x))
  }

  lemma NoneChanged(r: real, bound: nat)
    requires 0.0 <= r < 1.0 && bound <= 16384 && (bound == 16384 ==> r > 0.0)
    ensures !SomeChanged(r, bound)
  {
    forall x: seq<int> | Within(x, bound)
      ensures !Changed(HighPass(r, x))
    {
      ChangedExactly(HighPass(r, x));
      GainAtMostTwo(r, x, bound);
      if bound == 16384 { AddedStrictlyWithin(r, x, bound); }
    }
  }

  lemma LoudFlipChanges(r: real, bound: nat)
    requires 0.0 <= r < 1.0 && bound >= 16385
    ensures SomeChanged(r, bound)
  {
    var n := FlipNearlyDoubles(r, 16385);
    ChangedExactly(HighPass(r, Flip(16385, n)));
    assert Within(Flip(16385, n), bound);
  }

  lemma HalfScaleFlipChanges()
    ensures SomeChanged(0.0, 16384)
  {
    var x := Flip(16384, 0);
    FlipDoubles(0.0, 16384, 0, 0.0);
    ChangedExactly(HighPass(0.0, x));
    assert Within(x, 16384);
  }

  /**
   The saturation changes some sample at a level exactly when the level is above half of full
   scale, or is half of full scale and the pole is zero.
   */
  lemma SomeChangedExactly(r: real, bound: nat)
    requires 0.0 <= r < 1.0
    ensures SomeChanged(r, bound) <==> bound >= 16385 || (bound == 16384 && r == 0.0)
  {
    if bound >= 16385 {
      LoudFlipChanges(r, bound);
    } else if bound == 16384 && r == 0.0 {
      HalfScaleFlipChanges();
    } else {
      NoneChanged(r, bound);
    }
  }
}
