/**
 The conference mix of one tick: each participant hears the others, added frame by frame
 with saturation after every addition. Go iterates over the participants in any order, so
 the question is when that order can be heard.
 */
module Mixer {
  import LowPass
  import opened Pcm

  /** What one participant sent in this tick. */
  datatype Frame = Frame(id: string, samples: seq<Int16>, gain: real)

  function Gain(f: Frame): real { if f.gain == 0.0 then 1.0 else f.gain }

  /** Frame f is heard by this participant at sample i. */
  predicate Hears(id: string, i: nat, f: Frame) { f.id != id && i < |f.samples| }

  /** What frame f adds to the mix at sample i. */
  function Weighted(i: nat, f: Frame): real
    requires i < |f.samples|
  {
    f.samples[i] as real * Gain(f)
  }

  /** What is in the mix after frame f has been added at sample i. */
  function Added(id: string, i: nat, m: int, f: Frame): int
  {
    if Hears(id, i, f) then LowPass.Saturate(m as real + Weighted(i, f)) else m
  }

  /** Sample i of the mix for one participant. */
  function Mix(id: string, i: nat, frames: seq<Frame>): int
  {
    if frames == [] then 0 else Added(id, i, Mix(id, i, frames[..|frames| - 1]), frames[|frames| - 1])
  }

  lemma MixNext(id: string, i: nat, frames: seq<Frame>, k: nat)
    requires k < |frames|
    ensures Mix(id, i, frames[..k + 1]) == Added(id, i, Mix(id, i, frames[..k]), frames[k])
  {
    assert frames[..k + 1][..k] == frames[..k];
  }

  /** Replacing frames that add the same changes nothing. */
  lemma {:induction false} MixDependsOnParts(id: string, i: nat, a: seq<Frame>, b: seq<Frame>)
    requires |a| == |b| && forall k, m :: 0 <= k < |a| ==> Added(id, i, m, a[k]) == Added(id, i, m, b[k])
    ensures Mix(id, i, a) == Mix(id, i, b)
  {
    if a != [] {
      var n := |a| - 1;
      MixDependsOnParts(id, i, a[..n], b[..n]);
      assert Added(id, i, Mix(id, i, a[..n]), a[n]) == Added(id, i, Mix(id, i, a[..n]), b[n]);
    }
  }

  /** A gain that was never set counts as 1. */
  lemma UnsetGainIsUnity(id: string, i: nat, frames: seq<Frame>, k: nat)
    requires k < |frames| && frames[k].gain == 0.0
    ensures Mix(id, i, frames) == Mix(id, i, frames[k := frames[k].(gain := 1.0)])
  {
    MixDependsOnParts(id, i, frames, frames[k := frames[k].(gain := 1.0)]);
  }

  lemma {:induction false} SilentPart(id: string, i: nat, a: seq<Frame>, f: Frame, b: seq<Frame>)
    requires !Hears(id, i, f)
    ensures Mix(id, i, a + [f] + b) == Mix(id, i, a + b)
  {
    if b == [] {
      assert a + [f] + b == a + [f] && a + b == a;
      assert (a + [f])[..|a|] == a;
    } else {
      var n := |b| - 1;
      SilentPart(id, i, a, f, b[..n]);
      assert (a + [f] + b)[..|a| + 1 + n] == a + [f] + b[..n];
      assert (a + b)[..|a| + n] == a + b[..n];
    }
  }

  /** A participant's own frame leaves no trace in what they hear, and neither does one that is too short. */
  lemma OwnFrameIsNotHeard(id: string, i: nat, a: seq<Frame>, f: Frame, b: seq<Frame>)
    requires f.id == id || i >= |f.samples|
    ensures Mix(id, i, a + [f] + b) == Mix(id, i, a + b)
  {
    SilentPart(id, i, a, f, b);
  }

  /** One other participant at gain 1 is heard as sent. */
  lemma OneOtherIsHeardAsSent(id: string, i: nat, f: Frame)
    requires f.id != id && i < |f.samples| && (f.gain == 0.0 || f.gain == 1.0)
    ensures Mix(id, i, [f]) == f.samples[i]
  {
    var x := f.samples[i];
    assert [f][..0] == [] && Mix(id, i, []) == 0;
    assert Weighted(i, f) == x as real;
    LowPass.TruncateWhole(x);
  }

  method AddSample(m: int, f: Frame, i: nat, ghost id: string) returns (v: int)
    requires f.id != id && i < |f.samples|
    ensures v == Added(id, i, m, f)
  {
    v := LowPass.Saturate(m as real + Weighted(i, f));
  }

  /** Add one frame into the mix. */
  method AddFrame(mixed: array<int>, f: Frame, ghost id: string)
    requires f.id != id
    modifies mixed
    ensures forall i :: 0 <= i < mixed.Length ==> mixed[i] == Added(id, i, old(mixed[i]), f)
  {
    var i := 0;
    while i < mixed.Length && i < |f.samples|
      invariant 0 <= i <= mixed.Length && i <= |f.samples|
      invariant forall j :: 0 <= j < i ==> mixed[j] == Added(id, j, old(mixed[j]), f)
      invariant forall j :: i <= j < mixed.Length ==> mixed[j] == old(mixed[j])
    {
      mixed[i] := AddSample(mixed[i], f, i, id);
      i := i + 1;
    }
  }

  /** The mix for one participant: everyone but themselves. */
  method MixFor(id: string, frames: seq<Frame>, size: nat) returns (mixed: array<int>)
    ensures fresh(mixed) && mixed.Length == size
    ensures forall i :: 0 <= i < size ==> mixed[i] == Mix(id, i, frames)
  {
    mixed := new int[size](_ => 0);
    for k := 0 to |frames|
      invariant forall i :: 0 <= i < size ==> mixed[i] == Mix(id, i, frames[..k])
    {
      forall i | 0 <= i < size
        ensures Mix(id, i, frames[..k + 1]) == Added(id, i, Mix(id, i, frames[..k]), frames[k])
      {
        MixNext(id, i, frames, k);
      }
      if frames[k].id != id {
        AddFrame(mixed, frames[k], id);
      }
    }
    assert frames[..|frames|] == frames;
  }

  // ----------------------------------------------------------- adding with saturation

  function Level(x: int): int { if x > 32767 then 32767 else if x < -32768 then -32768 else x }

  /** The parts added one by one, saturating each time. */
  function Total(parts: seq<int>): int
  {
    if parts == [] then 0 else Level(Total(parts[..|parts| - 1]) + parts[|parts| - 1])
  }

  /** The sum of the positive parts. */
  function Ups(parts: seq<int>): nat
  {
    if parts == [] then 0
    else
      var x := parts[|parts| - 1];
      Ups(parts[..|parts| - 1]) + (if x > 0 then x else 0)
  }

  /** The sum of the negative parts, without its sign. */
  function Downs(parts: seq<int>): nat
  {
    if parts == [] then 0
    else
      var x := parts[|parts| - 1];
      Downs(parts[..|parts| - 1]) + (if x < 0 then -x else 0)
  }

  /** The parts all push one way, or neither way past the end of the range. */
  predicate Calm(parts: seq<int>)
  {
    Ups(parts) == 0 || Downs(parts) == 0 || (Ups(parts) <= 32767 && Downs(parts) <= 32768)
  }

  /** Calm parts give their sum, saturated once. */
  lemma {:induction false} CalmTotalIsSum(parts: seq<int>)
    requires Calm(parts)
    ensures Total(parts) == Level(Ups(parts) as int - Downs(parts))
  {
    if parts != [] { CalmTotalIsSum(parts[..|parts| - 1]); }
  }

  lemma {:induction false} SumsConcat(a: seq<int>, b: seq<int>)
    ensures Ups(a + b) == Ups(a) + Ups(b) && Downs(a + b) == Downs(a) + Downs(b)
  {
    if b == [] {
      assert a + b == a;
    } else {
      var n := |b| - 1;
      SumsConcat(a, b[..n]);
      assert (a + b)[..|a| + n] == a + b[..n];
    }
  }

  /** Taking one element out of the middle. */
  lemma Extracted<T>(s: seq<T>, j: nat)
    requires j < |s|
    ensures multiset(s[..j] + s[j + 1..]) == multiset(s) - multiset{s[j]}
  {
    assert s == s[..j] + ([s[j]] + s[j + 1..]);
  }

  lemma LastSplit<T>(s: seq<T>)
    requires s != []
    ensures multiset(s[..|s| - 1]) == multiset(s) - multiset{s[|s| - 1]}
  {
    assert s == s[..|s| - 1] + [s[|s| - 1]];
  }

  lemma SumsExtract(s: seq<int>, j: nat)
    requires j < |s|
    ensures var rest := s[..j] + s[j + 1..];
            && Ups(s) == Ups(rest) + (if s[j] > 0 then s[j] else 0)
            && Downs(s) == Downs(rest) + (if s[j] < 0 then -s[j] else 0)
  {
    assert s == s[..j] + ([s[j]] + s[j + 1..]);
    SumsConcat(s[..j], s[j + 1..]);
    SumsConcat(s[..j], [s[j]] + s[j + 1..]);
    SumsConcat([s[j]], s[j + 1..]);
    assert [s[j]][..0] == [];
  }

  /** The sums do not depend on the order. */
  lemma {:induction false} SumsPermute(a: seq<int>, b: seq<int>)
    requires multiset(a) == multiset(b)
    ensures Ups(a) == Ups(b) && Downs(a) == Downs(b)
    decreases |a|
  {
    assert |a| == |multiset(a)| == |multiset(b)| == |b|;
    if a != [] {
      var x := a[|a| - 1];
      assert x in multiset(b);
      var j :| 0 <= j < |b| && b[j] == x;
      LastSplit(a);
      Extracted(b, j);
      SumsPermute(a[..|a| - 1], b[..j] + b[j + 1..]);
      SumsExtract(b, j);
    }
  }

  /** The parts that push up, or the others. */
  function Select(up: bool, parts: seq<int>): seq<int>
  {
    if parts == [] then []
    else
      var x := parts[|parts| - 1];
      Select(up, parts[..|parts| - 1]) + (if (x > 0) == up then [x] else [])
  }

  lemma SelectNext(up: bool, parts: seq<int>)
    requires parts != []
    ensures var n := |parts| - 1;
            multiset(Select(up, parts))
            == multiset(Select(up, parts[..n])) + (if (parts[n] > 0) == up then multiset{parts[n]} else multiset{})
  {
  }

  lemma {:induction false} SelectSplits(parts: seq<int>)
    ensures multiset(Select(true, parts)) + multiset(Select(false, parts)) == multiset(parts)
  {
    if parts != [] {
      var n := |parts| - 1;
      SelectSplits(parts[..n]);
      SelectNext(true, parts);
      SelectNext(false, parts);
      LastJoin(parts);
      RegroupBags(multiset(Select(true, parts[..n])), multiset(Select(false, parts[..n])), parts[n], parts[n] > 0,
                  multiset(Select(true, parts)), multiset(Select(false, parts)));
    }
  }

  lemma LastJoin(s: seq<int>)
    requires s != []
    ensures multiset(s) == multiset(s[..|s| - 1]) + multiset{s[|s| - 1]}
  {
    assert s == s[..|s| - 1] + [s[|s| - 1]];
  }

  lemma RegroupBags(a: multiset<int>, b: multiset<int>, x: int, up: bool, a': multiset<int>, b': multiset<int>)
    requires a' == a + (if up then multiset{x} else multiset{}) && b' == b + (if up then multiset{} else multiset{x})
    ensures a' + b' == (a + b) + multiset{x}
  {
  }

  lemma {:induction false} SelectSums(up: bool, parts: seq<int>)
    ensures var s := Select(up, parts);
            Ups(s) == (if up then Ups(parts) else 0) && Downs(s) == (if up then 0 else Downs(parts))
  {
    if parts != [] {
      var n := |parts| - 1;
      SelectSums(up, parts[..n]);
      if (parts[n] > 0) == up {
        assert Select(up, parts)[..|Select(up, parts)| - 1] == Select(up, parts[..n]);
      } else {
        assert Select(up, parts) == Select(up, parts[..n]);
      }
    }
  }

  /** Parts that push one way only move the total by their sum, up to the end of the range. */
  lemma {:induction false} OneWay(a: seq<int>, b: seq<int>)
    requires Ups(b) == 0 || Downs(b) == 0
    ensures Total(a + b) == Level(Total(a) + Ups(b) - Downs(b))
  {
    if b == [] {
      assert a + b == a;
      if a != [] { assert Total(a) == Level(Total(a[..|a| - 1]) + a[|a| - 1]); }
    } else {
      var n := |b| - 1;
      OneWay(a, b[..n]);
      assert (a + b)[..|a| + n] == a + b[..n];
    }
  }

  lemma TwoGroups(a: seq<int>, b: seq<int>)
    requires (Ups(a) == 0 || Downs(a) == 0) && (Ups(b) == 0 || Downs(b) == 0)
    ensures Total(a + b) == Level(Level(Ups(a) as int - Downs(a)) + Ups(b) - Downs(b))
  {
    OneWay([], a);
    assert [] + a == a;
    OneWay(a, b);
  }

  /** If either group overruns the range, ups before downs and downs before ups end in different places. */
  lemma GroupsDiffer(ups: seq<int>, downs: seq<int>)
    requires Downs(ups) == 0 && Ups(downs) == 0 && Ups(ups) > 0 && Downs(downs) > 0
    requires Ups(ups) > 32767 || Downs(downs) > 32768
    ensures Total(ups + downs) != Total(downs + ups)
  {
    TwoGroups(ups, downs);
    TwoGroups(downs, ups);
  }

  ghost predicate SameTotal(parts: seq<int>)
  {
    forall order: seq<int> :: multiset(order) == multiset(parts) ==> Total(order) == Total(parts)
  }

  lemma CalmIsSame(parts: seq<int>)
    requires Calm(parts)
    ensures SameTotal(parts)
  {
    CalmTotalIsSum(parts);
    forall order: seq<int> | multiset(order) == multiset(parts)
      ensures Total(order) == Total(parts)
    {
      SumsPermute(parts, order);
      CalmTotalIsSum(order);
    }
  }

  /** Otherwise two orders give different totals. */
  lemma RestlessDiffers(parts: seq<int>)
    requires !Calm(parts)
    ensures var a, b := Select(true, parts), Select(false, parts);
            Total(a + b) != Total(b + a) && multiset(a + b) == multiset(parts) == multiset(b + a)
  {
    SelectSplits(parts);
    SelectSums(true, parts);
    SelectSums(false, parts);
    GroupsDiffer(Select(true, parts), Select(false, parts));
  }

  // ------------------------------------------------------------------ order of frames

  /** What a frame adds for this participant at sample i, without its fraction. */
  function Part(id: string, i: nat, f: Frame): int
  {
    if Hears(id, i, f) then LowPass.Truncate(Weighted(i, f)) else 0
  }

  function Parts(id: string, i: nat, frames: seq<Frame>): (parts: seq<int>)
    ensures |parts| == |frames|
  {
    seq(|frames|, k requires 0 <= k < |frames| => Part(id, i, frames[k]))
  }

  /** The weighted sample is a whole number, as it always is at unit gain. */
  predicate Whole(id: string, i: nat, f: Frame)
  {
    Hears(id, i, f) ==> Weighted(i, f) == Part(id, i, f) as real
  }

  predicate AllWhole(id: string, i: nat, frames: seq<Frame>)
  {
    forall k :: 0 <= k < |frames| ==> Whole(id, i, frames[k])
  }

  /** The weighted sample is not negative, or not positive. */
  predicate Pushes(id: string, i: nat, up: bool, f: Frame)
  {
    Hears(id, i, f) ==> if up then Weighted(i, f) >= 0.0 else Weighted(i, f) <= 0.0
  }

  predicate AllPush(id: string, i: nat, up: bool, frames: seq<Frame>)
  {
    forall k :: 0 <= k < |frames| ==> Pushes(id, i, up, frames[k])
  }

  lemma UnitIsWhole(id: string, i: nat, f: Frame)
    requires Gain(f) == 1.0
    ensures Whole(id, i, f) && (Hears(id, i, f) ==> Part(id, i, f) == f.samples[i])
  {
    if Hears(id, i, f) {
      TimesOne(f.samples[i] as real, Gain(f));
      TruncateWhole(f.samples[i]);
    }
  }

  lemma TimesOne(x: real, g: real)
    requires g == 1.0
    ensures x * g == x
  {
  }

  lemma TruncateWhole(n: int)
    ensures LowPass.Truncate(n as real) == n
  {
  }

  lemma WholeSaturate(m: int, x: real, n: int)
    requires x == n as real
    ensures LowPass.Saturate(m as real + x) == Level(m + n)
  {
    assert m as real + x == (m + n) as real;
  }

  /** On one side of silence the fraction can be dropped before or after the addition. */
  lemma OneSidedSaturate(m: int, x: real)
    requires (m >= 0 && x >= 0.0) || (m <= 0 && x <= 0.0)
    ensures LowPass.Saturate(m as real + x) == Level(m + LowPass.Truncate(x))
  {
    var n := LowPass.Truncate(x);
    if x >= 0.0 {
      assert (m + n) as real <= m as real + x < (m + n + 1) as real;
    } else {
      assert (m + n - 1) as real < m as real + x <= (m + n) as real;
    }
  }

  lemma WholeAdded(id: string, i: nat, m: int, f: Frame)
    requires Whole(id, i, f) && -32768 <= m <= 32767
    ensures Added(id, i, m, f) == Level(m + Part(id, i, f))
  {
    if Hears(id, i, f) { WholeSaturate(m, Weighted(i, f), Part(id, i, f)); }
  }

  lemma PushAdded(id: string, i: nat, up: bool, m: int, f: Frame)
    requires Pushes(id, i, up, f) && (if up then 0 <= m <= 32767 else -32768 <= m <= 0)
    ensures Added(id, i, m, f) == Level(m + Part(id, i, f))
    ensures if up then Part(id, i, f) >= 0 else Part(id, i, f) <= 0
  {
    if Hears(id, i, f) { OneSidedSaturate(m, Weighted(i, f)); }
  }

  /** Whole weighted samples: the mix is their saturating total. */
  lemma {:induction false} WholeMix(id: string, i: nat, frames: seq<Frame>)
    requires AllWhole(id, i, frames)
    ensures Mix(id, i, frames) == Total(Parts(id, i, frames))
  {
    if frames != [] {
      var n := |frames| - 1;
      WholeMix(id, i, frames[..n]);
      assert Parts(id, i, frames)[..n] == Parts(id, i, frames[..n]);
      assert Whole(id, i, frames[n]);
      WholeAdded(id, i, Mix(id, i, frames[..n]), frames[n]);
    }
  }

  /** So it is for any gains when all weighted samples push one way, each without its fraction. */
  lemma {:induction false} PushMix(id: string, i: nat, up: bool, frames: seq<Frame>)
    requires AllPush(id, i, up, frames)
    ensures Mix(id, i, frames) == Total(Parts(id, i, frames))
    ensures if up then Mix(id, i, frames) >= 0 else Mix(id, i, frames) <= 0
    ensures if up then Downs(Parts(id, i, frames)) == 0 else Ups(Parts(id, i, frames)) == 0
  {
    if frames != [] {
      var n := |frames| - 1;
      PushMix(id, i, up, frames[..n]);
      assert Parts(id, i, frames)[..n] == Parts(id, i, frames[..n]);
      assert Pushes(id, i, up, frames[n]);
      PushAdded(id, i, up, Mix(id, i, frames[..n]), frames[n]);
    }
  }

  lemma PartsExtract(id: string, i: nat, frames: seq<Frame>, j: nat)
    requires j < |frames|
    ensures var parts := Parts(id, i, frames);
            Parts(id, i, frames[..j] + frames[j + 1..]) == parts[..j] + parts[j + 1..]
  {
  }

  /** Reordering the frames reorders their parts. */
  lemma {:induction false} PartsPermute(id: string, i: nat, a: seq<Frame>, b: seq<Frame>)
    requires multiset(a) == multiset(b)
    ensures multiset(Parts(id, i, a)) == multiset(Parts(id, i, b))
    decreases |a|
  {
    assert |a| == |multiset(a)| == |multiset(b)| == |b|;
    if a != [] {
      var n := |a| - 1;
      assert a[n] in multiset(b);
      var j :| 0 <= j < |b| && b[j] == a[n];
      LastSplit(a);
      Extracted(b, j);
      PartsPermute(id, i, a[..n], b[..j] + b[j + 1..]);
      PartsRejoin(id, i, a, b, j);
    }
  }

  lemma PartsRejoin(id: string, i: nat, a: seq<Frame>, b: seq<Frame>, j: nat)
    requires a != [] && j < |b| && b[j] == a[|a| - 1]
    requires multiset(Parts(id, i, a[..|a| - 1])) == multiset(Parts(id, i, b[..j] + b[j + 1..]))
    ensures multiset(Parts(id, i, a)) == multiset(Parts(id, i, b))
  {
    var n, pa, pb := |a| - 1, Parts(id, i, a), Parts(id, i, b);
    PartsExtract(id, i, b, j);
    assert Parts(id, i, a[..n]) == pa[..n];
    LastSplit(pa);
    Extracted(pb, j);
    assert pa[n] == pb[j];
    Rejoin(pa, pb, pa[n]);
  }

  lemma Rejoin(a: seq<int>, b: seq<int>, x: int)
    requires x in multiset(a) && x in multiset(b) && multiset(a) - multiset{x} == multiset(b) - multiset{x}
    ensures multiset(a) == multiset(b)
  {
    assert multiset(a) == (multiset(a) - multiset{x}) + multiset{x};
    assert multiset(b) == (multiset(b) - multiset{x}) + multiset{x};
  }

  lemma Reassemble(frames: seq<Frame>, rest: seq<Frame>, j: nat)
    requires j < |frames| && multiset(rest) == multiset(frames) - multiset{frames[j]}
    ensures multiset(rest + [frames[j]]) == multiset(frames)
  {
    assert frames[j] in multiset(frames);
  }

  lemma PartsAppend(id: string, i: nat, frames: seq<Frame>, f: Frame)
    ensures Parts(id, i, frames + [f]) == Parts(id, i, frames) + [Part(id, i, f)]
  {
  }

  /** Some frame gives the last of the parts, and the other frames give the rest. */
  lemma LastFrame(id: string, i: nat, frames: seq<Frame>, parts: seq<int>) returns (j: nat)
    requires multiset(Parts(id, i, frames)) == multiset(parts) && parts != []
    ensures j < |frames| && Part(id, i, frames[j]) == parts[|parts| - 1]
    ensures multiset(Parts(id, i, frames[..j] + frames[j + 1..])) == multiset(parts[..|parts| - 1])
  {
    var all, x := Parts(id, i, frames), parts[|parts| - 1];
    assert x in multiset(all);
    j :| 0 <= j < |all| && all[j] == x;
    LastSplit(parts);
    Extracted(all, j);
    PartsExtract(id, i, frames, j);
  }

  lemma NoParts(id: string, i: nat, frames: seq<Frame>)
    requires multiset(Parts(id, i, frames)) == multiset([])
    ensures frames == []
  {
    assert |frames| == |Parts(id, i, frames)| == |multiset(Parts(id, i, frames))|;
  }

  /** Every order of the parts comes from an order of the frames. */
  lemma {:induction false} FramesFor(id: string, i: nat, frames: seq<Frame>, parts: seq<int>)
    returns (order: seq<Frame>)
    requires multiset(Parts(id, i, frames)) == multiset(parts)
    ensures multiset(order) == multiset(frames) && Parts(id, i, order) == parts
    decreases |parts|
  {
    if parts == [] {
      NoParts(id, i, frames);
      return frames;
    }
    var n := |parts| - 1;
    var j := LastFrame(id, i, frames, parts);
    var rest := FramesFor(id, i, frames[..j] + frames[j + 1..], parts[..n]);
    order := rest + [frames[j]];
    Extracted(frames, j);
    Reassemble(frames, rest, j);
    PartsAppend(id, i, rest, frames[j]);
    assert parts == parts[..n] + [parts[n]];
  }

  /** Every order of the frames gives the same sample. */
  ghost predicate OrderFree(id: string, i: nat, frames: seq<Frame>)
  {
    forall order: seq<Frame> :: multiset(order) == multiset(frames) ==> Mix(id, i, order) == Mix(id, i, frames)
  }

  lemma WholePermutes(id: string, i: nat, a: seq<Frame>, b: seq<Frame>)
    requires multiset(a) == multiset(b) && AllWhole(id, i, a)
    ensures AllWhole(id, i, b)
  {
    forall k | 0 <= k < |b| ensures Whole(id, i, b[k]) {
      assert b[k] in multiset(a);
    }
  }

  lemma PushPermutes(id: string, i: nat, up: bool, a: seq<Frame>, b: seq<Frame>)
    requires multiset(a) == multiset(b) && AllPush(id, i, up, a)
    ensures AllPush(id, i, up, b)
  {
    forall k | 0 <= k < |b| ensures Pushes(id, i, up, b[k]) {
      assert b[k] in multiset(a);
    }
  }

  lemma OrderedMix(id: string, i: nat, frames: seq<Frame>, parts: seq<int>)
    requires AllWhole(id, i, frames) && OrderFree(id, i, frames) && multiset(parts) == multiset(Parts(id, i, frames))
    ensures Total(parts) == Mix(id, i, frames)
  {
    var order := FramesFor(id, i, frames, parts);
    WholePermutes(id, i, frames, order);
    WholeMix(id, i, order);
  }

  lemma CalmIsOrderFree(id: string, i: nat, frames: seq<Frame>)
    requires AllWhole(id, i, frames) && Calm(Parts(id, i, frames))
    ensures OrderFree(id, i, frames)
  {
    CalmIsSame(Parts(id, i, frames));
    WholeMix(id, i, frames);
    forall order: seq<Frame> | multiset(order) == multiset(frames)
      ensures Mix(id, i, order) == Mix(id, i, frames)
    {
      WholePermutes(id, i, frames, order);
      WholeMix(id, i, order);
      PartsPermute(id, i, order, frames);
    }
  }

  /**
   When every weighted sample is a whole number, as at unit gain, the order in which the
   participants are visited cannot be heard exactly when the mix is calm, and a calm mix is
   the sum of the others saturated once. Otherwise a peak that saturates early is no longer
   there to cancel what follows.
   */
  lemma OrderFreeExactly(id: string, i: nat, frames: seq<Frame>)
    requires AllWhole(id, i, frames)
    ensures OrderFree(id, i, frames) <==> Calm(Parts(id, i, frames))
    ensures var parts := Parts(id, i, frames);
            Calm(parts) ==> Mix(id, i, frames) == Level(Ups(parts) as int - Downs(parts))
  {
    var parts := Parts(id, i, frames);
    if Calm(parts) {
      WholeMix(id, i, frames);
      CalmTotalIsSum(parts);
      CalmIsOrderFree(id, i, frames);
    } else if OrderFree(id, i, frames) {
      RestlessDiffers(parts);
      OrderedMix(id, i, frames, Select(true, parts) + Select(false, parts));
      OrderedMix(id, i, frames, Select(false, parts) + Select(true, parts));
      assert false;
    }
  }

  /**
   With any gains, weighted samples that all push one way are order-free, and the mix is the
   saturated sum of them without their fractions.
   */
  lemma OneWayIsOrderFree(id: string, i: nat, up: bool, frames: seq<Frame>)
    requires AllPush(id, i, up, frames)
    ensures OrderFree(id, i, frames)
    ensures var parts := Parts(id, i, frames);
            Mix(id, i, frames) == Level(Ups(parts) as int - Downs(parts))
  {
    var parts := Parts(id, i, frames);
    PushMix(id, i, up, frames);
    CalmTotalIsSum(parts);
    CalmIsSame(parts);
    forall order: seq<Frame> | multiset(order) == multiset(frames)
      ensures Mix(id, i, order) == Mix(id, i, frames)
    {
      PushPermutes(id, i, up, frames, order);
      PushMix(id, i, up, order);
      PartsPermute(id, i, order, frames);
    }
  }

  /**
   Fractions of both signs can be heard without any saturation: truncation loses them in one order
   and not the other.
   */
  lemma FractionalGainIsHeard(id: string, a: string, b: string)
    requires a != id && b != id
    ensures var x, y := Frame(a, [3], 0.5), Frame(b, [-1], 0.5);
            && Calm(Parts(id, 0, [x, y])) && Mix(id, 0, [x, y]) == 0 && Mix(id, 0, [y, x]) == 1
  {
    var x, y := Frame(a, [3], 0.5), Frame(b, [-1], 0.5);
    assert [x, y][..1] == [x] && [y, x][..1] == [y] && [x][..0] == [] && [y][..0] == [];
    assert Mix(id, 0, [x]) == LowPass.Truncate(1.5) == 1;
    assert Mix(id, 0, [y]) == LowPass.Truncate(-0.5) == 0;
    assert Mix(id, 0, [x, y]) == LowPass.Truncate(0.5);
    assert Mix(id, 0, [y, x]) == LowPass.Truncate(1.5);
    assert Parts(id, 0, [x, y]) == [1, 0];
    assert [1, 0][..1] == [1] && [1][..0] == [];
    assert Downs([1]) == 0 && Downs([1, 0]) == 0;
  }
}
