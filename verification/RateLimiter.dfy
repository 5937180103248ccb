/**
 The sliding-window limiter: per key it keeps only the timestamps that may still
 matter. Its answers are those of a limiter that remembers every accepted request.

 Time is an integer handed in by the caller and never runs backwards.
 */
module RateLimiter {

  /** How many timestamps lie in the closed interval. */
  function CountIn(h: seq<int>, lo: int, hi: int): (n: nat)
    ensures n <= |h|
  {
    if h == [] then 0
    else CountIn(h[..|h| - 1], lo, hi) + (if lo <= h[|h| - 1] <= hi then 1 else 0)
  }

  ghost predicate AllBefore(h: seq<int>, t: int) { forall i :: 0 <= i < |h| ==> h[i] < t }

  ghost predicate AllWithin(h: seq<int>, lo: int, hi: int) { forall i :: 0 <= i < |h| ==> lo <= h[i] <= hi }

  ghost predicate Ordered(h: seq<int>) { forall i, j :: 0 <= i < j < |h| ==> h[i] <= h[j] }

  /** Dropping what has expired does not change the count. */
  lemma {:induction false} CountOfSuffix(old': seq<int>, kept: seq<int>, lo: int, hi: int)
    requires AllBefore(old', lo) && AllWithin(kept, lo, hi)
    ensures CountIn(old' + kept, lo, hi) == |kept|
    decreases |old'| + |kept|
  {
    if kept != [] {
      assert (old' + kept)[..|old'| + |kept| - 1] == old' + kept[..|kept| - 1];
      CountOfSuffix(old', kept[..|kept| - 1], lo, hi);
    } else if old' != [] {
      assert old' + kept == old';
      assert old'[..|old'| - 1] + [] == old'[..|old'| - 1];
      CountOfSuffix(old'[..|old'| - 1], [], lo, hi);
    }
  }

  /** A window that reaches past the newest request counts no more than the one that ends there. */
  lemma {:induction false} CountInLaterWindow(h: seq<int>, lo: int, hi: int, lo': int, now: int)
    requires lo <= lo' && forall i :: 0 <= i < |h| ==> h[i] <= now
    ensures CountIn(h, lo', hi) <= CountIn(h, lo, now)
  {
    if h != [] {
      CountInLaterWindow(h[..|h| - 1], lo, hi, lo', now);
    }
  }

  /** No closed window of at most this length holds more than maxCount requests. */
  ghost predicate Limited(h: seq<int>, window: int, maxCount: int)
  {
    forall lo, hi :: hi - lo <= window ==> CountIn(h, lo, hi) <= maxCount
  }

  /** Accepting a request when fewer than maxCount are in the window ending now keeps every window limited. */
  lemma AcceptKeepsLimit(h: seq<int>, window: int, maxCount: int, now: int)
    requires Limited(h, window, maxCount) && forall i :: 0 <= i < |h| ==> h[i] <= now
    requires CountIn(h, now - window, now) < maxCount
    ensures Limited(h + [now], window, maxCount)
  {
    forall lo, hi | hi - lo <= window
      ensures CountIn(h + [now], lo, hi) <= maxCount
    {
      assert (h + [now])[..|h|] == h;
      if lo <= now <= hi {
        CountInLaterWindow(h, now - window, hi, lo, now);
      }
    }
  }

  /** r is what is left when everything at the front that is before the cutoff is dropped. */
  ghost predicate Trimmed(ts: seq<int>, r: seq<int>, cutoff: int)
  {
    && |r| <= |ts| && r == ts[|ts| - |r|..]
    && AllBefore(ts[..|ts| - |r|], cutoff)
    && (r != [] ==> r[0] >= cutoff)
  }

  /** Drop the leading timestamps that are before the cutoff. */
  method TrimBefore(ts: seq<int>, cutoff: int) returns (r: seq<int>)
    ensures Trimmed(ts, r, cutoff)
  {
    var idx := 0;
    while idx < |ts| && ts[idx] < cutoff
      invariant 0 <= idx <= |ts| && AllBefore(ts[..idx], cutoff)
    {
      idx := idx + 1;
    }
    r := ts[idx..];
  }

  /** The kept timestamps are the end of the history, and what was dropped can no longer be in a window. */
  ghost predicate Sound(h: seq<int>, kept: seq<int>, clock: int, window: int, maxCount: int)
  {
    && Ordered(h) && (forall i :: 0 <= i < |h| ==> h[i] <= clock)
    && |kept| <= |h| && kept == h[|h| - |kept|..]
    && AllBefore(h[..|h| - |kept|], clock - window)
    && (if maxCount > 0 then Limited(h, window, maxCount) else h == [])
  }

  /** Trimming to a later time is sound, and what is left is exactly what lies in the window. */
  lemma TrimIsSound(h: seq<int>, kept: seq<int>, clock: int, window: int, maxCount: int, ts: seq<int>, now: int)
    requires Sound(h, kept, clock, window, maxCount) && clock <= now
    requires Trimmed(kept, ts, now - window)
    ensures Sound(h, ts, now, window, maxCount)
    ensures |ts| == CountIn(h, now - window, now)
  {
    var a, b := h[..|h| - |kept|], kept[..|kept| - |ts|];
    var gone := h[..|h| - |ts|];
    assert gone == a + b && AllBefore(gone, now - window);
    assert h == gone + ts && ts == h[|h| - |ts|..];
    WindowHolds(h, gone, ts, now, window);
    CountOfSuffix(gone, ts, now - window, now);
  }

  method TrimSoundly(kept: seq<int>, now: int, window: int, ghost h: seq<int>, ghost clock: int, ghost maxCount: int)
    returns (ts: seq<int>)
    requires Sound(h, kept, clock, window, maxCount) && clock <= now
    ensures Sound(h, ts, now, window, maxCount) && |ts| <= |kept|
    ensures |ts| == CountIn(h, now - window, now)
  {
    ts := TrimBefore(kept, now - window);
    TrimIsSound(h, kept, clock, window, maxCount, ts, now);
  }

  lemma WindowHolds(h: seq<int>, gone: seq<int>, ts: seq<int>, now: int, window: int)
    requires Ordered(h) && h == gone + ts && (forall i :: 0 <= i < |h| ==> h[i] <= now)
    requires ts != [] ==> now - window <= ts[0]
    ensures forall i :: 0 <= i < |ts| ==> now - window <= ts[i] <= now
  {
    forall i | 0 <= i < |ts| ensures now - window <= ts[i] <= now {
      assert ts[i] == h[|gone| + i] && ts[0] == h[|gone|];
    }
  }

  lemma LaterIsSound(h: seq<int>, kept: seq<int>, clock: int, window: int, maxCount: int, now: int)
    requires Sound(h, kept, clock, window, maxCount) && clock <= now
    ensures Sound(h, kept, now, window, maxCount)
  {
  }

  lemma RecordIsSound(h: seq<int>, kept: seq<int>, now: int, window: int, maxCount: int)
    requires Sound(h, kept, now, window, maxCount) && maxCount > 0
    requires CountIn(h, now - window, now) < maxCount
    ensures Sound(h + [now], kept + [now], now, window, maxCount)
  {
    AcceptKeepsLimit(h, window, maxCount, now);
    assert (h + [now])[|h| - |kept|..] == kept + [now];
    assert (h + [now])[..|h| - |kept|] == h[..|h| - |kept|];
  }

  class Limiter {
    const window: int
    const maxCount: int
    var entries: map<string, seq<int>>

    /** Every accepted request per key since its last Reset, and the latest time seen. */
    ghost var accepted: map<string, seq<int>>
    ghost var clock: int

    ghost function History(key: string): seq<int>
      reads this
    {
      if key in accepted then accepted[key] else []
    }

    ghost function Kept(key: string): seq<int>
      reads this
    {
      if key in entries then entries[key] else []
    }

    ghost predicate ValidKey(key: string)
      reads this
    {
      Sound(History(key), Kept(key), clock, window, maxCount)
    }

    ghost predicate Valid()
      reads this
    {
      forall key {:trigger ValidKey(key)} :: ValidKey(key)
    }

    constructor (window: int, maxCount: int, ghost start: int)
      ensures Valid() && this.window == window && this.maxCount == maxCount
      ensures accepted == map[] && clock == start
    {
      this.window, this.maxCount := window, maxCount;
      entries, accepted := map[], map[];
      clock := start;
    }

    /** What is left of a key's kept timestamps at time now. */
    method Refresh(key: string, now: int) returns (ts: seq<int>)
      requires Valid() && now >= clock
      ensures Sound(History(key), ts, now, window, maxCount) && |ts| <= |Kept(key)|
      ensures |ts| == CountIn(History(key), now - window, now)
    {
      assert ValidKey(key);
      var kept := if key in entries then entries[key] else [];
      ts := TrimSoundly(kept, now, window, History(key), clock, maxCount);
    }

    /** Storing a refreshed key at the new time keeps the invariant for every key. */
    method Store(key: string, ts: seq<int>, now: int)
      requires Valid() && now >= clock
      requires Sound(History(key), ts, now, window, maxCount)
      modifies `entries, `clock
      ensures Valid() && clock == now && entries == old(entries)[key := ts]
    {
      entries := entries[key := ts];
      clock := now;
      forall k
        ensures ValidKey(k)
      {
        if k != key {
          assert old(ValidKey(k));
          LaterIsSound(History(k), Kept(k), old(clock), window, maxCount, now);
        }
      }
    }

    /** Add an accepted request to the kept timestamps and to the history. */
    method Record(key: string, now: int)
      requires Valid() && clock == now && maxCount > 0
      requires CountIn(History(key), now - window, now) < maxCount
      modifies `entries, `accepted
      ensures Valid() && accepted == old(accepted)[key := old(History(key)) + [now]]
    {
      ghost var h, ts := History(key), Kept(key);
      assert ValidKey(key);
      RecordIsSound(h, ts, now, window, maxCount);
      entries := entries[key := (if key in entries then entries[key] else []) + [now]];
      accepted := accepted[key := h + [now]];
      forall k
        ensures ValidKey(k)
      {
        if k == key {
          assert History(k) == h + [now] && Kept(k) == ts + [now];
        } else {
          assert old(ValidKey(k));
          assert History(k) == old(History(k)) && Kept(k) == old(Kept(k));
        }
      }
    }

    /**
     A request is accepted exactly when fewer than maxCount accepted requests of its
     key lie in the closed window ending now; a limiter without a limit accepts all.
     */
    method Allow(key: string, now: int) returns (ok: bool)
      requires Valid() && now >= clock
      modifies this
      ensures Valid() && clock == (if maxCount <= 0 then old(clock) else now)
      ensures maxCount <= 0 ==> ok && accepted == old(accepted)
      ensures maxCount > 0 ==> (ok <==> CountIn(old(History(key)), now - window, now) < maxCount)
      ensures maxCount > 0 && ok ==> accepted == old(accepted)[key := old(History(key)) + [now]]
      ensures !ok ==> accepted == old(accepted)
    {
      if maxCount <= 0 {
        return true;
      }
      var ts := Refresh(key, now);
      Store(key, ts, now);
      if |ts| >= maxCount {
        return false;
      }
      Record(key, now);
      return true;
    }

    /** The number of accepted requests in the window ending now; nothing later depends on having asked. */
    method Count(key: string, now: int) returns (n: nat)
      requires Valid() && now >= clock
      modifies `entries, `clock
      ensures Valid() && old(clock) <= clock <= now
      ensures n == CountIn(History(key), now - window, now)
    {
      var ts := Refresh(key, now);
      if key !in entries {
        return 0;
      }
      Store(key, ts, now);
      return |ts|;
    }

    /** Forget a key. */
    method Reset(key: string)
      requires Valid()
      modifies `entries, `accepted
      ensures Valid() && accepted == old(accepted) - {key}
    {
      entries := entries - {key};
      accepted := accepted - {key};
      forall k
        ensures ValidKey(k)
      {
        assert old(ValidKey(k));
      }
    }

    method Drop(key: string)
      requires Valid() && Kept(key) == []
      modifies `entries
      ensures Valid() && entries == old(entries) - {key}
    {
      entries := entries - {key};
      forall k
        ensures ValidKey(k)
      {
        assert old(ValidKey(k));
      }
    }

    /** Keep exactly the keys with a request in the window; nothing later depends on it. */
    method Cleanup(now: int)
      requires Valid() && now >= clock
      modifies `entries, `clock
      ensures Valid() && clock <= now
      ensures forall k :: k in entries <==> k in old(entries) && CountIn(History(k), now - window, now) > 0
    {
      var todo := entries.Keys;
      while todo != {}
        invariant Valid() && clock <= now
        invariant todo <= entries.Keys <= old(entries.Keys)
        invariant forall k :: k in old(entries) && k !in todo ==>
                    (k in entries <==> CountIn(History(k), now - window, now) > 0)
      {
        var k :| k in todo;
        var ts := Refresh(k, now);
        Store(k, ts, now);
        if |ts| == 0 {
          Drop(k);
        }
        todo := todo - {k};
      }
    }
  }
}
