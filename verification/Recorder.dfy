/**
 The call recorder: chunks are buffered by RTP timestamp and written out in batches,
 and the header is patched when the recording is closed.

 File operations are taken to succeed; a file is a sequence of bytes.
 */
module Recorder {
  import opened Common
  import opened WavHeader
  import Pcm

  type Uint32 = x: int | 0 <= x < 0x1_0000_0000

  datatype Chunk = Chunk(ts: Uint32, data: seq<Byte>)

  // ------------------------------------------------------ what one flush should write

  /** The buffer after these writes: a later chunk replaces an earlier one with its timestamp. */
  function Buffered(writes: seq<Chunk>): map<Uint32, seq<Byte>>
  {
    if writes == [] then map[]
    else
      var last := writes[|writes| - 1];
      Buffered(writes[..|writes| - 1])[last.ts := last.data]
  }

  /** Nothing after position i has the same timestamp. */
  ghost predicate Final(writes: seq<Chunk>, i: nat)
    requires i < |writes|
  {
    forall j :: i < j < |writes| ==> writes[j].ts != writes[i].ts
  }

  /** The buffer holds exactly the chunks that were not superseded. */
  lemma {:induction false} BufferedIsFinal(writes: seq<Chunk>, ts: Uint32, data: seq<Byte>)
    ensures ts in Buffered(writes) && Buffered(writes)[ts] == data <==>
            exists i :: 0 <= i < |writes| && writes[i] == Chunk(ts, data) && Final(writes, i)
  {
    if writes != [] {
      var n := |writes| - 1;
      var init := writes[..n];
      BufferedIsFinal(init, ts, data);
      if i :| 0 <= i < |init| && init[i] == Chunk(ts, data) && Final(init, i) && writes[n].ts != ts {
        assert writes[i] == Chunk(ts, data) && Final(writes, i);
      }
      if i :| 0 <= i < |writes| && writes[i] == Chunk(ts, data) && Final(writes, i) {
        if i < n { assert init[i] == Chunk(ts, data) && Final(init, i); }
      }
      if writes[n] == Chunk(ts, data) { assert Final(writes, n); }
    }
  }

  ghost predicate Ascending(s: seq<Uint32>) { forall i, j :: 0 <= i < j < |s| ==> s[i] < s[j] }

  /** The chunks of the buffer for these timestamps, joined. */
  function Joined(m: map<Uint32, seq<Byte>>, ts: seq<Uint32>): seq<Byte>
    requires forall t :: t in ts ==> t in m
  {
    if ts == [] then [] else Joined(m, ts[..|ts| - 1]) + m[ts[|ts| - 1]]
  }

  /** One flush of this buffer writes each chunk once, in ascending order of timestamp. */
  ghost predicate InOrder(m: map<Uint32, seq<Byte>>, ts: seq<Uint32>)
  {
    Ascending(ts) && (forall t :: t in ts <==> t in m)
  }

  /** There is only one ascending order, so the bytes of a flush are determined. */
  lemma {:induction false} OrderIsUnique(a: seq<Uint32>, b: seq<Uint32>)
    requires Ascending(a) && Ascending(b) && forall t :: t in a <==> t in b
    ensures a == b
    decreases |a|
  {
    assert (a != [] ==> a[0] in a) && (b != [] ==> b[0] in b);
    if a != [] && b != [] {
      var x, y := a[|a| - 1], b[|b| - 1];
      assert x in a && y in b;
      assert x == y;
      var a', b' := a[..|a| - 1], b[..|b| - 1];
      forall t
        ensures t in a' <==> t in b'
      {
        assert t in a' <==> t in a && t != x;
        assert t in b' <==> t in b && t != y;
      }
      OrderIsUnique(a', b');
    }
  }

  lemma {:induction false} MinimumExists(keys: set<Uint32>) returns (m: Uint32)
    requires keys != {}
    ensures m in keys && forall k :: k in keys ==> m <= k
    decreases |keys|
  {
    var x :| x in keys;
    if keys == {x} {
      m := x;
    } else {
      var rest := keys - {x};
      assert keys == rest + {x} && rest != {};
      m := MinimumExists(rest);
      if x < m { m := x; }
    }
  }

  /** Stands for the library sort. */
  method SortTimestamps(keys: set<Uint32>) returns (ts: seq<Uint32>)
    ensures Ascending(ts) && forall t :: t in ts <==> t in keys
  {
    ts := [];
    var left := keys;
    while left != {}
      invariant Ascending(ts) && left <= keys
      invariant forall t :: t in keys <==> t in ts || t in left
      invariant forall i, t :: 0 <= i < |ts| && t in left ==> ts[i] < t
      decreases |left|
    {
      ghost var m := MinimumExists(left);
      var t :| t in left && forall k :: k in left ==> t <= k;
      ts := ts + [t];
      left := left - {t};
    }
  }

  function Taken(ts: seq<Uint32>, i: nat): set<Uint32>
    requires i <= |ts|
  {
    set t | t in ts[..i]
  }

  /** One turn of the flush loop: the next timestamp is still buffered and is the next to join. */
  lemma TakeNext(m: map<Uint32, seq<Byte>>, ts: seq<Uint32>, i: nat)
    requires i < |ts| && Ascending(ts) && forall t :: t in ts ==> t in m
    ensures ts[i] in m - Taken(ts, i)
    ensures m - Taken(ts, i) - {ts[i]} == m - Taken(ts, i + 1)
    ensures Joined(m, ts[..i + 1]) == Joined(m, ts[..i]) + m[ts[i]]
  {
    assert ts[..i + 1] == ts[..i] + [ts[i]];
    assert Taken(ts, i + 1) == Taken(ts, i) + {ts[i]};
    assert ts[..i + 1][..i] == ts[..i];
  }

  lemma WithinNext(chunks: seq<Chunk>, chunk: Chunk, since: Uint32, window: int)
    requires AllWithin(chunks, since, window) && (chunk.ts - since) % TWO32 <= window
    ensures AllWithin(chunks + [chunk], since, window)
  {
  }

  // -------------------------------------------------------------------- the recorder

  /** Go's integer division, which truncates towards zero. */
  function TruncatedFifth(n: int): (q: int)
    ensures n >= 0 ==> 5 * q <= n < 5 * q + 5
    ensures n <= 0 ==> 5 * q - 5 < n <= 5 * q
  {
    if n >= 0 then n / 5 else -((-n) / 5)
  }

  /** Every one of these chunks is at most this far after the timestamp. */
  ghost predicate AllWithin(chunks: seq<Chunk>, since: Uint32, window: int)
  {
    forall i :: 0 <= i < |chunks| ==> (chunks[i].ts - since) % TWO32 <= window
  }

  /** Each flush wrote what its epoch called for, in this order of timestamps. */
  ghost predicate Matches(epochs: seq<seq<Chunk>>, orders: seq<seq<Uint32>>, flushed: seq<seq<Byte>>)
  {
    && |flushed| == |epochs| == |orders|
    && forall k :: 0 <= k < |epochs| ==>
         InOrder(Buffered(epochs[k]), orders[k]) && flushed[k] == Joined(Buffered(epochs[k]), orders[k])
  }

  lemma MatchesNext(epochs: seq<seq<Chunk>>, orders: seq<seq<Uint32>>, flushed: seq<seq<Byte>>,
                    epoch: seq<Chunk>, order: seq<Uint32>, out: seq<Byte>)
    requires Matches(epochs, orders, flushed)
    requires InOrder(Buffered(epoch), order) && out == Joined(Buffered(epoch), order)
    ensures Matches(epochs + [epoch], orders + [order], flushed + [out])
  {
  }

  lemma FileGrows(head: seq<Byte>, flushed: seq<seq<Byte>>, out: seq<Byte>)
    ensures (head + Flatten(flushed)) + out == head + Flatten(flushed + [out])
    ensures |Flatten(flushed + [out])| == |Flatten(flushed)| + |out|
  {
    FlattenAppend(flushed, out);
  }

  class Recorder {
    const sampleRate: int
    const channels: int
    var file: seq<Byte>
    var buffer: map<Uint32, seq<Byte>>
    var nextFlushTs: Uint32
    var writtenBytes: nat
    var closed: bool
    var totalPackets: nat

    /** The writes of every finished flush, their order and what each put into the file; the writes since. */
    ghost var epochs: seq<seq<Chunk>>
    ghost var orders: seq<seq<Uint32>>
    ghost var flushed: seq<seq<Byte>>
    ghost var pending: seq<Chunk>

    /** The file is a header and the flushes in order; only a closed file has its size in the header. */
    ghost predicate Valid()
      reads this
    {
      && buffer == Buffered(pending)
      && writtenBytes == |Flatten(flushed)|
      && file == Header(channels, sampleRate, 16, if closed then writtenBytes else 0) + Flatten(flushed)
      && Matches(epochs, orders, flushed)
      && (closed ==> pending == [])
      && totalPackets == |pending| + |Flatten(epochs)|
    }

    /** Fewer than 50 chunks wait, each within a fifth of a second of timestamps after the last flush. */
    ghost predicate Current()
      reads this
    {
      |buffer| < 50 && AllWithin(pending, nextFlushTs, TruncatedFifth(sampleRate) % TWO32)
    }

    constructor (sampleRate: int, channels: int)
      ensures Valid() && Current() && !closed && epochs == [] && pending == []
      ensures this.sampleRate == sampleRate && this.channels == channels
    {
      this.sampleRate, this.channels := sampleRate, channels;
      file := Header(channels, sampleRate, 16, 0);
      buffer, nextFlushTs, writtenBytes, closed, totalPackets := map[], 0, 0, false, 0;
      epochs, orders, flushed, pending := [], [], [], [];
    }

    /** Every accepted write, in order of arrival. */
    ghost function Log(): seq<Chunk>
      reads `epochs, `pending
    {
      Flatten(epochs) + pending
    }

    /** Append the buffered chunks to the file in timestamp order. */
    method WriteOut() returns (ghost order: seq<Uint32>, ghost out: seq<Byte>)
      modifies `file, `buffer, `writtenBytes
      ensures buffer == map[] && InOrder(old(buffer), order) && out == Joined(old(buffer), order)
      ensures file == old(file) + out && writtenBytes == old(writtenBytes) + |out|
    {
      var timestamps := SortTimestamps(buffer.Keys);
      ghost var all := buffer;
      out := [];
      for i := 0 to |timestamps|
        invariant out == Joined(all, timestamps[..i])
        invariant file == old(file) + out && writtenBytes == old(writtenBytes) + |out|
        invariant buffer == all - Taken(timestamps, i)
      {
        var ts := timestamps[i];
        TakeNext(all, timestamps, i);
        var data := buffer[ts];
        file := file + data;
        writtenBytes := writtenBytes + |data|;
        buffer := buffer - {ts};
        out := out + data;
      }
      assert timestamps[..|timestamps|] == timestamps;
      order := timestamps;
    }

    /** Everything pending goes to the file as one flush. */
    method FlushPending()
      requires Valid() && !closed && pending != []
      modifies `file, `buffer, `writtenBytes, `epochs, `orders, `flushed, `pending
      ensures Valid() && pending == [] && Log() == old(Log()) && epochs == old(epochs) + [old(pending)]
    {
      ghost var order, out := WriteOut();
      MatchesNext(epochs, orders, flushed, pending, order, out);
      FileGrows(Header(channels, sampleRate, 16, 0), flushed, out);
      FlattenAppend(epochs, pending);
      epochs, orders, flushed, pending := epochs + [pending], orders + [order], flushed + [out], [];
    }

    /** End the epoch, if anything was written in it. */
    method Flush()
      requires Valid() && !closed
      modifies `file, `buffer, `writtenBytes, `epochs, `orders, `flushed, `pending
      ensures Valid() && pending == [] && Log() == old(Log())
      ensures epochs == if old(pending) == [] then old(epochs) else old(epochs) + [old(pending)]
    {
      EmptyBuffer(pending);
      if buffer == map[] {
        return;
      }
      FlushPending();
    }

    method Enqueue(chunk: Chunk)
      requires Valid() && !closed
      modifies `buffer, `totalPackets, `pending
      ensures Valid() && pending == old(pending) + [chunk] && Log() == old(Log()) + [chunk]
      ensures buffer == old(buffer)[chunk.ts := chunk.data]
    {
      assert (pending + [chunk])[..|pending|] == pending;
      assert Flatten(epochs) + (pending + [chunk]) == (Flatten(epochs) + pending) + [chunk];
      pending := pending + [chunk];
      buffer := buffer[chunk.ts := chunk.data];
      totalPackets := totalPackets + 1;
    }

    /** 50 chunks are waiting, or more than a fifth of a second of timestamps has passed. */
    predicate Due(buffered: nat, ts: Uint32, since: Uint32)
    {
      buffered >= 50 || (ts - since) % TWO32 > TruncatedFifth(sampleRate) % TWO32
    }

    /** For timestamps in order it is time exactly at 50 chunks or past a fifth of a second. */
    lemma DueInOrder(buffered: nat, ts: Uint32, since: Uint32)
      requires 0 <= sampleRate < TWO32 && since <= ts
      ensures Due(buffered, ts, since) <==> buffered >= 50 || 5 * (ts - since) > sampleRate
    {
      assert (ts - since) % TWO32 == ts - since;
    }

    /** A timestamp before the last flush counts as far ahead of it, so it is flushed at once. */
    lemma LateIsDue(buffered: nat, ts: Uint32, since: Uint32)
      requires ts < since && since - ts < TWO32 - TruncatedFifth(sampleRate) % TWO32
      ensures Due(buffered, ts, since)
    {
      assert (ts - since) % TWO32 == ts - since + TWO32;
    }

    /** Buffer a chunk, and flush when it is time. */
    method Write(ts: Uint32, data: seq<Byte>) returns (ok: bool)
      requires Valid() && Current()
      modifies this
      ensures Valid() && Current() && closed == old(closed) && ok == !closed
      ensures !ok ==> file == old(file) && Log() == old(Log()) && epochs == old(epochs)
      ensures ok ==> Log() == old(Log()) + [Chunk(ts, data)]
      ensures ok ==>
                var due := Due(|old(buffer)[ts := data]|, ts, old(nextFlushTs));
                && epochs == old(epochs) + (if due then [old(pending) + [Chunk(ts, data)]] else [])
                && nextFlushTs == (if due then ts else old(nextFlushTs))
    {
      if closed {
        return false;
      }
      Enqueue(Chunk(ts, data));
      if Due(|buffer|, ts, nextFlushTs) {
        FlushAt(ts);
      } else {
        WithinNext(old(pending), Chunk(ts, data), nextFlushTs, TruncatedFifth(sampleRate) % TWO32);
      }
      return true;
    }

    /** Flush, and count the time from here on. */
    method FlushAt(ts: Uint32)
      requires Valid() && !closed && pending != []
      modifies `file, `buffer, `writtenBytes, `epochs, `orders, `flushed, `pending, `nextFlushTs
      ensures Valid() && Current() && Log() == old(Log())
      ensures epochs == old(epochs) + [old(pending)] && nextFlushTs == ts
    {
      Flush();
      nextFlushTs := ts;
    }

    /** Write the header again, now with the size. */
    method PatchHeader()
      requires Valid() && !closed && pending == []
      modifies `file, `closed
      ensures Valid() && closed
    {
      ghost var data := Flatten(flushed);
      assert file[44..] == data;
      closed := true;
      file := Header(channels, sampleRate, 16, writtenBytes) + file[44..];
    }

    /** Flush the rest and put the size into the header; a second close does nothing. */
    method Close()
      requires Valid() && Current()
      modifies this
      ensures Valid() && Current() && closed && Log() == old(Log())
      ensures old(closed) ==> file == old(file)
      ensures |Flatten(flushed)| < TWO32 ==>
                Pcm.DecodeWav(file) ==
                Pcm.Decoded(sampleRate % TWO32, channels % TWO16, Pcm.FromBytes(Flatten(flushed)))
      ensures Ascending(Flatten(orders)) <==> NoneLate(epochs)
    {
      if !closed {
        Flush();
        PatchHeader();
      }
      Pcm.DecodesAllExactly(channels, sampleRate, Flatten(flushed));
      FileAscendsExactly(epochs, orders, flushed);
    }
  }

  // ------------------------------------------------------------------- order of the file

  /** Every timestamp of one list is before every timestamp of the other. */
  ghost predicate AllBefore(a: seq<Uint32>, b: seq<Uint32>) { forall x, y :: x in a && y in b ==> x < y }

  ghost predicate AllEarlier(a: seq<Chunk>, b: seq<Chunk>) { forall c, d :: c in a && d in b ==> c.ts < d.ts }

  /** No write has a timestamp at or before one that was flushed earlier. */
  ghost predicate NoneLate(epochs: seq<seq<Chunk>>)
  {
    forall k, l :: 0 <= k < l < |epochs| ==> AllEarlier(epochs[k], epochs[l])
  }

  ghost predicate Staggered(orders: seq<seq<Uint32>>)
  {
    forall k, l :: 0 <= k < l < |orders| ==> AllBefore(orders[k], orders[l])
  }

  lemma {:induction false} BufferedTimestamps(writes: seq<Chunk>, t: Uint32)
    ensures t in Buffered(writes) <==> exists c :: c in writes && c.ts == t
  {
    if writes != [] {
      var n := |writes| - 1;
      BufferedTimestamps(writes[..n], t);
      assert forall c :: c in writes <==> c in writes[..n] || c == writes[n];
    }
  }

  lemma AscendingParts(a: seq<Uint32>, b: seq<Uint32>)
    requires Ascending(a + b)
    ensures Ascending(a) && Ascending(b) && AllBefore(a, b)
  {
    var s := a + b;
    assert forall i :: 0 <= i < |a| ==> a[i] == s[i];
    assert forall j :: 0 <= j < |b| ==> b[j] == s[|a| + j];
    forall x, y | x in a && y in b ensures x < y {
      var i :| 0 <= i < |a| && a[i] == x;
      var j :| 0 <= j < |b| && b[j] == y;
      assert s[i] < s[|a| + j];
    }
  }

  lemma AscendingWhole(a: seq<Uint32>, b: seq<Uint32>)
    requires Ascending(a) && Ascending(b) && AllBefore(a, b)
    ensures Ascending(a + b)
  {
    var s := a + b;
    forall i, j | 0 <= i < j < |s| ensures s[i] < s[j] {
      if i < |a| <= j { assert s[i] in a && s[j] in b; }
    }
  }

  lemma {:induction false} BeforeFlatten(a: seq<Uint32>, parts: seq<seq<Uint32>>)
    ensures AllBefore(a, Flatten(parts)) <==> forall l :: 0 <= l < |parts| ==> AllBefore(a, parts[l])
  {
    if parts != [] {
      BeforeFlatten(a, parts[1..]);
      assert forall l :: 0 <= l < |parts| - 1 ==> parts[1..][l] == parts[l + 1];
      BeforeConcat(a, parts[0], Flatten(parts[1..]));
      if forall l :: 0 <= l < |parts[1..]| ==> AllBefore(a, parts[1..][l]) {
        forall l | 0 < l < |parts| ensures AllBefore(a, parts[l]) { assert parts[l] == parts[1..][l - 1]; }
      }
    }
  }

  lemma BeforeConcat(a: seq<Uint32>, b: seq<Uint32>, c: seq<Uint32>)
    ensures AllBefore(a, b + c) <==> AllBefore(a, b) && AllBefore(a, c)
  {
    assert forall y :: y in b + c <==> y in b || y in c;
  }

  lemma StaggeredCons(orders: seq<seq<Uint32>>)
    requires orders != []
    ensures var rest := orders[1..];
            Staggered(orders) <==> Staggered(rest) && forall l :: 0 <= l < |rest| ==> AllBefore(orders[0], rest[l])
  {
    var rest := orders[1..];
    if Staggered(orders) {
      forall k, l | 0 <= k < l < |rest| ensures AllBefore(rest[k], rest[l]) {
        assert AllBefore(orders[k + 1], orders[l + 1]);
      }
      forall l | 0 <= l < |rest| ensures AllBefore(orders[0], rest[l]) {
        assert AllBefore(orders[0], orders[l + 1]);
      }
    }
    if Staggered(rest) && forall l :: 0 <= l < |rest| ==> AllBefore(orders[0], rest[l]) {
      forall k, l | 0 <= k < l < |orders| ensures AllBefore(orders[k], orders[l]) {
        assert orders[l] == rest[l - 1];
        if k > 0 { assert AllBefore(rest[k - 1], rest[l - 1]); }
      }
    }
  }

  lemma {:induction false} FlattenAscends(orders: seq<seq<Uint32>>)
    requires forall k :: 0 <= k < |orders| ==> Ascending(orders[k])
    ensures Ascending(Flatten(orders)) <==> Staggered(orders)
  {
    if orders != [] {
      var rest := orders[1..];
      FlattenAscends(rest);
      BeforeFlatten(orders[0], rest);
      StaggeredCons(orders);
      if Ascending(Flatten(orders)) { AscendingParts(orders[0], Flatten(rest)); }
      if Staggered(orders) { AscendingWhole(orders[0], Flatten(rest)); }
    }
  }

  /** An epoch's timestamps are those of its writes. */
  lemma BeforeIsEarlier(a: seq<Chunk>, ta: seq<Uint32>, b: seq<Chunk>, tb: seq<Uint32>)
    requires InOrder(Buffered(a), ta) && InOrder(Buffered(b), tb)
    ensures AllBefore(ta, tb) <==> AllEarlier(a, b)
  {
    forall t ensures t in ta <==> exists c :: c in a && c.ts == t { BufferedTimestamps(a, t); }
    forall t ensures t in tb <==> exists c :: c in b && c.ts == t { BufferedTimestamps(b, t); }
    if AllBefore(ta, tb) {
      forall c, d | c in a && d in b ensures c.ts < d.ts { assert c.ts in ta && d.ts in tb; }
    }
  }

  /**
   The chunks stand in the file in order of their timestamps exactly when no write came with
   a timestamp at or before one already flushed.
   */
  lemma FileAscendsExactly(epochs: seq<seq<Chunk>>, orders: seq<seq<Uint32>>, flushed: seq<seq<Byte>>)
    requires Matches(epochs, orders, flushed)
    ensures Ascending(Flatten(orders)) <==> NoneLate(epochs)
  {
    FlattenAscends(orders);
    forall k, l | 0 <= k < l < |epochs|
      ensures AllBefore(orders[k], orders[l]) <==> AllEarlier(epochs[k], epochs[l])
    {
      BeforeIsEarlier(epochs[k], orders[k], epochs[l], orders[l]);
    }
  }

  /**
   What a flush puts into the file: the timestamps it writes are strictly ascending, and a
   write is among them exactly when no later write before that flush had its timestamp.
   */
  lemma FlushWritesEachFinalChunkOnce(writes: seq<Chunk>, order: seq<Uint32>)
    requires InOrder(Buffered(writes), order)
    ensures forall i :: 0 <= i < |writes| ==>
              (Final(writes, i) <==> writes[i].ts in order && Survives(writes, i))
    ensures forall t :: t in order ==> exists i :: Survives(writes, i) && writes[i].ts == t
  {
    forall i | 0 <= i < |writes|
      ensures Final(writes, i) <==> writes[i].ts in order && Survives(writes, i)
    {
      BufferedIsFinal(writes, writes[i].ts, writes[i].data);
    }
    forall t | t in order
      ensures exists i :: Survives(writes, i) && writes[i].ts == t
    {
      BufferedIsFinal(writes, t, Buffered(writes)[t]);
      var i :| 0 <= i < |writes| && writes[i] == Chunk(t, Buffered(writes)[t]) && Final(writes, i);
      assert Survives(writes, i);
    }
  }

  /** The write is the last with its timestamp, and its data is what is buffered. */
  ghost predicate Survives(writes: seq<Chunk>, i: int)
  {
    0 <= i < |writes| && Final(writes, i) && writes[i].ts in Buffered(writes)
    && Buffered(writes)[writes[i].ts] == writes[i].data
  }

  lemma EmptyBuffer(writes: seq<Chunk>)
    ensures writes != [] ==> Buffered(writes) != map[]
  {
    if writes != [] { assert writes[|writes| - 1].ts in Buffered(writes); }
  }
}
