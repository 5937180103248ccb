/**
 The batch accumulator's run loop as a machine whose steps are the cases of its
 select: an item arrives, a flush is asked for, the timer fires, or it is closed.

 The handler and the context are the environment: for every flush they may answer
 in any way. Nothing is claimed about when the timer fires.
 */
module Batch {
  import opened Common

  type Error = string

  /**
   How the environment answers attempt k of a flush: the handler's result, and whether the wait after
   a failure is cut short.
   */
  datatype Answer = Answer(failure: Option<Error>, cancelled: Option<Error>)

  type Environment = nat -> Answer

  datatype Outcome =
    | Completed(attempts: nat, error: Option<Error>)
    | Aborted(attempts: nat, error: Option<Error>)

  /** The retry loop from attempt k on. */
  function Retry(env: Environment, maxRetry: nat, k: nat): (o: Outcome)
    requires k <= maxRetry
    ensures k < o.attempts <= maxRetry + 1
    decreases maxRetry - k
  {
    if env(k).failure.None? then Completed(k + 1, None)
    else if k == maxRetry then Completed(k + 1, env(k).failure)
    else if env(k).cancelled.Some? then Aborted(k + 1, env(k).cancelled)
    else Retry(env, maxRetry, k + 1)
  }

  /**
   What the loop amounts to: every attempt but the last failed and was waited out; it
   ends without error exactly when the last attempt succeeded, gives up only after
   maxRetry+1 attempts, and aborts only when a wait was cut short.
   */
  lemma {:induction false} RetryMeaning(env: Environment, maxRetry: nat, k: nat)
    requires k <= maxRetry
    ensures var o := Retry(env, maxRetry, k);
            var last := o.attempts - 1;
            && (forall j :: k <= j < last ==> env(j).failure.Some? && env(j).cancelled.None?)
            && (o.error.None? <==> env(last).failure.None?)
            && (o.Completed? && o.error.Some? ==> o.attempts == maxRetry + 1 && o.error == env(last).failure)
            && (o.Aborted? ==> o.attempts <= maxRetry && env(last).failure.Some? && o.error == env(last).cancelled)
    decreases maxRetry - k
  {
    if env(k).failure.Some? && k < maxRetry && env(k).cancelled.None? {
      RetryMeaning(env, maxRetry, k + 1);
    }
  }

  function Repeat<T>(x: T, n: nat): seq<T> { seq(n, _ => x) }

  datatype Event<T> =
    | Item(item: T, env: Environment)
    | Flush(env: Environment)       // flushCh, flushWaitCh and timerC all flush
    | Close(drained: seq<(T, Environment)>, env: Environment)

  class Accumulator<T(==)> {
    const maxSize: nat
    const maxBytes: int
    const sizeOf: Option<T -> int>
    const maxRetry: nat

    var buffer: seq<T>
    var currentBytes: int
    var pendingCount: int
    var pendingBytes: int
    var flushCount: nat
    var errCount: nat
    var itemCount: nat
    var lastErr: Option<Error>

    /** All items taken from the channel; the batches formed, with the number of tries of each; the handler's calls. */
    ghost var received: seq<T>
    ghost var batches: seq<seq<T>>
    ghost var tries: seq<nat>
    ghost var calls: seq<seq<T>>
    /** Flushes that ended early, the items in them, and the bytes taken by the closing drain. */
    ghost var aborted: nat
    ghost var abortedItems: nat
    ghost var drainedBytes: int

    function Size(item: T): int { if sizeOf.Some? then sizeOf.value(item) else 0 }

    function Bytes(items: seq<T>): int
    {
      if items == [] then 0 else Bytes(items[..|items| - 1]) + Size(items[|items| - 1])
    }

    /** These items call for no flush. */
    predicate Open(items: seq<T>)
    {
      |items| < maxSize && (maxBytes > 0 && sizeOf.Some? ==> Bytes(items) < maxBytes)
    }

    /** Bytes add up item by item; without a size function there are none. */
    lemma {:induction false} BytesAddUp(a: seq<T>, b: seq<T>)
      ensures Bytes(a + b) == Bytes(a) + Bytes(b)
      ensures sizeOf.None? ==> Bytes(a) == 0
      ensures |a| == 1 && sizeOf.Some? ==> Bytes(a) == sizeOf.value(a[0])
      decreases |b|, |a|
    {
      if b == [] {
        assert a + b == a;
        if a != [] {
          BytesAddUp(a[..|a| - 1], []);
          assert a[..|a| - 1] + [] == a[..|a| - 1];
        }
      } else {
        var n := |b| - 1;
        BytesAddUp(a, b[..n]);
        assert (a + b)[..|a| + n] == a + b[..n];
      }
    }

    /** A byte limit that is not positive, or that nothing is measured against, does not count. */
    lemma ByteLimitIsOptional(items: seq<T>)
      requires maxBytes <= 0 || sizeOf.None?
      ensures Open(items) <==> |items| < maxSize
    {
    }

    /** At no point while these items came in was a flush called for. */
    ghost predicate AlwaysOpen(items: seq<T>)
    {
      forall k {:trigger Open(items[..k])} :: 0 <= k <= |items| ==> Open(items[..k])
    }

    /** A batch is non-empty and was below both limits until its last item. */
    ghost predicate WellFormed(batch: seq<T>)
    {
      batch != [] && AlwaysOpen(batch[..|batch| - 1])
    }

    /** A batch never exceeds maxSize, and all but its last item stay under maxBytes. */
    lemma BatchLimits(batch: seq<T>)
      requires WellFormed(batch)
      ensures 1 <= |batch| <= maxSize
      ensures maxBytes > 0 && sizeOf.Some? ==> Bytes(batch[..|batch| - 1]) < maxBytes
    {
      var all := batch[..|batch| - 1];
      assert all[..|all|] == all;
      assert Open(all[..|all|]);
    }

    function Expand(bs: seq<seq<T>>, ns: seq<nat>): seq<seq<T>>
      requires |bs| == |ns|
    {
      if bs == [] then [] else Expand(bs[..|bs| - 1], ns[..|ns| - 1]) + Repeat(bs[|bs| - 1], ns[|ns| - 1])
    }

    /** Nothing lost, nothing repeated, nothing out of order. */
    ghost predicate Ledger(received: seq<T>, buffer: seq<T>, batches: seq<seq<T>>, tries: seq<nat>, calls: seq<seq<T>>)
    {
      && Flatten(batches) + buffer == received
      && (forall i {:trigger WellFormed(batches[i])} :: 0 <= i < |batches| ==> WellFormed(batches[i]))
      && |tries| == |batches| && (forall i :: 0 <= i < |tries| ==> 1 <= tries[i] <= maxRetry + 1)
      && calls == Expand(batches, tries)
    }

    lemma LedgerFlush(received: seq<T>, buffer: seq<T>, batches: seq<seq<T>>, tries: seq<nat>,
                      calls: seq<seq<T>>, n: nat)
      requires Ledger(received, buffer, batches, tries, calls)
      requires WellFormed(buffer) && 1 <= n <= maxRetry + 1
      ensures Ledger(received, [], batches + [buffer], tries + [n], calls + Repeat(buffer, n))
    {
      FlattenAppend(batches, buffer);
      var bs, ns := batches + [buffer], tries + [n];
      assert bs[..|bs| - 1] == batches && ns[..|ns| - 1] == tries;
      assert Flatten(bs) + [] == received;
    }

    lemma LedgerItem(received: seq<T>, buffer: seq<T>, batches: seq<seq<T>>, tries: seq<nat>,
                     calls: seq<seq<T>>, item: T)
      requires Ledger(received, buffer, batches, tries, calls)
      ensures Ledger(received + [item], buffer + [item], batches, tries, calls)
    {
      assert Flatten(batches) + (buffer + [item]) == (Flatten(batches) + buffer) + [item];
    }

    ghost predicate Conserved()
      reads this
    {
      Ledger(received, buffer, batches, tries, calls)
    }

    ghost predicate Counted()
      reads this
    {
      && currentBytes == Bytes(buffer)
      && pendingCount == |buffer|
      && pendingBytes == Bytes(buffer) - drainedBytes
      && flushCount + aborted == |batches|
      && itemCount + abortedItems + |buffer| == |received|
      && errCount <= flushCount
    }

    ghost predicate Valid()
      reads this
    {
      maxSize > 0 && Conserved() && Counted() && AlwaysOpen(buffer)
    }

    constructor (maxSize: nat, maxBytes: int, sizeOf: Option<T -> int>, maxRetry: nat)
      requires maxSize > 0
      ensures Valid() && received == [] && drainedBytes == 0
      ensures this.maxSize == maxSize && this.maxBytes == maxBytes && this.sizeOf == sizeOf && this.maxRetry == maxRetry
    {
      this.maxSize, this.maxBytes, this.sizeOf, this.maxRetry := maxSize, maxBytes, sizeOf, maxRetry;
      buffer, currentBytes, pendingCount, pendingBytes := [], 0, 0, 0;
      flushCount, errCount, itemCount, lastErr := 0, 0, 0, None;
      received, batches, tries, calls := [], [], [], [];
      aborted, abortedItems, drainedBytes := 0, 0, 0;
    }

    /** The handler is tried until it succeeds, the retries are used up, or the wait is cut short. */
    method CallHandler(items: seq<T>, env: Environment) returns (o: Outcome)
      modifies `calls
      ensures o == Retry(env, maxRetry, 0)
      ensures calls == old(calls) + Repeat(items, o.attempts)
    {
      var attempt := 0;
      while true
        invariant attempt <= maxRetry
        invariant Retry(env, maxRetry, 0) == Retry(env, maxRetry, attempt)
        invariant calls == old(calls) + Repeat(items, attempt)
        decreases maxRetry - attempt
      {
        calls := calls + [items];
        assert Repeat(items, attempt + 1) == Repeat(items, attempt) + [items];
        var answer := env(attempt);
        if answer.failure.None? {
          return Completed(attempt + 1, None);
        }
        if attempt == maxRetry {
          return Completed(attempt + 1, answer.failure);
        }
        if answer.cancelled.Some? {
          return Aborted(attempt + 1, answer.cancelled);
        }
        attempt := attempt + 1;
      }
    }

    /** Hand a non-empty buffer over as one batch. An aborted flush is not counted and its error is not kept. */
    method FlushBuffer(env: Environment) returns (o: Outcome)
      requires Conserved() && Counted() && WellFormed(buffer)
      modifies this
      ensures Conserved() && Counted() && buffer == []
      ensures received == old(received) && drainedBytes == old(drainedBytes)
      ensures o == Retry(env, maxRetry, 0)
      ensures batches == old(batches) + [old(buffer)] && tries == old(tries) + [o.attempts]
      ensures lastErr == (if o.Completed? && o.error.Some? then o.error else old(lastErr))
      ensures flushCount == old(flushCount) + (if o.Completed? then 1 else 0)
    {
      var items := TakeBuffer();
      o := CallHandler(items, env);
      LedgerFlush(received, items, batches, tries, old(calls), o.attempts);
      Settle(items, o);
    }

    /** Flush whatever is buffered. */
    method DoFlush(env: Environment) returns (err: Option<Error>)
      requires maxSize > 0 && Conserved() && Counted() && (buffer != [] ==> WellFormed(buffer))
      modifies this
      ensures Valid() && buffer == []
      ensures received == old(received) && drainedBytes == old(drainedBytes)
      ensures old(buffer) == [] ==> err == None && lastErr == old(lastErr) && batches == old(batches)
      ensures old(buffer) != [] ==>
                var o := Retry(env, maxRetry, 0);
                && err == o.error
                && batches == old(batches) + [old(buffer)] && tries == old(tries) + [o.attempts]
                && lastErr == (if o.Completed? && o.error.Some? then o.error else old(lastErr))
                && flushCount == old(flushCount) + (if o.Completed? then 1 else 0)
    {
      if buffer == [] {
        return None;
      }
      var o := FlushBuffer(env);
      return o.error;
    }

    /** Empty the buffer and lower the pending counters by what it held. */
    method TakeBuffer() returns (items: seq<T>)
      modifies `buffer, `currentBytes, `pendingCount, `pendingBytes
      ensures items == old(buffer) && buffer == [] && currentBytes == 0
      ensures pendingCount == old(pendingCount) - |items| && pendingBytes == old(pendingBytes) - old(currentBytes)
    {
      items := buffer;
      var oldBytes := currentBytes;
      buffer, currentBytes := [], 0;
      pendingCount := pendingCount - |items|;
      pendingBytes := pendingBytes - oldBytes;
    }

    /** Book the result of a flush. An aborted one returns before it is booked. */
    method Settle(items: seq<T>, o: Outcome)
      modifies `flushCount, `itemCount, `lastErr, `errCount, `batches, `tries, `aborted, `abortedItems
      ensures batches == old(batches) + [items] && tries == old(tries) + [o.attempts]
      ensures lastErr == (if o.Completed? && o.error.Some? then o.error else old(lastErr))
      ensures flushCount == old(flushCount) + (if o.Completed? then 1 else 0)
      ensures errCount == old(errCount) + (if o.Completed? && o.error.Some? then 1 else 0)
      ensures itemCount == old(itemCount) + (if o.Completed? then |items| else 0)
      ensures aborted == old(aborted) + (if o.Aborted? then 1 else 0)
      ensures abortedItems == old(abortedItems) + (if o.Aborted? then |items| else 0)
    {
      batches, tries := batches + [items], tries + [o.attempts];
      if o.Aborted? {
        aborted, abortedItems := aborted + 1, abortedItems + |items|;
        return;
      }
      flushCount := flushCount + 1;
      itemCount := itemCount + |items|;
      if o.error.Some? {
        lastErr := o.error;
        errCount := errCount + 1;
      }
    }

    /** Append an item; a draining loop does not add to pendingBytes. */
    method Append(item: T, draining: bool)
      requires Conserved() && Counted()
      modifies `buffer, `received, `currentBytes, `pendingBytes, `pendingCount, `drainedBytes
      ensures Conserved() && Counted()
      ensures buffer == old(buffer) + [item] && received == old(received) + [item]
      ensures drainedBytes == old(drainedBytes) + (if draining then Size(item) else 0)
    {
      LedgerItem(received, buffer, batches, tries, calls, item);
      assert (buffer + [item])[..|buffer|] == buffer;
      buffer := buffer + [item];
      received := received + [item];
      if sizeOf.Some? {
        var sz := sizeOf.value(item);
        currentBytes := currentBytes + sz;
        if !draining {
          pendingBytes := pendingBytes + sz;
        }
      }
      drainedBytes := drainedBytes + (if draining then Size(item) else 0);
      pendingCount := pendingCount + 1;
    }

    /** What an item leaves in the buffer: nothing when it reaches a limit. */
    function AfterTaking(items: seq<T>, item: T): seq<T>
    {
      if Open(items + [item]) then items + [item] else []
    }

    /** What is left in the buffer after these items. */
    function LeftAfter(buffer: seq<T>, items: seq<T>): seq<T>
    {
      if items == [] then buffer else AfterTaking(LeftAfter(buffer, items[..|items| - 1]), items[|items| - 1])
    }

    /** Append an item, and flush exactly when a limit is reached. */
    method Take(item: T, env: Environment, draining: bool)
      requires Valid()
      modifies this
      ensures Valid() && received == old(received) + [item]
      ensures drainedBytes == old(drainedBytes) + (if draining then Size(item) else 0)
      ensures buffer == AfterTaking(old(buffer), item)
      ensures batches == old(batches) + (if Open(old(buffer) + [item]) then [] else [old(buffer) + [item]])
    {
      Append(item, draining);
      if |buffer| >= maxSize || (maxBytes > 0 && sizeOf.Some? && currentBytes >= maxBytes) {
        assert buffer[..|buffer| - 1] == old(buffer);
        var _ := DoFlush(env);
      } else {
        OpenExtends(old(buffer), item);
      }
    }

    lemma OpenExtends(items: seq<T>, item: T)
      requires AlwaysOpen(items) && Open(items + [item])
      ensures AlwaysOpen(items + [item])
    {
      var s := items + [item];
      forall k | 0 <= k <= |s| ensures Open(s[..k]) {
        if k <= |items| {
          assert Open(items[..k]) && s[..k] == items[..k];
        } else {
          assert s[..k] == s;
        }
      }
    }

    lemma OpenIsWellFormed(items: seq<T>)
      requires AlwaysOpen(items)
      ensures items != [] ==> WellFormed(items)
    {
      if items != [] {
        var init := items[..|items| - 1];
        forall k | 0 <= k <= |init| ensures Open(init[..k]) {
          assert Open(items[..k]) && init[..k] == items[..k];
        }
      }
    }

    /** Drain the channel, flush what is left and stop. The reported error is that of this last flush alone. */
    method DoClose(drained: seq<(T, Environment)>, env: Environment)
      requires Valid()
      modifies this
      ensures Valid() && buffer == []
      ensures received == old(received) + Items(drained)
      ensures drainedBytes == old(drainedBytes) + Bytes(Items(drained))
      ensures lastErr == if LeftAfter(old(buffer), Items(drained)) == [] then None else Retry(env, maxRetry, 0).error
    {
      Drain(drained);
      OpenIsWellFormed(buffer);
      var err := DoFlush(env);
      lastErr := err;
    }

    /** Take everything that is still in the channel. */
    method Drain(drained: seq<(T, Environment)>)
      requires Valid()
      modifies this
      ensures Valid() && received == old(received) + Items(drained)
      ensures drainedBytes == old(drainedBytes) + Bytes(Items(drained))
      ensures buffer == LeftAfter(old(buffer), Items(drained))
    {
      for i := 0 to |drained|
        invariant Valid() && received == old(received) + Items(drained[..i])
        invariant drainedBytes == old(drainedBytes) + Bytes(Items(drained[..i]))
        invariant buffer == LeftAfter(old(buffer), Items(drained[..i]))
      {
        Take(drained[i].0, drained[i].1, true);
        assert drained[..i + 1][..i] == drained[..i];
        assert Items(drained[..i + 1])[..i] == Items(drained[..i]);
      }
      assert drained[..|drained|] == drained;
    }

    function Items(drained: seq<(T, Environment)>): (items: seq<T>)
      ensures |items| == |drained|
    {
      seq(|drained|, i requires 0 <= i < |drained| => drained[i].0)
    }

    /** The items an event script brings in, up to and including the close. */
    ghost function Arriving(events: seq<Event<T>>): seq<T>
    {
      if events == [] then []
      else match events[0]
        case Item(item, _) => [item] + Arriving(events[1..])
        case Flush(_) => Arriving(events[1..])
        case Close(drained, _) => Items(drained)
    }

    ghost function DrainedAtClose(events: seq<Event<T>>): seq<T>
    {
      if events == [] then []
      else if events[0].Close? then Items(events[0].drained)
      else DrainedAtClose(events[1..])
    }

    /**
     The run loop on any script. Items are conserved throughout; once closed, the batches
     are exactly the items in order, and pendingBytes is off by the bytes of the drain.
     */
    method Run(events: seq<Event<T>>) returns (closed: bool)
      requires Valid() && received == [] && drainedBytes == 0
      modifies this
      ensures Valid() && received == Arriving(events)
      ensures closed <==> exists i :: 0 <= i < |events| && events[i].Close?
      ensures !closed ==> pendingBytes == Bytes(buffer)
      ensures closed ==> Flatten(batches) == Arriving(events) && buffer == [] && pendingCount == 0
      ensures closed ==> pendingBytes == -Bytes(DrainedAtClose(events))
    {
      closed := false;
      var i := 0;
      assert events[0..] == events && [] + Arriving(events) == Arriving(events);
      while i < |events|
        invariant 0 <= i <= |events| && Valid() && drainedBytes == 0
        invariant Arriving(events) == received + Arriving(events[i..])
        invariant DrainedAtClose(events) == DrainedAtClose(events[i..])
        invariant forall k :: 0 <= k < i ==> !events[k].Close?
      {
        assert events[i..][1..] == events[i + 1..];
        match events[i] {
          case Item(item, env) =>
            Take(item, env, false);
          case Flush(env) =>
            OpenIsWellFormed(buffer);
            var _ := DoFlush(env);
          case Close(drained, env) =>
            DoClose(drained, env);
            assert Flatten(batches) + [] == Flatten(batches);
            return true;
        }
        i := i + 1;
      }
      assert events[i..] == [];
    }
  }
}
