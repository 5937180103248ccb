/**
 The RTP jitter buffer: a ring of slots indexed by a 16-bit sequence number.

 The ring is compared with a reference player that works on unbounded sequence
 numbers, where nothing can collide or wrap. A capacity is lossless when the two
 agree on every run whose writes stay inside the window the buffer advertises.
 */
module Jitter {
  import opened Common
  import opened Arithmetic

  const SEQ_SPACE := 65536

  type Uint16 = x: int | 0 <= x < 65536

  /** Go's conversion to int16. */
  function Int16(x: int): (r: int)
    ensures -32768 <= r < 32768 && (r - x) % SEQ_SPACE == 0
  {
    var u := x % SEQ_SPACE;
    if u < 32768 then u else u - SEQ_SPACE
  }

  // ------------------------------------------------------------------ the ring

  datatype Slot<P> = Slot(sn: Uint16, packet: Option<P>, filled: bool)

  datatype Ring<P> = Ring(
    slots: seq<Slot<P>>,
    nextSeq: Uint16,
    nextWriteSeq: Uint16,
    lateDrops: nat,
    totalPackets: nat)

  datatype Op<P> = Write(sn: Uint16, packet: Option<P>) | Read

  /** What a caller sees: whether a write was taken, or what a read returned. */
  datatype Seen<P> = Accepted(ok: bool) | Returned(packet: Option<P>)

  function EmptyRing<P>(capacity: nat): Ring<P>
  {
    Ring(seq(capacity, _ => Slot(0, None, false)), 0, 0, 0, 0)
  }

  /** The negated capacity as the late check computes it in int16. */
  function LateBound(capacity: nat): int { Int16(-Int16(capacity)) }

  function WriteStep<P>(r: Ring<P>, sn: Uint16, packet: Option<P>): (Ring<P>, bool)
    requires |r.slots| > 0
  {
    var idx := sn % |r.slots|;
    var slot := r.slots[idx];
    var diff := Int16(sn - r.nextWriteSeq);
    if slot.filled && slot.sn == sn then (r, false)
    else if diff < LateBound(|r.slots|) then (r.(lateDrops := r.lateDrops + 1), false)
    else (r.(slots := r.slots[idx := Slot(sn, packet, true)],
             totalPackets := r.totalPackets + 1,
             nextWriteSeq := if diff >= 0 then (sn + 1) % SEQ_SPACE else r.nextWriteSeq), true)
  }

  function ReadStep<P>(r: Ring<P>): (Ring<P>, Option<P>)
    requires |r.slots| > 0
  {
    var idx := r.nextSeq % |r.slots|;
    var slot := r.slots[idx];
    if slot.filled && slot.sn == r.nextSeq then
      (r.(slots := r.slots[idx := Slot(slot.sn, None, false)],
          nextSeq := (r.nextSeq + 1) % SEQ_SPACE), slot.packet)
    else (r, None)
  }

  function RingStep<P>(r: Ring<P>, op: Op<P>): (res: (Ring<P>, Seen<P>))
    requires |r.slots| > 0
    ensures |res.0.slots| == |r.slots|
  {
    match op
    case Write(sn, packet) => var (r', ok) := WriteStep(r, sn, packet); (r', Accepted(ok))
    case Read => var (r', p) := ReadStep(r); (r', Returned(p))
  }

  function RunRing<P>(r: Ring<P>, ops: seq<Op<P>>): (seen: seq<Seen<P>>)
    requires |r.slots| > 0
    ensures |seen| == |ops|
    decreases |ops|
  {
    if ops == [] then []
    else
      var (r', first) := RingStep(r, ops[0]);
      [first] + RunRing(r', ops[1..])
  }

  /** The buffer as the source holds it: an array of slots updated in place. */
  class JitterBuffer<P> {
    const capacity: nat
    const slots: array<Slot<P>>
    var nextSeq: Uint16
    var nextWriteSeq: Uint16
    var lateDrops: nat
    var totalPackets: nat

    ghost predicate Valid()
      reads this
    {
      capacity == slots.Length
    }

    ghost function Contents(): Ring<P>
      reads this, slots
    {
      Ring(slots[..], nextSeq, nextWriteSeq, lateDrops, totalPackets)
    }

    constructor (capacity: nat)
      ensures Valid() && fresh(slots) && this.capacity == capacity
      ensures Contents() == EmptyRing(capacity)
    {
      this.capacity := capacity;
      slots := new Slot<P>[capacity](_ => Slot(0, None, false));
      nextSeq, nextWriteSeq := 0, 0;
      lateDrops, totalPackets := 0, 0;
    }

    /** A buffer without slots divides by zero here. */
    method Write(sn: Uint16, packet: Option<P>) returns (accepted: bool)
      requires Valid() && capacity > 0
      modifies this, slots
      ensures Valid()
      ensures (Contents(), accepted) == WriteStep(old(Contents()), sn, packet)
    {
      var idx := sn % capacity;
      if slots[idx].filled && slots[idx].sn == sn {
        return false;
      }
      var diff := Int16(sn - nextWriteSeq);
      if diff < LateBound(capacity) {
        lateDrops := lateDrops + 1;
        return false;
      }
      slots[idx] := Slot(sn, packet, true);
      totalPackets := totalPackets + 1;
      if diff >= 0 {
        nextWriteSeq := (sn + 1) % SEQ_SPACE;
      }
      return true;
    }

    /** Likewise. */
    method Read() returns (packet: Option<P>)
      requires Valid() && capacity > 0
      modifies this, slots
      ensures Valid()
      ensures (Contents(), packet) == ReadStep(old(Contents()))
    {
      var idx := nextSeq % capacity;
      if slots[idx].filled && slots[idx].sn == nextSeq {
        packet := slots[idx].packet;
        slots[idx] := Slot(slots[idx].sn, None, false);
        nextSeq := (nextSeq + 1) % SEQ_SPACE;
        return;
      }
      return None;
    }
  }

  // -------------------------------------------------------- the reference player

  /**
   A player over unbounded sequence numbers: `next` is the next number to play,
   `high` one past the highest number written, `log` every packet taken. A number that is
   waiting to be played is not taken again.
   */
  datatype Player<P> = Player(next: nat, high: nat, log: map<nat, Option<P>>)

  function NewPlayer<P>(): Player<P> { Player(0, 0, map[]) }

  /** The unbounded number a 16-bit number stands for, counted forward from `next`. */
  function Extend<P>(s: Player<P>, sn: Uint16): (a: nat)
    ensures a % SEQ_SPACE == sn && s.next <= a < s.next + SEQ_SPACE
  {
    s.next + (sn - s.next) % SEQ_SPACE
  }

  function PlayerStep<P>(s: Player<P>, op: Op<P>): (Player<P>, Seen<P>)
  {
    match op
    case Write(sn, packet) =>
      var a := Extend(s, sn);
      if a in s.log then (s, Accepted(false))
      else (Player(s.next, if a >= s.high then a + 1 else s.high, s.log[a := packet]), Accepted(true))
    case Read =>
      if s.next in s.log then (s.(next := s.next + 1), Returned(s.log[s.next]))
      else (s, Returned(None))
  }

  function RunPlayer<P>(s: Player<P>, ops: seq<Op<P>>): (seen: seq<Seen<P>>)
    ensures |seen| == |ops|
    decreases |ops|
  {
    if ops == [] then []
    else
      var (s', first) := PlayerStep(s, ops[0]);
      [first] + RunPlayer(s', ops[1..])
  }

  function PlayerAfter<P>(s: Player<P>, ops: seq<Op<P>>): Player<P>
    decreases |ops|
  {
    if ops == [] then s else PlayerAfter(PlayerStep(s, ops[0]).0, ops[1..])
  }

  /** A write that keeps to the window: at most `capacity` ahead of playout. It may repeat a waiting number. */
  ghost predicate InWindow<P>(capacity: nat, s: Player<P>, op: Op<P>, bound: nat)
  {
    op.Write? ==>
      var a := Extend(s, op.sn);
      a < s.next + capacity && a < bound
  }

  ghost predicate Orderly<P>(capacity: nat, s: Player<P>, ops: seq<Op<P>>, bound: nat)
    decreases |ops|
  {
    ops == [] ||
    (InWindow(capacity, s, ops[0], bound) && Orderly(capacity, PlayerStep(s, ops[0]).0, ops[1..], bound))
  }

  // ----------------------------------------------------------------- slot aliasing

  function Pos(a: nat, capacity: nat): nat
    requires capacity > 0
  {
    (a % SEQ_SPACE) % capacity
  }

  /** No two numbers below `bound` that can be in the window together share a slot. */
  ghost predicate NoAlias(capacity: nat, bound: nat)
    requires capacity > 0
  {
    forall a: nat, b: nat :: a < b < bound && b - a < capacity && b - a < SEQ_SPACE ==>
        Pos(a, capacity) != Pos(b, capacity)
  }

  ghost predicate NeverLate(capacity: nat)
  {
    1 <= capacity <= 32768 || (capacity > SEQ_SPACE && capacity % SEQ_SPACE == 32768)
  }

  /** The capacities for which the ring loses nothing. */
  ghost predicate LosslessCapacity(capacity: nat)
  {
    || (1 <= capacity <= 32768 && SEQ_SPACE % capacity == 0)
    || (capacity > SEQ_SPACE && capacity % SEQ_SPACE == 32768)
  }

  lemma ModOfMod(a: nat, c: nat)
    requires c > 0 && SEQ_SPACE % c == 0
    ensures Pos(a, c) == a % c
  {
    var q := SEQ_SPACE / c;
    var k := a / SEQ_SPACE;
    var u := a % SEQ_SPACE;
    assert a == u + (k * q) * c by {
      assert SEQ_SPACE == q * c;
      assert k * (q * c) == (k * q) * c;
    }
    AddMultiple(u, k * q, c);
  }

  lemma DividingPairDistinct(a: nat, b: nat, c: nat)
    requires c > 0 && SEQ_SPACE % c == 0 && a < b && b - a < c
    ensures Pos(a, c) != Pos(b, c)
  {
    ModOfMod(a, c);
    ModOfMod(b, c);
    ModDistinct(a, b, c);
  }

  lemma WidePairDistinct(a: nat, b: nat, c: nat)
    requires c > SEQ_SPACE && a < b && b - a < SEQ_SPACE
    ensures Pos(a, c) != Pos(b, c)
  {
    ModDistinct(a, b, SEQ_SPACE);
    RemainderUnique(a % SEQ_SPACE, 0, a % SEQ_SPACE, c);
    RemainderUnique(b % SEQ_SPACE, 0, b % SEQ_SPACE, c);
  }

  lemma LosslessCapacityNeverAliases(c: nat, bound: nat)
    requires LosslessCapacity(c)
    ensures NoAlias(c, bound)
  {
    forall a: nat, b: nat | a < b < bound && b - a < c && b - a < SEQ_SPACE
      ensures Pos(a, c) != Pos(b, c)
    {
      if c > SEQ_SPACE { WidePairDistinct(a, b, c); } else { DividingPairDistinct(a, b, c); }
    }
  }

  lemma BeforeWrapNeverAliases(c: nat)
    requires c > 0
    ensures NoAlias(c, SEQ_SPACE)
  {
    forall a: nat, b: nat | a < b < SEQ_SPACE && b - a < c
      ensures Pos(a, c) != Pos(b, c)
    {
      ModDistinct(a, b, c);
    }
  }

  // ------------------------------------------------------------------- refinement

  /** Slot i holds exactly what the player still has to play from that position. */
  ghost predicate SlotAgrees<P>(c: nat, slot: Slot<P>, i: nat, s: Player<P>)
    requires c > 0
  {
    slot.filled ==>
      var a := Extend(s, slot.sn);
      a in s.log && a < s.next + c && Pos(a, c) == i && s.log[a] == slot.packet
  }

  /** The ring holds the packet with unbounded number a. */
  ghost predicate Holds<P>(r: Ring<P>, a: nat, packet: Option<P>)
    requires |r.slots| > 0
  {
    r.slots[Pos(a, |r.slots|)] == Slot(a % SEQ_SPACE, packet, true)
  }

  ghost predicate CountersAgree<P>(r: Ring<P>, s: Player<P>)
  {
    && r.nextSeq == s.next % SEQ_SPACE
    && (|r.slots| <= 32768 ==> r.nextWriteSeq == s.high % SEQ_SPACE)
    && s.next <= s.high <= s.next + |r.slots|
    && forall a :: a in s.log ==> a < s.high
  }

  ghost predicate SlotsAgree<P>(r: Ring<P>, s: Player<P>)
    requires |r.slots| > 0
  {
    && (forall i :: 0 <= i < |r.slots| ==> SlotAgrees(|r.slots|, r.slots[i], i, s))
    && (forall a :: a in s.log && s.next <= a ==> Holds(r, a, s.log[a]))
  }

  ghost predicate Agrees<P>(r: Ring<P>, s: Player<P>, bound: nat)
  {
    && |r.slots| > 0
    && CountersAgree(r, s)
    && SlotsAgree(r, s)
    && forall a :: a in s.log ==> a < bound && a < s.next + SEQ_SPACE
  }

  /** Counting forward from a later playout point gives the same unbounded number. */
  lemma ExtendIsUnique<P>(s: Player<P>, a: nat)
    requires s.next <= a < s.next + SEQ_SPACE
    ensures Extend(s, a % SEQ_SPACE) == a
  {
  }

  lemma DiffIsExact(a: nat, high: nat, next: nat, c: nat)
    requires 1 <= c <= 32768 && next <= high <= next + c && next <= a < next + c
    ensures Int16(a % SEQ_SPACE - high % SEQ_SPACE) == a - high
    ensures LateBound(c) <= a - high
  {
    var d := a - high;
    assert -32768 <= d < 32768;
    assert (a % SEQ_SPACE - high % SEQ_SPACE - d) % SEQ_SPACE == 0;
  }

  lemma NotRepeated<P>(r: Ring<P>, s: Player<P>, sn: Uint16)
    requires |r.slots| > 0 && SlotsAgree(r, s) && Extend(s, sn) !in s.log
    ensures var slot := r.slots[sn % |r.slots|]; !(slot.filled && slot.sn == sn)
  {
    assert SlotAgrees(|r.slots|, r.slots[sn % |r.slots|], sn % |r.slots|, s);
  }

  /** A number that waits to be played is recognised, and nothing changes. */
  lemma RepeatIsRefused<P>(r: Ring<P>, s: Player<P>, sn: Uint16, packet: Option<P>)
    requires |r.slots| > 0 && SlotsAgree(r, s) && Extend(s, sn) in s.log
    ensures WriteStep(r, sn, packet) == (r, false)
  {
    assert Holds(r, Extend(s, sn), s.log[Extend(s, sn)]);
  }

  lemma NotLate<P>(r: Ring<P>, s: Player<P>, sn: Uint16)
    requires NeverLate(|r.slots|) && CountersAgree(r, s) && Extend(s, sn) < s.next + |r.slots|
    ensures LateBound(|r.slots|) <= Int16(sn - r.nextWriteSeq)
    ensures |r.slots| <= 32768 ==> Int16(sn - r.nextWriteSeq) == Extend(s, sn) - s.high
  {
    if |r.slots| <= 32768 {
      DiffIsExact(Extend(s, sn), s.high, s.next, |r.slots|);
    } else {
      assert Int16(|r.slots|) == -32768;
    }
  }

  lemma WriteIsAccepted<P>(r: Ring<P>, s: Player<P>, sn: Uint16, packet: Option<P>, bound: nat)
    requires Agrees(r, s, bound) && NeverLate(|r.slots|)
    requires InWindow(|r.slots|, s, Write(sn, packet), bound) && Extend(s, sn) !in s.log
    ensures WriteStep(r, sn, packet).1
  {
    NotRepeated(r, s, sn);
    NotLate(r, s, sn);
  }

  lemma WriteCounters<P>(r: Ring<P>, s: Player<P>, sn: Uint16, packet: Option<P>, bound: nat)
    requires Agrees(r, s, bound) && NeverLate(|r.slots|)
    requires InWindow(|r.slots|, s, Write(sn, packet), bound) && Extend(s, sn) !in s.log
    requires WriteStep(r, sn, packet).1
    ensures CountersAgree(WriteStep(r, sn, packet).0, PlayerStep(s, Write(sn, packet)).0)
  {
    NotLate(r, s, sn);
    NextMod(Extend(s, sn));
  }

  lemma NextMod(a: nat)
    ensures (a % SEQ_SPACE + 1) % SEQ_SPACE == (a + 1) % SEQ_SPACE
  {
  }

  /** A write overwrites no packet that is still to be played. */
  lemma WriteHolds<P>(r: Ring<P>, s: Player<P>, sn: Uint16, packet: Option<P>, bound: nat, b: nat)
    requires Agrees(r, s, bound) && NoAlias(|r.slots|, bound)
    requires InWindow(|r.slots|, s, Write(sn, packet), bound) && Extend(s, sn) !in s.log
    requires WriteStep(r, sn, packet).1
    requires b in PlayerStep(s, Write(sn, packet)).0.log && s.next <= b
    ensures Holds(WriteStep(r, sn, packet).0, b, PlayerStep(s, Write(sn, packet)).0.log[b])
  {
    var a := Extend(s, sn);
    if b != a {
      assert Holds(r, b, s.log[b]);
      WindowNoAlias(|r.slots|, bound, s.next, a, b);
    }
  }

  lemma WriteSlots<P>(r: Ring<P>, s: Player<P>, sn: Uint16, packet: Option<P>, bound: nat)
    requires Agrees(r, s, bound) && NoAlias(|r.slots|, bound)
    requires InWindow(|r.slots|, s, Write(sn, packet), bound) && Extend(s, sn) !in s.log
    requires WriteStep(r, sn, packet).1
    ensures SlotsAgree(WriteStep(r, sn, packet).0, PlayerStep(s, Write(sn, packet)).0)
  {
    var c := |r.slots|;
    var r' := WriteStep(r, sn, packet).0;
    var s' := PlayerStep(s, Write(sn, packet)).0;
    forall b | b in s'.log && s'.next <= b
      ensures Holds(r', b, s'.log[b])
    {
      WriteHolds(r, s, sn, packet, bound, b);
    }
    forall i | 0 <= i < c
      ensures SlotAgrees(c, r'.slots[i], i, s')
    {
      WriteSlotAgrees(r, s, sn, packet, i);
    }
  }

  lemma WriteSlotAgrees<P>(r: Ring<P>, s: Player<P>, sn: Uint16, packet: Option<P>, i: nat)
    requires i < |r.slots| && SlotAgrees(|r.slots|, r.slots[i], i, s)
    requires InWindow(|r.slots|, s, Write(sn, packet), Extend(s, sn) + 1) && Extend(s, sn) !in s.log
    requires WriteStep(r, sn, packet).1
    ensures SlotAgrees(|r.slots|, WriteStep(r, sn, packet).0.slots[i], i, PlayerStep(s, Write(sn, packet)).0)
  {
    var s' := PlayerStep(s, Write(sn, packet)).0;
    if i == sn % |r.slots| {
      NewSlotAgrees(|r.slots|, s, s', sn, packet);
    } else {
      OldSlotAgrees(|r.slots|, r.slots[i], i, s, s', Extend(s, sn), packet);
    }
  }

  lemma NewSlotAgrees<P>(c: nat, s: Player<P>, s': Player<P>, sn: Uint16, packet: Option<P>)
    requires c > 0 && s'.next == s.next && Extend(s, sn) < s.next + c
    requires s'.log == s.log[Extend(s, sn) := packet]
    ensures SlotAgrees(c, Slot(sn, packet, true), sn % c, s')
  {
    assert Extend(s', sn) == Extend(s, sn);
  }

  lemma OldSlotAgrees<P>(c: nat, slot: Slot<P>, i: nat, s: Player<P>, s': Player<P>, a: nat, packet: Option<P>)
    requires c > 0 && s'.next == s.next && a !in s.log && s'.log == s.log[a := packet]
    requires SlotAgrees(c, slot, i, s)
    ensures SlotAgrees(c, slot, i, s')
  {
    assert Extend(s', slot.sn) == Extend(s, slot.sn);
  }

  lemma WindowNoAlias(c: nat, bound: nat, next: nat, a: nat, b: nat)
    requires c > 0 && NoAlias(c, bound) && a < bound && b < bound && a != b
    requires next <= a < next + c && next <= b < next + c && a < next + SEQ_SPACE && b < next + SEQ_SPACE
    ensures Pos(a, c) != Pos(b, c)
  {
    if a < b { assert b - a < c; } else { assert a - b < c; }
  }

  lemma ReadCounters<P>(r: Ring<P>, s: Player<P>, bound: nat)
    requires Agrees(r, s, bound)
    ensures PlayerStep(s, Read).1 == Returned(ReadStep(r).1)
    ensures var slot := r.slots[Pos(s.next, |r.slots|)]; s.next in s.log <==> slot.filled && slot.sn == r.nextSeq
    ensures CountersAgree(ReadStep(r).0, PlayerStep(s, Read).0)
  {
    var c := |r.slots|;
    var idx := Pos(s.next, c);
    assert SlotAgrees(c, r.slots[idx], idx, s);
    ExtendIsUnique(s, s.next);
    if s.next in s.log {
      assert Holds(r, s.next, s.log[s.next]);
      NextMod(s.next);
    }
  }

  lemma ReadSlotAgrees<P>(r: Ring<P>, s: Player<P>, bound: nat, i: nat)
    requires Agrees(r, s, bound) && s.next in s.log && i < |r.slots|
    ensures SlotAgrees(|r.slots|, ReadStep(r).0.slots[i], i, PlayerStep(s, Read).0)
  {
    ReadCounters(r, s, bound);
    var s' := PlayerStep(s, Read).0;
    assert SlotAgrees(|r.slots|, r.slots[i], i, s);
    if i != Pos(s.next, |r.slots|) && r.slots[i].filled {
      ExtendIsUnique(s', Extend(s, r.slots[i].sn));
    }
  }

  lemma ReadSlots<P>(r: Ring<P>, s: Player<P>, bound: nat)
    requires Agrees(r, s, bound) && NoAlias(|r.slots|, bound)
    ensures SlotsAgree(ReadStep(r).0, PlayerStep(s, Read).0)
  {
    ReadCounters(r, s, bound);
    var c, r', s' := |r.slots|, ReadStep(r).0, PlayerStep(s, Read).0;
    if s.next in s.log {
      forall b | b in s'.log && s'.next <= b
        ensures Holds(r', b, s'.log[b])
      {
        assert Holds(r, b, s.log[b]);
        WindowNoAlias(c, bound, s.next, s.next, b);
      }
      forall i | 0 <= i < c
        ensures SlotAgrees(c, r'.slots[i], i, s')
      {
        ReadSlotAgrees(r, s, bound, i);
      }
    }
  }

  lemma StepAgrees<P>(r: Ring<P>, s: Player<P>, op: Op<P>, bound: nat)
    requires Agrees(r, s, bound) && NeverLate(|r.slots|) && NoAlias(|r.slots|, bound)
    requires InWindow(|r.slots|, s, op, bound)
    ensures RingStep(r, op).1 == PlayerStep(s, op).1
    ensures Agrees(RingStep(r, op).0, PlayerStep(s, op).0, bound)
  {
    match op
    case Write(sn, packet) =>
      if Extend(s, sn) in s.log {
        RepeatIsRefused(r, s, sn, packet);
      } else {
        WriteIsAccepted(r, s, sn, packet, bound);
        WriteCounters(r, s, sn, packet, bound);
        WriteSlots(r, s, sn, packet, bound);
      }
    case Read =>
      ReadCounters(r, s, bound);
      ReadSlots(r, s, bound);
  }

  /** A ring that never drops as late and never aliases behaves as the player on every orderly run. */
  lemma {:induction false} RunAgrees<P>(r: Ring<P>, s: Player<P>, ops: seq<Op<P>>, bound: nat)
    requires Agrees(r, s, bound) && NeverLate(|r.slots|) && NoAlias(|r.slots|, bound)
    requires Orderly(|r.slots|, s, ops, bound)
    ensures RunRing(r, ops) == RunPlayer(s, ops)
    decreases |ops|
  {
    if ops != [] {
      StepAgrees(r, s, ops[0], bound);
      RunAgrees(RingStep(r, ops[0]).0, PlayerStep(s, ops[0]).0, ops[1..], bound);
    }
  }

  lemma EmptyAgrees<P>(c: nat, bound: nat)
    requires c > 0
    ensures Agrees(EmptyRing<P>(c), NewPlayer<P>(), bound)
  {
  }

  /** Before the 16-bit number wraps, any capacity up to half the number space is lossless. */
  lemma LosslessBeforeWrap<P>(c: nat, ops: seq<Op<P>>)
    requires 1 <= c <= 32768
    requires Orderly(c, NewPlayer(), ops, SEQ_SPACE)
    ensures RunRing(EmptyRing(c), ops) == RunPlayer(NewPlayer(), ops)
  {
    EmptyAgrees<P>(c, SEQ_SPACE);
    BeforeWrapNeverAliases(c);
    RunAgrees(EmptyRing(c), NewPlayer(), ops, SEQ_SPACE);
  }

  // ------------------------------------------------------- what the player promises

  /** The packets numbered lo..hi, in order. */
  function Played<P>(log: map<nat, Option<P>>, lo: nat, hi: nat): seq<Option<P>>
    requires lo <= hi && forall a :: lo <= a < hi ==> a in log
  {
    seq(hi - lo, i requires 0 <= i < hi - lo => log[lo + i])
  }

  function Reads<P>(seen: seq<Seen<P>>): seq<Option<P>>
  {
    if seen == [] then []
    else (if seen[0].Returned? then [seen[0].packet] else []) + Reads(seen[1..])
  }

  lemma {:induction false} PlayerKeepsLog<P>(c: nat, s: Player<P>, ops: seq<Op<P>>, bound: nat)
    requires Orderly(c, s, ops, bound)
    ensures var s' := PlayerAfter(s, ops);
            && s.next <= s'.next
            && (forall a :: a in s.log ==> a in s'.log && s'.log[a] == s.log[a])
            && (forall a :: s.next <= a < s'.next ==> a in s'.log)
    decreases |ops|
  {
    if ops != [] { PlayerKeepsLog(c, PlayerStep(s, ops[0]).0, ops[1..], bound); }
  }

  lemma PlayerCutoff<P>(s: Player<P>, ops: seq<Op<P>>, i: nat)
    requires 0 < i <= |ops|
    ensures PlayerAfter(PlayerStep(s, ops[0]).0, ops[1..][..i - 1]) == PlayerAfter(s, ops[..i])
  {
    assert ops[..i][1..] == ops[1..][..i - 1];
  }

  /**
   Write i is taken exactly when its number is not waiting already; what the number stands for
   from then on is the first packet written under it.
   */
  lemma {:induction false} PlayerTakesWrites<P>(c: nat, s: Player<P>, ops: seq<Op<P>>, bound: nat, i: nat)
    requires Orderly(c, s, ops, bound) && i < |ops| && ops[i].Write?
    ensures var before := PlayerAfter(s, ops[..i]);
            var a := Extend(before, ops[i].sn);
            && RunPlayer(s, ops)[i] == Accepted(a !in before.log)
            && a in PlayerAfter(s, ops).log
            && PlayerAfter(s, ops).log[a] == if a in before.log then before.log[a] else ops[i].packet
    decreases |ops|
  {
    var s1 := PlayerStep(s, ops[0]).0;
    if i > 0 {
      PlayerTakesWrites(c, s1, ops[1..], bound, i - 1);
      PlayerCutoff(s, ops, i);
      assert RunPlayer(s, ops)[1..][i - 1] == RunPlayer(s, ops)[i];
    } else {
      assert ops[..0] == [];
      PlayerKeepsLog(c, s1, ops[1..], bound);
    }
  }

  /** Write i repeats a number that is still waiting to be played. */
  ghost predicate Repeats<P>(s: Player<P>, ops: seq<Op<P>>, i: nat)
    requires i < |ops| && ops[i].Write?
  {
    var before := PlayerAfter(s, ops[..i]);
    Extend(before, ops[i].sn) in before.log
  }

  /**
   On an orderly run the player takes every write but the repeats, keeps each number's first
   packet for good, and the non-nil reads are the non-nil packets in number order without a gap.
   */
  lemma PlayerIsLossless<P>(c: nat, s: Player<P>, ops: seq<Op<P>>, bound: nat)
    requires Orderly(c, s, ops, bound)
    ensures var s' := PlayerAfter(s, ops);
            && s.next <= s'.next && (forall a :: s.next <= a < s'.next ==> a in s'.log)
            && Present(Reads(RunPlayer(s, ops))) == Present(Played(s'.log, s.next, s'.next))
    ensures forall i :: 0 <= i < |ops| && ops[i].Write? ==> RunPlayer(s, ops)[i] == Accepted(!Repeats(s, ops, i))
    ensures forall i :: 0 <= i < |ops| && ops[i].Write? && !Repeats(s, ops, i) ==>
              exists a :: Stored(PlayerAfter(s, ops), a, ops[i].sn, ops[i].packet)
  {
    PlayerKeepsLog(c, s, ops, bound);
    PlayerReadsLog(c, s, ops, bound);
    forall i | 0 <= i < |ops| && ops[i].Write?
      ensures RunPlayer(s, ops)[i] == Accepted(!Repeats(s, ops, i))
      ensures !Repeats(s, ops, i) ==> exists a :: Stored(PlayerAfter(s, ops), a, ops[i].sn, ops[i].packet)
    {
      PlayerTakesWrites(c, s, ops, bound, i);
      assert !Repeats(s, ops, i) ==>
        Stored(PlayerAfter(s, ops), Extend(PlayerAfter(s, ops[..i]), ops[i].sn), ops[i].sn, ops[i].packet);
    }
  }

  lemma {:induction false} PlayerReadsLog<P>(c: nat, s: Player<P>, ops: seq<Op<P>>, bound: nat)
    requires Orderly(c, s, ops, bound)
    ensures var s' := PlayerAfter(s, ops);
            && s.next <= s'.next && (forall a :: s.next <= a < s'.next ==> a in s'.log)
            && Present(Reads(RunPlayer(s, ops))) == Present(Played(s'.log, s.next, s'.next))
    decreases |ops|
  {
    PlayerKeepsLog(c, s, ops, bound);
    if ops != [] {
      var (s1, seen) := PlayerStep(s, ops[0]);
      var s' := PlayerAfter(s, ops);
      PlayerReadsLog(c, s1, ops[1..], bound);
      PlayerKeepsLog(c, s1, ops[1..], bound);
      ReadsNext(seen, RunPlayer(s1, ops[1..]));
      PlayedOne(s, ops[0], s'.log, s'.next);
    }
  }

  /** What one step plays joins what is played after it. */
  lemma PlayedOne<P>(s: Player<P>, op: Op<P>, log: map<nat, Option<P>>, end: nat)
    requires var s1 := PlayerStep(s, op).0;
             && s1.next <= end && (forall a :: s1.next <= a < end ==> a in log)
             && (forall a :: a in s1.log ==> a in log && log[a] == s1.log[a])
    ensures var (s1, seen) := PlayerStep(s, op);
            && s.next <= end && (forall a :: s.next <= a < end ==> a in log)
            && (if seen.Returned? && seen.packet.Some? then [seen.packet.value] else [])
                 + Present(Played(log, s1.next, end)) == Present(Played(log, s.next, end))
  {
    var (s1, seen) := PlayerStep(s, op);
    var played := Present(Played(log, s1.next, end));
    if s1.next > s.next {
      PlayedNext(log, s.next, end);
      assert log[s.next] == seen.packet;
    } else {
      assert [] + played == played;
    }
  }

  /** The first answer joins the reads if it is one, and counts if it is a packet. */
  lemma ReadsNext<P>(seen: Seen<P>, rest: seq<Seen<P>>)
    ensures Present(Reads([seen] + rest))
         == (if seen.Returned? && seen.packet.Some? then [seen.packet.value] else []) + Present(Reads(rest))
  {
    assert ([seen] + rest)[1..] == rest;
    if !seen.Returned? {
      assert Reads([seen] + rest) == [] + Reads(rest) == Reads(rest);
      assert [] + Present(Reads(rest)) == Present(Reads(rest));
    } else {
      PresentOfConcat([seen.packet], Reads(rest));
      assert Present([seen.packet]) == (if seen.packet.Some? then [seen.packet.value] else []) + Present([]);
    }
  }

  lemma PlayedNext<P>(log: map<nat, Option<P>>, lo: nat, hi: nat)
    requires lo < hi && forall a :: lo <= a < hi ==> a in log
    ensures Present(Played(log, lo, hi))
         == (if log[lo].Some? then [log[lo].value] else []) + Present(Played(log, lo + 1, hi))
  {
    assert Played(log, lo, hi) == [log[lo]] + Played(log, lo + 1, hi);
    PresentOfConcat([log[lo]], Played(log, lo + 1, hi));
    assert Present([log[lo]]) == (if log[lo].Some? then [log[lo].value] else []) + Present([]);
  }

  ghost predicate Stored<P>(s: Player<P>, a: nat, sn: Uint16, packet: Option<P>)
  {
    a in s.log && a % SEQ_SPACE == sn && s.log[a] == packet
  }

  // ------------------------------------------------------- exactly which capacities

  ghost predicate Lossless<P(!new)>(c: nat)
    requires c > 0
  {
    forall ops: seq<Op<P>>, bound: nat ::
      Orderly(c, NewPlayer(), ops, bound) ==> RunRing(EmptyRing(c), ops) == RunPlayer(NewPlayer(), ops)
  }

  lemma FirstWriteRefused<P(!new)>(c: nat, p: P)
    requires c > 0 && 0 < LateBound(c)
    ensures !Lossless<P>(c)
  {
    var ops := [Write(0, Some(p))];
    assert Orderly(c, NewPlayer<P>(), ops, 1);
    assert RunRing(EmptyRing(c), ops)[0] == Accepted(false);
    assert RunPlayer(NewPlayer(), ops)[0] == Accepted(true);
  }

  lemma FarWriteRefused<P(!new)>(c: nat, p: P)
    requires c > SEQ_SPACE && -32768 < LateBound(c)
    ensures !Lossless<P>(c)
  {
    var ops := [Write(32768, Some(p))];
    assert Orderly(c, NewPlayer<P>(), ops, SEQ_SPACE);
    assert RunRing(EmptyRing(c), ops)[0] == Accepted(false);
    assert RunPlayer(NewPlayer(), ops)[0] == Accepted(true);
  }

  lemma ReorderRefused<P(!new)>(c: nat, p: P)
    requires c == SEQ_SPACE
    ensures !Lossless<P>(c)
  {
    var ops := [Write(1, Some(p)), Write(0, Some(p))];
    var s1 := PlayerStep(NewPlayer<P>(), ops[0]).0;
    assert ops[1..] == [Write(0, Some(p))];
    assert Orderly(c, s1, ops[1..], 2);
    assert Orderly(c, NewPlayer<P>(), ops, 2);
    assert RunRing(EmptyRing(c), ops)[1] == Accepted(false);
    assert RunPlayer(NewPlayer(), ops)[1] == Accepted(true);
  }

  /** Packets k..n written and read in order, then one reordering across the wrap. */
  function WrapRun<P>(k: nat, n: nat, p: P): seq<Op<P>>
    requires k <= n < SEQ_SPACE
    decreases n - k
  {
    if k == n then [Write(n, Some(p)), Write(0, Some(p)), Read]
    else [Write(k, Some(p)), Read] + WrapRun(k + 1, n, p)
  }

  /** n is the last multiple of the capacity below the wrap, so it shares slot 0 with the number after the wrap. */
  ghost predicate SharesSlotAcrossWrap(c: nat, n: nat)
  {
    1 <= c <= 32768 && SEQ_SPACE - c < n < SEQ_SPACE && n % c == 0
  }

  lemma LastMultiple(c: nat)
    requires 1 <= c <= 32768 && SEQ_SPACE % c != 0
    ensures SharesSlotAcrossWrap(c, SEQ_SPACE - SEQ_SPACE % c)
  {
    AddMultiple(0, SEQ_SPACE / c, c);
  }

  /** Both numbers are written, the second over the first, so the first cannot be read. */
  lemma CollisionHidesPacket<P>(r: Ring<P>, n: Uint16, p: P)
    requires SharesSlotAcrossWrap(|r.slots|, n) && r.nextSeq == n
    requires WriteStep(r, n, Some(p)).1 && WriteStep(WriteStep(r, n, Some(p)).0, 0, Some(p)).1
    ensures ReadStep(WriteStep(WriteStep(r, n, Some(p)).0, 0, Some(p)).0).1 == None
  {
  }

  lemma PlayerPlaysAcrossWrap<P>(c: nat, s: Player<P>, p: P)
    requires SharesSlotAcrossWrap(c, s.next)
    requires forall a :: a in s.log ==> a < s.next
    ensures var s1 := PlayerStep(s, Write(s.next, Some(p))).0;
            var s2 := PlayerStep(s1, Write(0, Some(p))).0;
            && InWindow(c, s, Write(s.next, Some(p)), SEQ_SPACE)
            && InWindow(c, s1, Write(0, Some(p)), 2 * SEQ_SPACE)
            && PlayerStep(s2, Read).1 == Returned(Some(p))
  {
    assert Extend(s, s.next) == s.next;
    assert Extend(PlayerStep(s, Write(s.next, Some(p))).0, 0) == SEQ_SPACE;
  }

  lemma WrapCollides<P>(r: Ring<P>, s: Player<P>, p: P)
    requires Agrees(r, s, SEQ_SPACE) && SharesSlotAcrossWrap(|r.slots|, s.next)
    requires forall a :: a in s.log ==> a < s.next
    ensures Orderly(|r.slots|, s, WrapRun(s.next, s.next, p), 2 * SEQ_SPACE)
    ensures RunRing(r, WrapRun(s.next, s.next, p)) != RunPlayer(s, WrapRun(s.next, s.next, p))
  {
    var c := |r.slots|;
    var w0, w1 := Write(s.next, Some(p)), Write(0, Some(p));
    var ops := WrapRun(s.next, s.next, p);
    assert ops == [w0, w1] + [Read];
    TwoSteps(r, s, w0, w1, [Read], 2 * SEQ_SPACE);
    PlayerPlaysAcrossWrap(c, s, p);
    WriteIsAccepted(r, s, s.next, Some(p), SEQ_SPACE);
    var r1 := RingStep(r, w0).0;
    if WriteStep(r1, 0, Some(p)).1 {
      CollisionHidesPacket(r, s.next, p);
      assert RunRing(r, ops)[2..][0] == Returned(None);
      assert RunPlayer(s, ops)[2..][0] == Returned(Some(p));
    }
  }

  lemma InOrderRoundAgrees<P>(r: Ring<P>, s: Player<P>, p: P)
    requires Agrees(r, s, SEQ_SPACE) && 1 <= |r.slots| <= 32768 && s.next < SEQ_SPACE
    requires forall a :: a in s.log ==> a < s.next
    ensures InWindow(|r.slots|, s, Write(s.next, Some(p)), SEQ_SPACE)
    ensures var s2 := PlayerStep(PlayerStep(s, Write(s.next, Some(p))).0, Read).0;
            && s2.next == s.next + 1
            && (forall a :: a in s2.log ==> a < s2.next)
            && Agrees(RingStep(RingStep(r, Write(s.next, Some(p))).0, Read).0, s2, SEQ_SPACE)
  {
    var w := Write(s.next, Some(p));
    assert Extend(s, s.next) == s.next;
    BeforeWrapNeverAliases(|r.slots|);
    StepAgrees(r, s, w, SEQ_SPACE);
    StepAgrees(RingStep(r, w).0, PlayerStep(s, w).0, Read, SEQ_SPACE);
  }

  lemma RingCons<P>(r: Ring<P>, op: Op<P>, rest: seq<Op<P>>)
    requires |r.slots| > 0
    ensures RunRing(r, [op] + rest) == [RingStep(r, op).1] + RunRing(RingStep(r, op).0, rest)
  {
    assert ([op] + rest)[1..] == rest;
  }

  lemma PlayerCons<P>(s: Player<P>, op: Op<P>, rest: seq<Op<P>>)
    ensures RunPlayer(s, [op] + rest) == [PlayerStep(s, op).1] + RunPlayer(PlayerStep(s, op).0, rest)
  {
    assert ([op] + rest)[1..] == rest;
  }

  lemma TwoRingSteps<P>(r: Ring<P>, op0: Op<P>, op1: Op<P>, rest: seq<Op<P>>)
    requires |r.slots| > 0
    ensures var (r2, seen) := RingStep(RingStep(r, op0).0, op1);
            RunRing(r, [op0, op1] + rest)[1] == seen && RunRing(r, [op0, op1] + rest)[2..] == RunRing(r2, rest)
  {
    var r1, tail := RingStep(r, op0).0, [op1] + rest;
    assert [op0, op1] + rest == [op0] + tail;
    RingCons(r, op0, tail);
    RingCons(r1, op1, rest);
    var seen := RunRing(r, [op0] + tail);
    assert seen[1..] == RunRing(r1, tail) && seen[2..] == seen[1..][1..] && seen[1] == seen[1..][0];
  }

  lemma TwoPlayerSteps<P>(s: Player<P>, op0: Op<P>, op1: Op<P>, rest: seq<Op<P>>)
    ensures var (s2, seen) := PlayerStep(PlayerStep(s, op0).0, op1);
            RunPlayer(s, [op0, op1] + rest)[1] == seen && RunPlayer(s, [op0, op1] + rest)[2..] == RunPlayer(s2, rest)
  {
    assert [op0, op1] + rest == [op0] + ([op1] + rest);
    PlayerCons(s, op0, [op1] + rest);
    PlayerCons(PlayerStep(s, op0).0, op1, rest);
  }

  lemma TwoSteps<P>(r: Ring<P>, s: Player<P>, op0: Op<P>, op1: Op<P>, rest: seq<Op<P>>, bound: nat)
    requires |r.slots| > 0
    ensures var r2 := RingStep(RingStep(r, op0).0, op1).0;
            var s1 := PlayerStep(s, op0).0;
            var s2 := PlayerStep(s1, op1).0;
            && RunRing(r, [op0, op1] + rest)[1] == RingStep(RingStep(r, op0).0, op1).1
            && RunRing(r, [op0, op1] + rest)[2..] == RunRing(r2, rest)
            && RunPlayer(s, [op0, op1] + rest)[1] == PlayerStep(s1, op1).1
            && RunPlayer(s, [op0, op1] + rest)[2..] == RunPlayer(s2, rest)
            && (Orderly(|r.slots|, s, [op0, op1] + rest, bound) <==>
                InWindow(|r.slots|, s, op0, bound) && InWindow(|r.slots|, s1, op1, bound) &&
                    Orderly(|r.slots|, s2, rest, bound))
  {
    TwoRingSteps(r, op0, op1, rest);
    TwoPlayerSteps(s, op0, op1, rest);
    var ops := [op0, op1] + rest;
    assert ops[1..] == [op1] + rest && ops[1..][1..] == rest;
  }

  lemma {:induction false} WrapRunDiverges<P>(r: Ring<P>, s: Player<P>, n: nat, p: P)
    requires Agrees(r, s, SEQ_SPACE) && SharesSlotAcrossWrap(|r.slots|, n) && s.next <= n
    requires forall a :: a in s.log ==> a < s.next
    ensures Orderly(|r.slots|, s, WrapRun(s.next, n, p), 2 * SEQ_SPACE)
    ensures RunRing(r, WrapRun(s.next, n, p)) != RunPlayer(s, WrapRun(s.next, n, p))
    decreases n - s.next
  {
    if s.next == n {
      WrapCollides(r, s, p);
    } else {
      var w := Write(s.next, Some(p));
      InOrderRoundAgrees(r, s, p);
      var r2, s2 := RingStep(RingStep(r, w).0, Read).0, PlayerStep(PlayerStep(s, w).0, Read).0;
      WrapRunDiverges(r2, s2, n, p);
      DivergesLater(r, s, w, WrapRun(s.next + 1, n, p));
    }
  }

  /** A run that differs after a write and a read differs as a whole. */
  lemma DivergesLater<P>(r: Ring<P>, s: Player<P>, w: Op<P>, rest: seq<Op<P>>)
    requires |r.slots| > 0
    requires var r2, s2 := RingStep(RingStep(r, w).0, Read).0, PlayerStep(PlayerStep(s, w).0, Read).0;
             Orderly(|r.slots|, s2, rest, 2 * SEQ_SPACE) && RunRing(r2, rest) != RunPlayer(s2, rest)
    requires InWindow(|r.slots|, s, w, 2 * SEQ_SPACE)
    ensures Orderly(|r.slots|, s, [w, Read] + rest, 2 * SEQ_SPACE)
    ensures RunRing(r, [w, Read] + rest) != RunPlayer(s, [w, Read] + rest)
  {
    TwoSteps(r, s, w, Read, rest, 2 * SEQ_SPACE);
  }

  lemma WrapLosesPacket<P(!new)>(c: nat, p: P)
    requires 1 <= c <= 32768 && SEQ_SPACE % c != 0
    ensures !Lossless<P>(c)
  {
    EmptyAgrees<P>(c, SEQ_SPACE);
    LastMultiple(c);
    WrapRunDiverges(EmptyRing<P>(c), NewPlayer<P>(), SEQ_SPACE - SEQ_SPACE % c, p);
  }

  /** The jitter buffer loses nothing, on every orderly run, for exactly these capacities. */
  lemma LosslessExactly<P(!new)>(c: nat, p: P)
    requires c > 0
    ensures Lossless<P>(c) <==> LosslessCapacity(c)
  {
    if LosslessCapacity(c) {
      forall ops: seq<Op<P>>, bound: nat | Orderly(c, NewPlayer(), ops, bound)
        ensures RunRing(EmptyRing(c), ops) == RunPlayer(NewPlayer(), ops)
      {
        EmptyAgrees<P>(c, bound);
        LosslessCapacityNeverAliases(c, bound);
        RunAgrees(EmptyRing(c), NewPlayer(), ops, bound);
      }
    } else if c <= 32768 {
      WrapLosesPacket(c, p);
    } else if c == SEQ_SPACE {
      ReorderRefused(c, p);
    } else if c % SEQ_SPACE > 32768 {
      FirstWriteRefused(c, p);
    } else {
      FarWriteRefused(c, p);
    }
  }

  // -------------------------------------------------------------- the ring in one piece

  /** Operation i wrote this packet under number a. */
  ghost predicate WrittenAs<P>(ops: seq<Op<P>>, i: int, a: nat, packet: Option<P>)
  {
    0 <= i < |ops| && ops[i] == Write(a % SEQ_SPACE, packet)
  }

  /** The log holds nothing but what was there and what was written. */
  lemma {:induction false} LogIsWritten<P>(c: nat, s: Player<P>, ops: seq<Op<P>>, bound: nat, a: nat)
    requires Orderly(c, s, ops, bound) && a in PlayerAfter(s, ops).log && a !in s.log
    ensures exists i :: WrittenAs(ops, i, a, PlayerAfter(s, ops).log[a]) && RunPlayer(s, ops)[i] == Accepted(true)
    decreases |ops|
  {
    var s1, packet := PlayerStep(s, ops[0]).0, PlayerAfter(s, ops).log[a];
    if a in s1.log {
      PlayerKeepsLog(c, s1, ops[1..], bound);
      assert WrittenAs(ops, 0, a, packet);
    } else {
      LogIsWritten(c, s1, ops[1..], bound, a);
      var i :| WrittenAs(ops[1..], i, a, packet) && RunPlayer(s1, ops[1..])[i] == Accepted(true);
      assert WrittenAs(ops, i + 1, a, packet) && RunPlayer(s, ops)[i + 1] == RunPlayer(s, ops)[1..][i];
    }
  }

  /** The packet of write i is in the log under its number. */
  ghost predicate Logged<P>(ops: seq<Op<P>>, i: int, log: map<nat, Option<P>>)
  {
    exists a :: a in log && WrittenAs(ops, i, a, log[a])
  }

  /** The packet under number a comes from a write that was taken. */
  ghost predicate FromTaken<P>(ops: seq<Op<P>>, seen: seq<Seen<P>>, log: map<nat, Option<P>>, a: nat)
    requires |seen| == |ops|
  {
    a in log ==> exists i :: WrittenAs(ops, i, a, log[a]) && seen[i] == Accepted(true)
  }

  /** The packets of the run by number: every write that was taken is in it, and nothing else. */
  ghost predicate LogOf<P>(ops: seq<Op<P>>, seen: seq<Seen<P>>, log: map<nat, Option<P>>)
    requires |seen| == |ops|
  {
    && (forall i {:trigger Logged(ops, i, log)} ::
          0 <= i < |ops| && seen[i] == Accepted(true) ==> Logged(ops, i, log))
    && (forall a {:trigger FromTaken(ops, seen, log, a)} :: FromTaken(ops, seen, log, a))
  }

  lemma TakenIsLogged<P>(c: nat, s: Player<P>, ops: seq<Op<P>>, bound: nat, i: nat)
    requires Orderly(c, s, ops, bound) && i < |ops| && RunPlayer(s, ops)[i] == Accepted(true)
    ensures Logged(ops, i, PlayerAfter(s, ops).log)
  {
    OnlyWritesAreAccepted(s, ops, i);
    PlayerTakesWrites(c, s, ops, bound, i);
    assert WrittenAs(ops, i, Extend(PlayerAfter(s, ops[..i]), ops[i].sn), ops[i].packet);
  }

  lemma PlayerLogIsRun<P>(c: nat, ops: seq<Op<P>>, bound: nat)
    requires Orderly(c, NewPlayer(), ops, bound)
    ensures LogOf(ops, RunPlayer(NewPlayer(), ops), PlayerAfter(NewPlayer(), ops).log)
  {
    var seen, log := RunPlayer(NewPlayer<P>(), ops), PlayerAfter(NewPlayer<P>(), ops).log;
    forall i | 0 <= i < |ops| && seen[i] == Accepted(true) ensures Logged(ops, i, log) {
      TakenIsLogged(c, NewPlayer(), ops, bound, i);
    }
    forall a ensures FromTaken(ops, seen, log, a) {
      if a in log { LogIsWritten(c, NewPlayer(), ops, bound, a); }
    }
  }

  lemma {:induction false} OnlyWritesAreAccepted<P>(s: Player<P>, ops: seq<Op<P>>, i: nat)
    requires i < |ops| && RunPlayer(s, ops)[i] == Accepted(true)
    ensures ops[i].Write?
    decreases |ops|
  {
    if i > 0 { OnlyWritesAreAccepted(PlayerStep(s, ops[0]).0, ops[1..], i - 1); }
  }

  ghost predicate RefusesRepeats<P>(ops: seq<Op<P>>, seen: seq<Seen<P>>)
    requires |seen| == |ops|
  {
    forall i :: 0 <= i < |ops| && ops[i].Write? ==> seen[i] == Accepted(!Repeats(NewPlayer(), ops, i))
  }

  /**
   Exactly the writes that do not repeat a waiting number are accepted, and the non-nil reads
   are the non-nil packets accepted, in number order from 0 on and without a gap.
   */
  ghost predicate Delivers<P>(ops: seq<Op<P>>, seen: seq<Seen<P>>, end: Player<P>)
    requires |seen| == |ops|
  {
    && RefusesRepeats(ops, seen)
    && LogOf(ops, seen, end.log) && (forall a :: 0 <= a < end.next ==> a in end.log)
    && Present(Reads(seen)) == Present(Played(end.log, 0, end.next))
  }

  /**
   A ring of a lossless capacity takes every write of an orderly run but the repeats of a
   waiting number, and its non-nil reads are the non-nil packets that it took, in number order
   from 0 on and without a gap.
   */
  lemma RingIsLossless<P>(c: nat, ops: seq<Op<P>>, bound: nat)
    requires LosslessCapacity(c) && Orderly(c, NewPlayer(), ops, bound)
    ensures Delivers(ops, RunRing(EmptyRing(c), ops), PlayerAfter(NewPlayer(), ops))
  {
    RingSeesPlayer(c, ops, bound);
    PlayerDelivers(c, ops, bound);
  }

  lemma RingSeesPlayer<P>(c: nat, ops: seq<Op<P>>, bound: nat)
    requires LosslessCapacity(c) && Orderly(c, NewPlayer(), ops, bound)
    ensures RunRing(EmptyRing(c), ops) == RunPlayer(NewPlayer(), ops)
  {
    EmptyAgrees<P>(c, bound);
    LosslessCapacityNeverAliases(c, bound);
    RunAgrees(EmptyRing(c), NewPlayer(), ops, bound);
  }

  lemma PlayerDelivers<P>(c: nat, ops: seq<Op<P>>, bound: nat)
    requires Orderly(c, NewPlayer(), ops, bound)
    ensures Delivers(ops, RunPlayer(NewPlayer(), ops), PlayerAfter(NewPlayer(), ops))
  {
    PlayerIsLossless(c, NewPlayer(), ops, bound);
    PlayerLogIsRun(c, ops, bound);
  }

  // ------------------------------------------------------------- any write to any ring

  /** The slot for this number holds it already. */
  predicate Waiting<P>(r: Ring<P>, sn: Uint16)
    requires |r.slots| > 0
  {
    r.slots[sn % |r.slots|].filled && r.slots[sn % |r.slots|].sn == sn
  }

  lemma BehindDiff(next: Uint16, k: int)
    requires -32768 < k <= 32768
    ensures Int16((next - k) % SEQ_SPACE - next) == -k
  {
    assert ((next - k) % SEQ_SPACE - next + k) % SEQ_SPACE == 0;
  }

  /** What a write does, by how far its number is behind. */
  ghost predicate Outcome<P>(r: Ring<P>, sn: Uint16, packet: Option<P>, k: int, r': Ring<P>, ok: bool)
    requires |r.slots| > 0
  {
    && (ok <==> !Waiting(r, sn) && k <= |r.slots|)
    && (Waiting(r, sn) ==> r' == r)
    && (!ok && !Waiting(r, sn) ==> r' == r.(lateDrops := r.lateDrops + 1))
    && (ok ==> r'.slots == r.slots[sn % |r.slots| := Slot(sn, packet, true)]
               && r'.totalPackets == r.totalPackets + 1 && r'.lateDrops == r.lateDrops
               && r'.nextSeq == r.nextSeq
               && r'.nextWriteSeq == if k <= 0 then (sn + 1) % SEQ_SPACE else r.nextWriteSeq)
  }

  lemma OutcomeByDiff<P>(r: Ring<P>, sn: Uint16, packet: Option<P>, k: int)
    requires |r.slots| > 0 && Int16(sn - r.nextWriteSeq) == -k && LateBound(|r.slots|) == -|r.slots|
    ensures Outcome(r, sn, packet, k, WriteStep(r, sn, packet).0, WriteStep(r, sn, packet).1)
  {
  }

  /**
   A number k behind the next one expected is taken exactly when it is not waiting and k is at
   most the capacity. A waiting number changes nothing; one that is too late is only counted;
   one that is taken is stored, is counted, and touches no other slot.
   */
  lemma WriteOutcome<P>(r: Ring<P>, k: int, packet: Option<P>)
    requires 1 <= |r.slots| <= 32767 && -32768 < k <= 32768
    ensures var sn := (r.nextWriteSeq - k) % SEQ_SPACE;
            var (r', ok) := WriteStep(r, sn, packet);
            Outcome(r, sn, packet, k, r', ok)
  {
    BehindDiff(r.nextWriteSeq, k);
    OutcomeByDiff(r, (r.nextWriteSeq - k) % SEQ_SPACE, packet, k);
  }

  function RingAfter<P>(r: Ring<P>, ops: seq<Op<P>>): (r': Ring<P>)
    requires |r.slots| > 0
    decreases |ops|
  {
    if ops == [] then r else RingAfter(RingStep(r, ops[0]).0, ops[1..])
  }

  /** How many of these answers accept a write. */
  function AcceptedCount<P>(seen: seq<Seen<P>>): nat
  {
    if seen == [] then 0 else (if seen[0] == Accepted(true) then 1 else 0) + AcceptedCount(seen[1..])
  }

  /** On any run the packet counter counts the accepted writes. */
  lemma {:induction false} CounterTellsAccepted<P>(r: Ring<P>, ops: seq<Op<P>>)
    requires |r.slots| > 0
    ensures RingAfter(r, ops).totalPackets == r.totalPackets + AcceptedCount(RunRing(r, ops))
    decreases |ops|
  {
    if ops != [] {
      CounterTellsAccepted(RingStep(r, ops[0]).0, ops[1..]);
      assert RunRing(r, ops)[1..] == RunRing(RingStep(r, ops[0]).0, ops[1..]);
    }
  }

  lemma StepIsNotLate<P>(r: Ring<P>, s: Player<P>, op: Op<P>, bound: nat)
    requires Agrees(r, s, bound) && NeverLate(|r.slots|) && NoAlias(|r.slots|, bound)
    requires InWindow(|r.slots|, s, op, bound)
    ensures RingStep(r, op).0.lateDrops == r.lateDrops
  {
    if op.Write? {
      if Extend(s, op.sn) in s.log {
        RepeatIsRefused(r, s, op.sn, op.packet);
      } else {
        WriteIsAccepted(r, s, op.sn, op.packet, bound);
      }
    }
  }

  lemma {:induction false} RunIsNotLate<P>(r: Ring<P>, s: Player<P>, ops: seq<Op<P>>, bound: nat)
    requires Agrees(r, s, bound) && NeverLate(|r.slots|) && NoAlias(|r.slots|, bound)
    requires Orderly(|r.slots|, s, ops, bound)
    ensures RingAfter(r, ops).lateDrops == r.lateDrops
    decreases |ops|
  {
    if ops != [] {
      StepAgrees(r, s, ops[0], bound);
      StepIsNotLate(r, s, ops[0], bound);
      RunIsNotLate(RingStep(r, ops[0]).0, PlayerStep(s, ops[0]).0, ops[1..], bound);
    }
  }

  /** A new ring of a lossless capacity counts the accepted writes of an orderly run, and none as late. */
  lemma OrderlyCounters<P>(c: nat, ops: seq<Op<P>>, bound: nat)
    requires LosslessCapacity(c) && Orderly(c, NewPlayer(), ops, bound)
    ensures var end := RingAfter(EmptyRing(c), ops);
            end.lateDrops == 0 && end.totalPackets == AcceptedCount(RunRing(EmptyRing(c), ops))
  {
    EmptyAgrees<P>(c, bound);
    LosslessCapacityNeverAliases(c, bound);
    RunIsNotLate(EmptyRing(c), NewPlayer(), ops, bound);
    CounterTellsAccepted(EmptyRing(c), ops);
  }

  /** The first packet of a number is the one that is read. */
  lemma FirstPacketWins<P>(c: nat, first: P, second: P)
    requires 1 <= c <= 32767
    ensures RunRing(EmptyRing(c), [Write(0, Some(first)), Write(0, Some(second)), Read])
         == [Accepted(true), Accepted(false), Returned(Some(first))]
  {
    var w, v := Write(0, Some(first)), Write(0, Some(second));
    assert [w, v, Read] == [w] + ([v] + ([Read] + []));
    var r0 := EmptyRing<P>(c);
    var r1 := RingStep(r0, w).0;
    RingCons(r0, w, [v] + ([Read] + []));
    RingCons(r1, v, [Read] + []);
    RingCons(r1, Read, []);
  }
}
