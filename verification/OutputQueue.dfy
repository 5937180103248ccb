/**
 The output queue of a media transport: producers, a drain on barge-in and the sending
 loop, interleaved in any order. Sending and draining hold one mutex; the sending loop
 and cancellation do not. A synthesized packet waits for room and holds the mutex
 meanwhile.

 The queue has room for at least one packet.
 */
module OutputQueue {
  datatype Packet = Packet(id: nat, synthesized: bool)

  /** Who holds the mutex: nobody, a sender waiting for room, or a drain with what it has removed so far. */
  datatype Mutex = Free | Waiting(packet: Packet) | Draining(count: nat, removed: seq<Packet>)

  datatype State = State(
    capacity: nat,
    queue: seq<Packet>,
    mutex: Mutex,
    attached: bool,
    cancelled: bool,
    droppedPackets: nat,
    // history: every packet offered and its fate, the packets that left the queue, those of them
    // that the sending loop took, each finished drain, and how long the queue was at each drop and
    // at each acceptance
    offered: seq<Packet>,
    accepted: seq<Packet>,
    left: seq<Packet>,
    sent: seq<Packet>,
    dropped: seq<Packet>,
    refused: seq<Packet>,
    ignored: seq<Packet>,
    drains: seq<(nat, seq<Packet>)>,
    lengthAtDrop: seq<nat>,
    lengthAtAccept: seq<nat>)

  /** `giveUp` is the choice of a select whose cancellation case is ready. */
  datatype Action =
    | Send(packet: Packet, giveUp: bool)
    | Resume(giveUp: bool)
    | DrainStart
    | DrainOne
    | DrainEnd
    | Dequeue
    | Cancel
    | Detach

  function Init(capacity: nat): State
  {
    State(capacity, [], Free, true, false, 0, [], [], [], [], [], [], [], [], [], [])
  }

  predicate Full(s: State) { |s.queue| >= s.capacity }

  /** A waiting send can finish: there is room, or it is cancelled and gives up. */
  predicate CanFinish(s: State, giveUp: bool) { if giveUp then s.cancelled else !Full(s) }

  predicate Enabled(s: State, a: Action)
  {
    match a
    case Send(_, giveUp) => s.mutex.Free? && (giveUp ==> s.cancelled)
    case Resume(giveUp) => s.mutex.Waiting? && CanFinish(s, giveUp)
    case DrainStart => s.mutex.Free?
    case DrainOne => s.mutex.Draining? && s.queue != []
    case DrainEnd => s.mutex.Draining? && s.queue == []
    case Dequeue => s.queue != []
    case Cancel => true
    case Detach => s.mutex.Free?
  }

  function Enqueue(s: State, p: Packet): State
  {
    s.(queue := s.queue + [p], accepted := s.accepted + [p], lengthAtAccept := s.lengthAtAccept + [|s.queue|])
  }

  /** A full queue loses the packet. */
  function Drop(s: State, p: Packet): State
  {
    s.(droppedPackets := s.droppedPackets + 1, dropped := s.dropped + [p],
       lengthAtDrop := s.lengthAtDrop + [|s.queue|])
  }

  /** trySendPacket up to the point where it returns or has to wait. */
  function SendStep(s: State, p: Packet, giveUp: bool): State
  {
    var s := s.(offered := s.offered + [p]);
    if !s.attached then s.(ignored := s.ignored + [p])
    else if p.synthesized then
      if giveUp then s.(refused := s.refused + [p])
      else if Full(s) then s.(mutex := Waiting(p))
      else Enqueue(s, p)
    else if Full(s) then Drop(s, p)
    else Enqueue(s, p)
  }

  function Step(s: State, a: Action): State
    requires Enabled(s, a)
  {
    match a
    case Send(p, giveUp) => SendStep(s, p, giveUp)
    case Resume(giveUp) =>
      var p := s.mutex.packet;
      if giveUp then s.(mutex := Free, refused := s.refused + [p]) else Enqueue(s.(mutex := Free), p)
    case DrainStart => s.(mutex := Draining(0, []))
    case DrainOne =>
      s.(queue := s.queue[1..], left := s.left + [s.queue[0]],
         mutex := Draining(s.mutex.count + 1, s.mutex.removed + [s.queue[0]]))
    case DrainEnd => s.(mutex := Free, drains := s.drains + [(s.mutex.count, s.mutex.removed)])
    case Dequeue => s.(queue := s.queue[1..], left := s.left + [s.queue[0]], sent := s.sent + [s.queue[0]])
    case Cancel => s.(cancelled := true)
    case Detach => s.(attached := false)
  }

  ghost predicate Runs(s: State, acts: seq<Action>)
    decreases |acts|
  {
    acts == [] || (Enabled(s, acts[0]) && Runs(Step(s, acts[0]), acts[1..]))
  }

  ghost function After(s: State, acts: seq<Action>): State
    requires Runs(s, acts)
    decreases |acts|
  {
    if acts == [] then s else After(Step(s, acts[0]), acts[1..])
  }

  // ---------------------------------------------------------------------- accounting

  function InHand(m: Mutex): seq<Packet> { if m.Waiting? then [m.packet] else [] }

  /** Packets leave in the order they were accepted, and the queue keeps its bound. */
  ghost predicate Fifo(s: State)
  {
    s.left + s.queue == s.accepted && |s.queue| <= s.capacity
  }

  /** How often the packet occurs. */
  function Occurs(s: seq<Packet>, p: Packet): nat
  {
    if s == [] then 0 else Occurs(s[..|s| - 1], p) + (if s[|s| - 1] == p then 1 else 0)
  }

  /** As often as p was offered, it met one of its fates. */
  ghost predicate OneFate(s: State, p: Packet)
  {
    Occurs(s.offered, p) ==
    Occurs(s.accepted, p) + Occurs(s.dropped, p) + Occurs(s.refused, p) + Occurs(s.ignored, p) +
        Occurs(InHand(s.mutex), p)
  }

  ghost predicate Balanced(s: State)
  {
    forall p {:trigger OneFate(s, p)} :: OneFate(s, p)
  }

  /** Every fate has its reason. */
  ghost predicate Justified(s: State)
  {
    && s.droppedPackets == |s.dropped| == |s.lengthAtDrop| && |s.accepted| == |s.lengthAtAccept|
    && (forall i :: 0 <= i < |s.lengthAtDrop| ==> s.lengthAtDrop[i] >= s.capacity)
    && (forall i :: 0 <= i < |s.lengthAtAccept| ==> s.lengthAtAccept[i] < s.capacity)
    && (forall i :: 0 <= i < |s.dropped| ==> !s.dropped[i].synthesized)
    && (forall i :: 0 <= i < |s.refused| ==> s.refused[i].synthesized)
    && (s.mutex.Waiting? ==> s.mutex.packet.synthesized)
    && (s.refused != [] ==> s.cancelled)
    && (s.ignored != [] ==> !s.attached)
  }

  /** What the finished drains reported, and how often they removed a packet. */
  function Reported(drains: seq<(nat, seq<Packet>)>): nat
  {
    if drains == [] then 0 else Reported(drains[..|drains| - 1]) + drains[|drains| - 1].0
  }

  function RemovedBy(drains: seq<(nat, seq<Packet>)>, p: Packet): nat
  {
    if drains == [] then 0 else RemovedBy(drains[..|drains| - 1], p) + Occurs(drains[|drains| - 1].1, p)
  }

  function RunningCount(m: Mutex): nat { if m.Draining? then m.count else 0 }

  function RunningRemoved(m: Mutex): seq<Packet> { if m.Draining? then m.removed else [] }

  /** Every packet that left the queue was sent, or counted by the drain that removed it. */
  ghost predicate DrainsExact(s: State)
  {
    && (s.mutex.Draining? ==> s.mutex.count == |s.mutex.removed|)
    && (forall i :: 0 <= i < |s.drains| ==> s.drains[i].0 == |s.drains[i].1|)
    && |s.left| == |s.sent| + Reported(s.drains) + RunningCount(s.mutex)
  }

  /** As often as p left the queue, it was sent or removed by a drain. */
  ghost predicate OneExit(s: State, p: Packet)
  {
    Occurs(s.left, p) == Occurs(s.sent, p) + RemovedBy(s.drains, p) + Occurs(RunningRemoved(s.mutex), p)
  }

  ghost predicate Traced(s: State)
  {
    forall p {:trigger OneExit(s, p)} :: OneExit(s, p)
  }

  ghost predicate Inv(s: State) { Fifo(s) && Balanced(s) && Justified(s) && DrainsExact(s) && Traced(s) }

  lemma StepKeepsFifo(s: State, a: Action)
    requires Fifo(s) && Enabled(s, a)
    ensures Fifo(Step(s, a))
  {
    if a.DrainOne? || a.Dequeue? {
      assert s.left + s.queue == (s.left + [s.queue[0]]) + s.queue[1..];
    }
  }

  lemma OccursAppend(s: seq<Packet>, x: Packet, p: Packet)
    ensures Occurs(s + [x], p) == Occurs(s, p) + (if p == x then 1 else 0)
  {
    assert (s + [x])[..|s|] == s;
  }

  lemma SendKeepsOneFate(s: State, x: Packet, giveUp: bool, p: Packet)
    requires OneFate(s, p) && s.mutex.Free?
    ensures OneFate(SendStep(s, x, giveUp), p)
  {
    OccursAppend(s.offered, x, p);
    if !s.attached {
      OccursAppend(s.ignored, x, p);
    } else if x.synthesized && giveUp {
      OccursAppend(s.refused, x, p);
    } else if x.synthesized && Full(s) {
      OccursAppend([], x, p);
      assert [] + [x] == [x];
    } else if Full(s) {
      OccursAppend(s.dropped, x, p);
    } else {
      OccursAppend(s.accepted, x, p);
    }
  }

  lemma ResumeKeepsOneFate(s: State, giveUp: bool, p: Packet)
    requires OneFate(s, p) && Enabled(s, Resume(giveUp))
    ensures OneFate(Step(s, Resume(giveUp)), p)
  {
    var x := s.mutex.packet;
    OccursAppend([], x, p);
    assert [] + [x] == [x];
    if giveUp { OccursAppend(s.refused, x, p); } else { OccursAppend(s.accepted, x, p); }
  }

  lemma StepKeepsOneFate(s: State, a: Action, p: Packet)
    requires OneFate(s, p) && Enabled(s, a)
    ensures OneFate(Step(s, a), p)
  {
    match a
    case Send(x, giveUp) => SendKeepsOneFate(s, x, giveUp, p);
    case Resume(giveUp) => ResumeKeepsOneFate(s, giveUp, p);
    case _ =>
  }

  lemma StepKeepsBalanced(s: State, a: Action)
    requires Balanced(s) && Enabled(s, a)
    ensures Balanced(Step(s, a))
  {
    forall p ensures OneFate(Step(s, a), p) {
      assert OneFate(s, p);
      StepKeepsOneFate(s, a, p);
    }
  }

  lemma {:induction false} OccursMeansIn(s: seq<Packet>, p: Packet)
    ensures Occurs(s, p) > 0 <==> p in s
  {
    if s != [] {
      OccursMeansIn(s[..|s| - 1], p);
      assert s == s[..|s| - 1] + [s[|s| - 1]];
    }
  }

  lemma DropKeepsJustified(s: State, p: Packet)
    requires Justified(s) && !p.synthesized && Full(s)
    ensures Justified(Drop(s, p))
  {
  }

  lemma EnqueueKeepsJustified(s: State, p: Packet)
    requires Justified(s) && !Full(s)
    ensures Justified(Enqueue(s, p))
  {
  }

  lemma SendKeepsJustified(s: State, p: Packet, giveUp: bool)
    requires Justified(s) && Enabled(s, Send(p, giveUp))
    ensures Justified(SendStep(s, p, giveUp))
  {
    var t := s.(offered := s.offered + [p]);
    if s.attached && Full(s) && !p.synthesized {
      DropKeepsJustified(t, p);
    } else if s.attached && !Full(s) && !(p.synthesized && giveUp) {
      EnqueueKeepsJustified(t, p);
    }
  }

  lemma StepKeepsJustified(s: State, a: Action)
    requires Justified(s) && Enabled(s, a)
    ensures Justified(Step(s, a))
  {
    if a.Send? { SendKeepsJustified(s, a.packet, a.giveUp); }
  }

  lemma StepKeepsDrainsExact(s: State, a: Action)
    requires DrainsExact(s) && Enabled(s, a)
    ensures DrainsExact(Step(s, a))
  {
    if a.DrainEnd? { assert (s.drains + [(s.mutex.count, s.mutex.removed)])[..|s.drains|] == s.drains; }
  }

  lemma RemovedAppend(drains: seq<(nat, seq<Packet>)>, d: (nat, seq<Packet>), p: Packet)
    ensures RemovedBy(drains + [d], p) == RemovedBy(drains, p) + Occurs(d.1, p)
  {
    assert (drains + [d])[..|drains|] == drains;
  }

  lemma SendKeepsExits(s: State, x: Packet, giveUp: bool)
    requires s.mutex.Free?
    ensures var t := SendStep(s, x, giveUp);
            t.left == s.left && t.sent == s.sent && t.drains == s.drains && !t.mutex.Draining?
  {
  }

  lemma DrainOneKeepsOneExit(s: State, p: Packet)
    requires OneExit(s, p) && Enabled(s, DrainOne)
    ensures OneExit(Step(s, DrainOne), p)
  {
    OccursAppend(s.left, s.queue[0], p);
    OccursAppend(s.mutex.removed, s.queue[0], p);
  }

  lemma DequeueKeepsOneExit(s: State, p: Packet)
    requires OneExit(s, p) && Enabled(s, Dequeue)
    ensures OneExit(Step(s, Dequeue), p)
  {
    OccursAppend(s.left, s.queue[0], p);
    OccursAppend(s.sent, s.queue[0], p);
  }

  lemma StepKeepsOneExit(s: State, a: Action, p: Packet)
    requires OneExit(s, p) && Enabled(s, a)
    ensures OneExit(Step(s, a), p)
  {
    match a
    case Send(x, giveUp) => SendKeepsExits(s, x, giveUp);
    case DrainOne => DrainOneKeepsOneExit(s, p);
    case DrainEnd => RemovedAppend(s.drains, (s.mutex.count, s.mutex.removed), p);
    case Dequeue => DequeueKeepsOneExit(s, p);
    case _ =>
  }

  lemma StepKeepsTraced(s: State, a: Action)
    requires Traced(s) && Enabled(s, a)
    ensures Traced(Step(s, a))
  {
    forall p ensures OneExit(Step(s, a), p) {
      assert OneExit(s, p);
      StepKeepsOneExit(s, a, p);
    }
  }

  lemma {:induction false} RunKeepsInv(s: State, acts: seq<Action>)
    requires Inv(s) && Runs(s, acts)
    ensures Inv(After(s, acts)) && After(s, acts).capacity == s.capacity
    decreases |acts|
  {
    if acts != [] {
      StepKeepsFifo(s, acts[0]);
      StepKeepsBalanced(s, acts[0]);
      StepKeepsJustified(s, acts[0]);
      StepKeepsDrainsExact(s, acts[0]);
      StepKeepsTraced(s, acts[0]);
      RunKeepsInv(Step(s, acts[0]), acts[1..]);
    }
  }

  /**
   On every interleaving: packets leave first in, first out; every packet that is not
   synthesized and was offered to an attached transport was accepted or is one of the
   droppedPackets; the queue was full at every drop and had room at every acceptance; no
   synthesized packet is refused before cancellation; what left the queue
   was sent by the loop or reported by the drain that removed it.
   */
  lemma QueueAccounts(capacity: nat, acts: seq<Action>)
    requires Runs(Init(capacity), acts)
    ensures var s := After(Init(capacity), acts);
            && s.left <= s.accepted
            && (forall i :: 0 <= i < |s.drains| ==> s.drains[i].0 == |s.drains[i].1|)
            && |s.left| == |s.sent| + Reported(s.drains) + RunningCount(s.mutex)
            && (forall p :: OneExit(s, p))
            && (!s.cancelled ==> s.refused == [])
            && s.droppedPackets == |s.dropped| == |s.lengthAtDrop| && |s.accepted| == |s.lengthAtAccept|
            && (forall i :: 0 <= i < |s.lengthAtDrop| ==> s.lengthAtDrop[i] >= capacity)
            && (forall i :: 0 <= i < |s.lengthAtAccept| ==> s.lengthAtAccept[i] < capacity)
            && forall p: Packet :: !p.synthesized && s.attached ==>
                Occurs(s.offered, p) == Occurs(s.accepted, p) + Occurs(s.dropped, p)
  {
    RunKeepsInv(Init(capacity), acts);
    var s := After(Init(capacity), acts);
    forall p: Packet | !p.synthesized && s.attached
      ensures Occurs(s.offered, p) == Occurs(s.accepted, p) + Occurs(s.dropped, p)
    {
      assert OneFate(s, p);
      OccursMeansIn(s.refused, p);
      OccursMeansIn(InHand(s.mutex), p);
    }
  }

  /** Only cancellation cancels, and only detaching detaches. */
  lemma {:induction false} FlagsTellTheRun(s: State, acts: seq<Action>)
    requires Runs(s, acts)
    ensures After(s, acts).cancelled <==> s.cancelled || Cancel in acts
    ensures After(s, acts).attached <==> s.attached && Detach !in acts
    decreases |acts|
  {
    if acts != [] {
      FlagsTellTheRun(Step(s, acts[0]), acts[1..]);
      assert acts == [acts[0]] + acts[1..];
    }
  }

  /** From the start: attached until detached, and nothing refused or ignored without a reason in the run. */
  lemma FlagsFromStart(capacity: nat, acts: seq<Action>)
    requires Runs(Init(capacity), acts)
    ensures var s := After(Init(capacity), acts);
            && (s.cancelled <==> Cancel in acts) && (s.attached <==> Detach !in acts)
            && (Cancel !in acts ==> s.refused == []) && (Detach !in acts ==> s.ignored == [])
  {
    FlagsTellTheRun(Init(capacity), acts);
    RunKeepsInv(Init(capacity), acts);
  }

  /** The steps of a drain that nothing disturbs. */
  function DrainSteps(n: nat): seq<Action>
  {
    if n == 0 then [DrainEnd] else [DrainOne] + DrainSteps(n - 1)
  }

  lemma RunsCons(s: State, a: Action, rest: seq<Action>)
    requires Enabled(s, a) && Runs(Step(s, a), rest)
    ensures Runs(s, [a] + rest) && After(s, [a] + rest) == After(Step(s, a), rest)
  {
    assert ([a] + rest)[1..] == rest;
  }

  lemma {:induction false} DrainGoesThrough(s: State)
    requires s.mutex.Draining?
    ensures Runs(s, DrainSteps(|s.queue|)) && (Enabled(s, DrainEnd) <==> s.queue == [])
    ensures var t := After(s, DrainSteps(|s.queue|));
            && t.queue == [] && t.mutex == Free && t.sent == s.sent
            && t.drains == s.drains + [(s.mutex.count + |s.queue|, s.mutex.removed + s.queue)]
    decreases |s.queue|
  {
    if s.queue == [] {
      assert s.mutex.removed + s.queue == s.mutex.removed;
      assert [DrainEnd][1..] == [];
    } else {
      DrainGoesThrough(Step(s, DrainOne));
      assert (s.mutex.removed + [s.queue[0]]) + s.queue[1..] == s.mutex.removed + s.queue;
      RunsCons(s, DrainOne, DrainSteps(|s.queue| - 1));
    }
  }

  /** A drain that nothing disturbs removes the whole queue, reports its length and sends none of it. */
  lemma DrainTakesAll(s: State)
    requires s.mutex.Free?
    ensures Runs(s, [DrainStart] + DrainSteps(|s.queue|)) && (Enabled(Step(s, DrainStart), DrainEnd) <==> s.queue == [])
    ensures var t := After(s, [DrainStart] + DrainSteps(|s.queue|));
            t.queue == [] && t.mutex == Free && t.sent == s.sent && t.drains == s.drains + [(|s.queue|, s.queue)]
  {
    var d := Step(s, DrainStart);
    DrainGoesThrough(d);
    assert [] + s.queue == s.queue;
    RunsCons(s, DrainStart, DrainSteps(|s.queue|));
  }

  /** The packet joins the end of the queue, and nothing else happens to it or to the others. */
  ghost predicate Joins(s: State, p: Packet, t: State)
  {
    && t.queue == s.queue + [p] && t.accepted == s.accepted + [p] && t.mutex == Free
    && t.droppedPackets == s.droppedPackets && t.dropped == s.dropped && t.refused == s.refused
    && t.ignored == s.ignored
  }

  /** The packet is counted as dropped, and the queue is as it was. */
  ghost predicate Drops(s: State, p: Packet, t: State)
  {
    && t.queue == s.queue && t.accepted == s.accepted && t.mutex == Free
    && t.droppedPackets == s.droppedPackets + 1 && t.dropped == s.dropped + [p] && t.refused == s.refused
    && t.ignored == s.ignored
  }

  /** The packet is in its sender's hands, which hold the mutex. */
  ghost predicate Waits(s: State, p: Packet, t: State)
  {
    && t.queue == s.queue && t.accepted == s.accepted && t.mutex == Waiting(p)
    && t.droppedPackets == s.droppedPackets && t.dropped == s.dropped && t.refused == s.refused
    && t.ignored == s.ignored
  }

  /**
   A packet sent to an attached transport joins the queue exactly when there is room. Otherwise
   an ordinary packet is dropped and counted, and a synthesized one that does not give up waits.
   */
  lemma SendOutcome(s: State, p: Packet, giveUp: bool)
    requires Enabled(s, Send(p, giveUp)) && s.attached && (p.synthesized ==> !giveUp)
    ensures var t := Step(s, Send(p, giveUp));
            && t.offered == s.offered + [p]
            && (Joins(s, p, t) <==> |s.queue| < s.capacity)
            && (Drops(s, p, t) <==> !p.synthesized && |s.queue| >= s.capacity)
            && (Waits(s, p, t) <==> p.synthesized && |s.queue| >= s.capacity)
  {
    assert |s.queue + [p]| != |s.queue|;
  }

  /** Waiting ends with the packet at the end of the queue, or refused after cancellation. */
  lemma ResumeOutcome(s: State, giveUp: bool)
    requires Enabled(s, Resume(giveUp))
    ensures var p, t := s.mutex.packet, Step(s, Resume(giveUp));
            && (giveUp ==> s.cancelled && t == s.(mutex := Free, refused := s.refused + [p]))
            && (!giveUp ==> |s.queue| < s.capacity && Joins(s.(mutex := Free), p, t))
  {
  }

  /**
   While a synthesized packet waits for room, a drain cannot start: only the sending loop or
   cancellation can help.
   */
  lemma WaitingSenderHoldsOffDrain(s: State, a: Action)
    requires s.mutex.Waiting? && Full(s) && !s.cancelled
    ensures Enabled(s, a) <==> a.Cancel? || (a.Dequeue? && s.queue != [])
  {
  }
}
