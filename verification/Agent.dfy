/**
 The voice agent: listen, recognise, think, speak.

 The speech services, the client connection and callers outside the loop are the
 environment and may answer in any way. `outside` marks a barge-in requested by such
 a caller; the loop's own barge-in calls are counted separately.
 */
module Agent {
  import opened Common
  import Turn

  type Samples = seq<real>

  datatype SessionState = Idle | Listening | Thinking | Speaking

  datatype Vad = VadError | Heard(speaking: bool, energy: real)

  datatype Answer<T> = Ok(value: T) | Failed

  /** What ends the wait after a frame was sent. */
  datatype Wake = Timer | ContextDone | BargeInSignal

  /** The environment around one played frame; a barge-in may come before it is sent or during the wait after it. */
  datatype FrameEnv = FrameEnv(outside: bool, cancelled: bool, sendFails: bool, during: bool, wake: Wake)

  /** The environment of one turn; the `outside` flags are barge-ins before each of the two checks. */
  datatype TurnEnv = TurnEnv(
    asr: Answer<string>, outside1: bool,
    llm: Answer<string>, outside2: bool,
    tts: Answer<Samples>, frames: nat -> FrameEnv)

  datatype Signal =
    | AudioIn(audio: Samples, vad: Vad, now: int)
    | SpeechEnded(env: TurnEnv)
    | BargeInTaken
    | OutsideBargeIn

  // ------------------------------------------------------------------------ playback

  /** Samples in a frame, with the default for a non-positive size. */
  function SamplesPerFrame(sampleRate: nat, frameMs: nat): (n: nat)
    ensures n > 0
    ensures sampleRate * frameMs >= 1000 ==> 1000 * n <= sampleRate * frameMs < 1000 * (n + 1)
    ensures sampleRate * frameMs < 1000 ==> n == 320
  {
    var n := sampleRate * frameMs / 1000;
    if n <= 0 then 320 else n
  }

  /** The interrupt state that playback reads: the atomic flag and the one-place signal channel. */
  datatype Interrupt = Interrupt(flag: bool, signal: bool)

  /** What is left of n samples once a frame is taken off. */
  function AfterFrame(n: nat, spf: nat): nat { if n <= spf then 0 else n - spf }

  /** Playing n samples from frame k on: the samples left unplayed and the interrupt state left behind. */
  function Play(i: Interrupt, hasSink: bool, n: nat, spf: nat, k: nat, env: nat -> FrameEnv): (r: (nat, Interrupt))
    requires spf > 0
    ensures r.0 <= n
    decreases n
  {
    if n == 0 then (0, i)
    else
      var e := env(k);
      var i1 := if e.outside then Interrupt(true, true) else i;
      if i1.flag || e.cancelled || (hasSink && e.sendFails) then (n, i1)
      else
        var i2 := if e.during then Interrupt(true, true) else i1;
        if e.wake.ContextDone? then (AfterFrame(n, spf), i2)
        else if e.wake.BargeInSignal? && i2.signal then (AfterFrame(n, spf), i2.(signal := false))
        else Play(i2, hasSink, AfterFrame(n, spf), spf, k + 1, env)
  }

  function FrameCount(n: nat, spf: nat): nat
    requires spf > 0
  {
    if n == 0 then 0 else 1 + FrameCount(AfterFrame(n, spf), spf)
  }

  /** Whatever is played is all of the audio or a whole number of frames. */
  lemma {:induction false} PlayIsFrameAligned(i: Interrupt, hasSink: bool, n: nat, spf: nat, k: nat,
                                              env: nat -> FrameEnv)
    requires spf > 0
    ensures var left := Play(i, hasSink, n, spf, k, env).0;
            left == 0 || exists m: nat :: n - left == m * spf
    decreases n
  {
    var left := Play(i, hasSink, n, spf, k, env).0;
    if left == n {
      assert n - left == 0 * spf;
    } else if left > 0 {
      var i2 := if env(k).outside || env(k).during then Interrupt(true, true) else i;
      if left == n - spf {
        assert n - left == 1 * spf;
      } else {
        PlayIsFrameAligned(i2, hasSink, n - spf, spf, k + 1, env);
        var m: nat :| n - spf - left == m * spf;
        assert n - left == (m + 1) * spf;
      }
    }
  }

  /** Nothing in the environment of frame j disturbs it; only the last frame's wait does not matter. */
  ghost predicate Undisturbed(signal: bool, hasSink: bool, e: FrameEnv, last: bool)
  {
    && !e.outside && !e.cancelled && !(hasSink && e.sendFails)
    && (last || (!e.during && (e.wake.Timer? || (e.wake.BargeInSignal? && !signal))))
  }

  /** All of it is played exactly when no frame is disturbed. */
  lemma {:induction false} PlaysAllExactly(i: Interrupt, hasSink: bool, n: nat, spf: nat, k: nat, env: nat -> FrameEnv)
    requires spf > 0
    ensures var count := FrameCount(n, spf);
            Play(i, hasSink, n, spf, k, env).0 == 0 <==>
            n == 0 || (!i.flag && forall j :: k <= j < k + count ==>
                Undisturbed(i.signal, hasSink, env(j), j == k + count - 1))
    decreases n
  {
    if n > 0 {
      var rest := AfterFrame(n, spf);
      PlaysAllExactly(i, hasSink, rest, spf, k + 1, env);
      var count := FrameCount(n, spf);
      assert count == 1 + FrameCount(rest, spf);
      assert !Undisturbed(i.signal, hasSink, env(k), count == 1) ==> k < k + count;
    }
  }

  /** Something stops the frame before it is sent. */
  predicate StopsBefore(hasSink: bool, e: FrameEnv) { e.outside || e.cancelled || (hasSink && e.sendFails) }

  /** Something in the wait after the frame keeps the next one from being sent. */
  predicate StopsAfter(signal: bool, e: FrameEnv)
  {
    e.during || e.wake.ContextDone? || (e.wake.BargeInSignal? && signal)
  }

  /** The interrupt state after a disturbed frame. */
  function LeftBehind(i: Interrupt, hasSink: bool, e: FrameEnv): Interrupt
  {
    if StopsBefore(hasSink, e) then Interrupt(i.flag || e.outside, i.signal || e.outside)
    else Interrupt(i.flag || e.during, (i.signal || e.during) && !e.wake.BargeInSignal?)
  }

  /** What is left of n samples after m frames. */
  function LeftAfter(n: nat, spf: nat, m: nat): nat { if m * spf >= n then 0 else n - m * spf }

  lemma LeftAfterNext(n: nat, spf: nat, m: nat)
    ensures LeftAfter(AfterFrame(n, spf), spf, m) == LeftAfter(n, spf, m + 1)
  {
    assert (m + 1) * spf == m * spf + spf;
    if n <= spf { assert m * spf >= 0; }
  }

  /** A barge-in during the wait stops the playback before the next frame. */
  lemma StopsAfterOne(i: Interrupt, hasSink: bool, n: nat, spf: nat, k: nat, env: nat -> FrameEnv)
    requires spf > 0 && n > 0 && !i.flag && !StopsBefore(hasSink, env(k)) && StopsAfter(i.signal, env(k))
    ensures Play(i, hasSink, n, spf, k, env) == (AfterFrame(n, spf), LeftBehind(i, hasSink, env(k)))
  {
  }

  /**
   When the first m frames are undisturbed and frame m is not, exactly the m frames are sent if it
   is stopped before it is sent, and m + 1 if it is disturbed in the wait after it. A barge-in
   leaves the flag up, and its signal too unless the wait took it.
   */
  lemma {:induction false} StopsAtFirstDisturbance(i: Interrupt, hasSink: bool, n: nat, spf: nat, k: nat,
                                                   env: nat -> FrameEnv, m: nat)
    requires spf > 0 && !i.flag
    requires forall j :: k <= j < k + m ==> Undisturbed(i.signal, hasSink, env(j), false)
    ensures var left := Play(i, hasSink, n, spf, k, env).0;
            && (StopsBefore(hasSink, env(k + m)) ==> left == LeftAfter(n, spf, m))
            && (!StopsBefore(hasSink, env(k + m)) && StopsAfter(i.signal, env(k + m)) ==>
                  left == LeftAfter(n, spf, m + 1))
    ensures LeftAfter(n, spf, m) > 0 && (StopsBefore(hasSink, env(k + m)) || StopsAfter(i.signal, env(k + m))) ==>
              Play(i, hasSink, n, spf, k, env).1 == LeftBehind(i, hasSink, env(k + m))
    decreases m
  {
    LeftAfterNext(n, spf, m);
    if n == 0 {
      assert m * spf >= 0 && (m + 1) * spf >= 0;
    } else if m > 0 {
      assert Undisturbed(i.signal, hasSink, env(k), false);
      LeftAfterNext(n, spf, m - 1);
      StopsAtFirstDisturbance(i, hasSink, AfterFrame(n, spf), spf, k + 1, env, m - 1);
    } else {
      FirstFrameStops(i, hasSink, n, spf, k, env);
    }
  }

  lemma FirstFrameStops(i: Interrupt, hasSink: bool, n: nat, spf: nat, k: nat, env: nat -> FrameEnv)
    requires spf > 0 && !i.flag && n > 0
    ensures var left := Play(i, hasSink, n, spf, k, env).0;
            && (StopsBefore(hasSink, env(k)) ==> left == LeftAfter(n, spf, 0))
            && (!StopsBefore(hasSink, env(k)) && StopsAfter(i.signal, env(k)) ==> left == LeftAfter(n, spf, 1))
    ensures StopsBefore(hasSink, env(k)) || StopsAfter(i.signal, env(k)) ==>
              Play(i, hasSink, n, spf, k, env).1 == LeftBehind(i, hasSink, env(k))
  {
    if !StopsBefore(hasSink, env(k)) && StopsAfter(i.signal, env(k)) { StopsAfterOne(i, hasSink, n, spf, k, env); }
  }

  /** Without a barge-in there is nothing left behind. */
  lemma {:induction false} QuietPlayLeavesNothing(i: Interrupt, hasSink: bool, n: nat, spf: nat, k: nat,
                                                  env: nat -> FrameEnv)
    requires spf > 0 && !i.flag && !i.signal && forall j :: !env(j).outside && !env(j).during
    ensures Play(i, hasSink, n, spf, k, env).1 == i
    decreases n
  {
    if n > 0 {
      QuietPlayLeavesNothing(i, hasSink, AfterFrame(n, spf), spf, k + 1, env);
    }
  }

  /** Nobody interrupts: no barge-in, no cancellation, no failed send. */
  ghost predicate Quiet(hasSink: bool, env: nat -> FrameEnv)
  {
    forall j :: !env(j).outside && !env(j).during && !env(j).cancelled && !(hasSink && env(j).sendFails) &&
        !env(j).wake.ContextDone?
  }

  /** The waits after the frames may still end either way. */
  ghost predicate AlwaysPlaysAll(i: Interrupt, hasSink: bool, n: nat, spf: nat)
    requires spf > 0
  {
    forall env: nat -> FrameEnv :: Quiet(hasSink, env) ==> Play(i, hasSink, n, spf, 0, env).0 == 0
  }

  /**
   When nobody interrupts, everything is sure to be played exactly when there is nothing to
   play, or the flag is down and either no old signal is waiting or one frame is enough.
   */
  lemma AlwaysPlaysAllExactly(i: Interrupt, hasSink: bool, n: nat, spf: nat)
    requires spf > 0
    ensures AlwaysPlaysAll(i, hasSink, n, spf) <==> n == 0 || (!i.flag && (!i.signal || n <= spf))
  {
    if n == 0 || (!i.flag && (!i.signal || n <= spf)) {
      forall env: nat -> FrameEnv | Quiet(hasSink, env)
        ensures Play(i, hasSink, n, spf, 0, env).0 == 0
      {
        PlaysAllExactly(i, hasSink, n, spf, 0, env);
      }
    } else {
      var env: nat -> FrameEnv := _ => FrameEnv(false, false, false, false, BargeInSignal);
      assert Quiet(hasSink, env);
      assert Play(i, hasSink, n, spf, 0, env).0 != 0;
    }
  }

  // --------------------------------------------------------------- the loop on values

  datatype Setup = Setup(config: Turn.Config, hasSink: bool, spf: nat)

  /** The loop's fields, and what it reported and sent. */
  datatype Loop = Loop(
    turn: Turn.Core, state: SessionState, buffer: Samples, flag: bool, signal: bool, ended: bool,
    toAsr: seq<Samples>, played: seq<Samples>, changes: seq<SessionState>)

  function Enter(l: Loop, s: SessionState): Loop
  {
    if l.state == s then l else l.(state := s, changes := l.changes + [s])
  }

  function Barged(l: Loop, outside: bool): Loop { if outside then l.(flag := true, signal := true) else l }

  /** The detector reports an end or a timeout. */
  predicate Ends(events: seq<Turn.Event>) { events != [] && !events[0].SpeechStart? }

  /** One audio frame. */
  function OnAudio(c: Setup, l: Loop, audio: Samples, vad: Vad, now: int): Loop
  {
    if vad.VadError? then l
    else if l.state.Speaking? then Barged(l, vad.speaking && vad.energy > 0.02)
    else
      var (turn, events) := Turn.Advance(c.config, l.turn, Turn.Frame(vad.speaking, now));
      l.(turn := turn, buffer := l.buffer + audio, ended := l.ended || Ends(events))
  }

  /** Playing a reply, from Thinking. */
  function Reply(c: Setup, l: Loop, audio: Samples, env: nat -> FrameEnv): Loop
    requires c.spf > 0
  {
    var l1 := Enter(l, Speaking);
    var (left, i) := Play(Interrupt(l1.flag, l1.signal), c.hasSink, |audio|, c.spf, 0, env);
    Enter(l1.(flag := false, signal := i.signal, played := l1.played + [audio[..|audio| - left]]), Listening)
  }

  /** From the second check on. */
  function Synthesise(c: Setup, l: Loop, env: TurnEnv): Loop
    requires c.spf > 0
  {
    var l1 := Barged(l, env.outside2);
    if l1.flag || env.tts.Failed? then Enter(l1.(flag := false), Listening)
    else Reply(c, l1, env.tts.value, env.frames)
  }

  /** From recognition on. */
  function Answered(c: Setup, l: Loop, env: TurnEnv): Loop
    requires c.spf > 0
  {
    if env.asr.Failed? then Enter(l, Listening)
    else
      var l1 := Barged(l, env.outside1);
      if l1.flag || env.llm.Failed? then Enter(l1.(flag := false), Listening) else Synthesise(c, l1, env)
  }

  /** One conversation turn. */
  function Converse(c: Setup, l: Loop, env: TurnEnv): Loop
    requires c.spf > 0
  {
    if l.buffer == [] then l
    else Answered(c, Enter(l.(buffer := [], toAsr := l.toAsr + [l.buffer]), Thinking), env)
  }

  /** One turn of the select. */
  function Step(c: Setup, l: Loop, s: Signal): Loop
    requires c.spf > 0
  {
    match s
    case AudioIn(audio, vad, now) => OnAudio(c, l, audio, vad, now)
    case SpeechEnded(env) => if l.ended then Converse(c, l.(ended := false), env) else l
    case BargeInTaken => l.(signal := false)
    case OutsideBargeIn => Barged(l, true)
  }

  /**
   A barge-in is the flag together with its signal. It comes from outside, or from loud speech in a
   frame read while speaking; taking the signal leaves the flag alone, and so does any other frame.
   */
  lemma BargeInExactly(c: Setup, l: Loop, s: Signal)
    requires c.spf > 0 && !l.flag && !l.signal && !s.SpeechEnded?
    ensures var t := Step(c, l, s);
            var loud := s.AudioIn? && s.vad.Heard? && l.state.Speaking? && s.vad.speaking && s.vad.energy * 50.0 > 1.0;
            && t.flag == t.signal && (t.flag <==> s.OutsideBargeIn? || loud)
            && Step(c, l.(flag := true, signal := true), BargeInTaken) == l.(flag := true)
  {
  }

  /** However a turn goes, it ends with the flag down and, if it began, in Listening. */
  lemma TurnLowersFlag(c: Setup, l: Loop, env: TurnEnv)
    requires c.spf > 0 && l.ended && l.buffer != [] && (env.asr.Failed? ==> !l.flag)
    ensures var t := Step(c, l, SpeechEnded(env)); !t.flag && t.state.Listening? && !t.ended && t.buffer == []
  {
    var l1 := Enter(l.(ended := false, buffer := [], toAsr := l.toAsr + [l.buffer]), Thinking);
    if env.asr.Ok? && env.llm.Ok? { SynthesiseLowersFlag(c, Barged(l1, env.outside1), env); }
  }

  lemma SynthesiseLowersFlag(c: Setup, l: Loop, env: TurnEnv)
    requires c.spf > 0
    ensures var t := Synthesise(c, l, env); !t.flag && t.state.Listening? && t.ended == l.ended && t.buffer == l.buffer
  {
  }

  function RunAll(c: Setup, l: Loop, signals: seq<Signal>): Loop
    requires c.spf > 0
  {
    if signals == [] then l else Step(c, RunAll(c, l, signals[..|signals| - 1]), signals[|signals| - 1])
  }

  // ----------------------------------------------------------------------- the agent

  /** The detector has reported an end or a timeout. */
  ghost predicate EndsIn(before: seq<Turn.Event>, after: seq<Turn.Event>)
  {
    |after| > |before| && !after[|after| - 1].SpeechStart?
  }

  lemma EndReported(before: seq<Turn.Event>, after: seq<Turn.Event>, events: seq<Turn.Event>)
    requires after == before + events && |events| <= 1
    ensures EndsIn(before, after) <==> Ends(events)
  {
  }

  class AgentLoop {
    const turn: Turn.TurnManager
    const hasSink: bool
    const spf: nat

    var state: SessionState
    var audioBuffer: Samples
    var bargeInFlag: bool
    var bargeInCh: bool
    var speechEndCh: bool

    /**
     Audio that passed detection while not speaking; what each recognition got; what was played; own
     barge-in calls.
     */
    ghost var heard: Samples
    ghost var toAsr: seq<Samples>
    ghost var played: seq<Samples>
    ghost var ownBargeIns: nat
    /** Every state change, in order, as reported to the client. */
    ghost var changes: seq<SessionState>

    ghost function Now(): Loop
      reads this, turn
    {
      Loop(turn.Now(), state, audioBuffer, bargeInFlag, bargeInCh, speechEndCh, toAsr, played, changes)
    }

    ghost function Conf(): Setup { Setup(turn.config, hasSink, spf) }

    ghost predicate Valid()
      reads this, turn
    {
      spf > 0 && turn.Valid() && Flatten(toAsr) + audioBuffer == heard
    }

    constructor (sampleRate: nat, frameMs: nat, config: Turn.Config, hasSink: bool)
      ensures Valid() && fresh(turn) && heard == [] && ownBargeIns == 0
      ensures Now() == Loop(Turn.Core(Turn.Idle, 0, 0, 0), Idle, [], false, false, false, [], [], [])
      ensures Conf() == Setup(Turn.Normalize(config), hasSink, SamplesPerFrame(sampleRate, frameMs))
    {
      turn := new Turn.TurnManager(config);
      this.hasSink, spf := hasSink, SamplesPerFrame(sampleRate, frameMs);
      state, audioBuffer := Idle, [];
      bargeInFlag, bargeInCh, speechEndCh := false, false, false;
      heard, toAsr, played, ownBargeIns, changes := [], [], [], 0, [];
    }

    method SetState(newState: SessionState)
      modifies `state, `changes
      ensures state == newState
      ensures changes == if newState == old(state) then old(changes) else old(changes) + [newState]
    {
      if state != newState {
        changes := changes + [newState];
      }
      state := newState;
    }

    method Start()
      requires Valid()
      modifies `state, `changes
      ensures Valid() && state == Listening && Now() == Enter(old(Now()), Listening)
    {
      SetState(Listening);
    }

    method BargeIn()
      modifies `bargeInFlag, `bargeInCh
      ensures bargeInFlag && bargeInCh
    {
      bargeInFlag := true;
      bargeInCh := true;
    }

    /** React to an end-point event; a start matters only while speaking. */
    method OnTurnEvent(e: Turn.Event)
      modifies `bargeInFlag, `bargeInCh, `speechEndCh, `ownBargeIns
      ensures e.SpeechStart? && state.Speaking? ==> bargeInFlag && bargeInCh && ownBargeIns == old(ownBargeIns) + 1
      ensures !(e.SpeechStart? && state.Speaking?) ==>
                bargeInFlag == old(bargeInFlag) && bargeInCh == old(bargeInCh) && ownBargeIns == old(ownBargeIns)
      ensures speechEndCh == (old(speechEndCh) || !e.SpeechStart?)
    {
      match e {
        case SpeechStart =>
          if state.Speaking? {
            ownBargeIns := ownBargeIns + 1;
            BargeIn();
          }
        case SpeechEnd => speechEndCh := true;
        case TurnTimeout => speechEndCh := true;
      }
    }

    method AppendAudio(audio: Samples)
      requires Valid()
      modifies `audioBuffer, `heard
      ensures Valid() && audioBuffer == old(audioBuffer) + audio && heard == old(heard) + audio
    {
      assert Flatten(toAsr) + (audioBuffer + audio) == (Flatten(toAsr) + audioBuffer) + audio;
      audioBuffer := audioBuffer + audio;
      heard := heard + audio;
    }

    method OnTurnEvents(events: seq<Turn.Event>)
      requires |events| <= 1 && !state.Speaking?
      modifies `speechEndCh, `bargeInFlag, `bargeInCh, `ownBargeIns
      ensures speechEndCh == (old(speechEndCh) || Ends(events))
      ensures bargeInFlag == old(bargeInFlag) && bargeInCh == old(bargeInCh) && ownBargeIns == old(ownBargeIns)
    {
      if events != [] {
        OnTurnEvent(events[0]);
      }
    }

    /** Feed the end-point detector and react to what it reports. */
    method Detect(speaking: bool, now: int)
      requires turn.Valid() && !state.Speaking?
      modifies `speechEndCh, `bargeInFlag, `bargeInCh, `ownBargeIns, turn
      ensures turn.Valid() && turn.frames == old(turn.frames) + [Turn.Frame(speaking, now)]
      ensures var (core, events) := Turn.Advance(turn.config, old(turn.Now()), Turn.Frame(speaking, now));
              turn.Now() == core && speechEndCh == (old(speechEndCh) || Ends(events))
      ensures speechEndCh <==> old(speechEndCh) || EndsIn(old(turn.trace), turn.trace)
      ensures bargeInFlag == old(bargeInFlag) && bargeInCh == old(bargeInCh) && ownBargeIns == old(ownBargeIns)
    {
      var events := turn.Process(speaking, now);
      EndReported(old(turn.trace), turn.trace, events);
      OnTurnEvents(events);
    }

    /** Detect, then either watch for a barge-in (while speaking) or accumulate and detect end points. */
    method HandleAudioFrame(audio: Samples, vad: Vad, now: int)
      requires Valid()
      modifies this, turn
      ensures Valid() && state == old(state) && changes == old(changes) && toAsr == old(toAsr) && played == old(played)
      ensures Now() == OnAudio(Conf(), old(Now()), audio, vad, now)
      ensures heard == old(heard) + (if vad.Heard? && !state.Speaking? then audio else [])
      ensures audioBuffer == old(audioBuffer) + (if vad.Heard? && !state.Speaking? then audio else [])
      ensures vad.Heard? && !state.Speaking? ==>
                && turn.frames == old(turn.frames) + [Turn.Frame(vad.speaking, now)]
                && (speechEndCh <==> old(speechEndCh) || EndsIn(old(turn.trace), turn.trace))
      ensures !(vad.Heard? && !state.Speaking?) ==> unchanged(turn) && speechEndCh == old(speechEndCh)
      ensures !state.Speaking? ==>
                && bargeInFlag == old(bargeInFlag) && bargeInCh == old(bargeInCh) && ownBargeIns == old(ownBargeIns)
      ensures state.Speaking? && vad.Heard? && vad.speaking && vad.energy > 0.02 ==> bargeInFlag && bargeInCh
    {
      match vad {
        case VadError =>
        case Heard(speaking, energy) =>
          if state.Speaking? {
            if speaking && energy > 0.02 {
              ownBargeIns := ownBargeIns + 1;
              BargeIn();
            }
            return;
          }
          AppendAudio(audio);
          Detect(speaking, now);
      }
    }

    /** Send frame after frame until done or disturbed. */
    method Speak(audio: Samples, env: nat -> FrameEnv) returns (ghost left: nat)
      requires spf > 0
      modifies `bargeInFlag, `bargeInCh, `played
      ensures (left, Interrupt(bargeInFlag, bargeInCh)) ==
              Play(Interrupt(old(bargeInFlag), old(bargeInCh)), hasSink, |audio|, spf, 0, env)
      ensures played == old(played) + [audio[..|audio| - left]]
    {
      var offset, k := 0, 0;
      ghost var whole := Play(Interrupt(bargeInFlag, bargeInCh), hasSink, |audio|, spf, 0, env);
      while offset < |audio|
        invariant 0 <= offset <= |audio| && played == old(played)
        invariant whole == Play(Interrupt(bargeInFlag, bargeInCh), hasSink, |audio| - offset, spf, k, env)
      {
        var e := env(k);
        if e.outside {
          BargeIn();
        }
        if bargeInFlag || e.cancelled || (hasSink && e.sendFails) {
          break;
        }
        var end := if offset + spf > |audio| then |audio| else offset + spf;
        offset := end;
        if e.during {
          BargeIn();
        }
        if e.wake.ContextDone? {
          break;
        }
        if e.wake.BargeInSignal? && bargeInCh {
          bargeInCh := false;
          break;
        }
        k := k + 1;
      }
      left := |audio| - offset;
      played := played + [audio[..offset]];
    }

    /** Take the buffered audio; when there is any, it is what recognition gets. */
    method DrainAudio() returns (audio: Samples)
      requires Valid()
      modifies `audioBuffer, `toAsr
      ensures Valid() && audio == old(audioBuffer) && audioBuffer == []
      ensures toAsr == old(toAsr) + (if audio == [] then [] else [audio])
    {
      audio := audioBuffer;
      audioBuffer := [];
      if audio != [] {
        FlattenAppend(toAsr, audio);
        toAsr := toAsr + [audio];
      }
      assert Flatten(toAsr) + [] == heard;
    }

    /** Look at the flag and take it down, after a possible barge-in from outside. */
    method BargeInCheck(outside: bool) returns (hit: bool)
      modifies `bargeInFlag, `bargeInCh
      ensures hit == (old(bargeInFlag) || outside) && !bargeInFlag && bargeInCh == (old(bargeInCh) || outside)
    {
      if outside {
        BargeIn();
      }
      hit := bargeInFlag;
      bargeInFlag := false;
    }

    /** Say the reply and listen again. */
    method PlayReply(audio: Samples, env: nat -> FrameEnv)
      requires spf > 0 && state == Thinking
      modifies `state, `changes, `bargeInFlag, `bargeInCh, `played
      ensures Now() == Reply(Conf(), old(Now()), audio, env)
    {
      SetState(Speaking);
      ghost var left := Speak(audio, env);
      bargeInFlag := false;
      SetState(Listening);
    }

    /** From the reply's text on. */
    method SpeakReply(env: TurnEnv)
      requires spf > 0 && state == Thinking && !bargeInFlag
      modifies `state, `changes, `bargeInFlag, `bargeInCh, `played
      ensures Now() == Synthesise(Conf(), old(Now()), env)
    {
      var hit := BargeInCheck(env.outside2);
      if hit || env.tts.Failed? {
        SetState(Listening);
        return;
      }
      PlayReply(env.tts.value, env.frames);
    }

    /** From recognition to playback, returning to Listening on every path. */
    method Respond(env: TurnEnv)
      requires spf > 0 && state == Thinking
      modifies `state, `changes, `bargeInFlag, `bargeInCh, `played
      ensures Now() == Answered(Conf(), old(Now()), env)
    {
      if env.asr.Failed? {
        SetState(Listening);
        return;
      }
      var hit := BargeInCheck(env.outside1);
      if hit || env.llm.Failed? {
        SetState(Listening);
        return;
      }
      SpeakReply(env);
    }

    /** One conversation turn; what it does is spelled out by TurnMeaning. */
    method HandleTurn(env: TurnEnv)
      requires Valid()
      modifies this
      ensures Valid() && heard == old(heard) && ownBargeIns == old(ownBargeIns)
      ensures Now() == Converse(Conf(), old(Now()), env)
    {
      var audio := DrainAudio();
      if audio == [] {
        return;
      }
      SetState(Thinking);
      Respond(env);
    }

    /** One turn of the select; an end-of-speech signal can be taken only when one is pending. */
    method OnSignal(s: Signal)
      requires Valid() && state == Listening
      modifies this, turn
      ensures Valid() && state == Listening && ownBargeIns == old(ownBargeIns)
      ensures heard == old(heard) + (if s.AudioIn? && s.vad.Heard? then s.audio else [])
      ensures Now() == Step(Conf(), old(Now()), s)
    {
      match s {
        case AudioIn(audio, vad, now) =>
          HandleAudioFrame(audio, vad, now);
        case SpeechEnded(env) =>
          if speechEndCh {
            speechEndCh := false;
            TurnListens(Conf(), Now(), env);
            HandleTurn(env);
          }
        case BargeInTaken =>
          bargeInCh := false;
        case OutsideBargeIn =>
          BargeIn();
      }
    }

    /**
     The main loop on any sequence of signals. It waits only while Listening, so its own
     barge-in branches are never taken; audio reaches recognition complete and in order.
     */
    method Run(signals: seq<Signal>)
      requires Valid() && state == Listening
      modifies this, turn
      ensures Valid() && state == Listening
      ensures ownBargeIns == old(ownBargeIns)
      ensures heard == old(heard) + PassedAudio(signals)
      ensures Now() == RunAll(Conf(), old(Now()), signals)
    {
      for i := 0 to |signals|
        invariant Valid() && state == Listening && ownBargeIns == old(ownBargeIns)
        invariant heard == old(heard) + PassedAudio(signals[..i])
        invariant Now() == RunAll(Conf(), old(Now()), signals[..i])
      {
        PassedNext(old(heard), signals, i);
        RunNext(Conf(), old(Now()), signals, i);
        OnSignal(signals[i]);
      }
      assert signals[..|signals|] == signals;
    }
  }

  lemma RunNext(c: Setup, l: Loop, signals: seq<Signal>, i: nat)
    requires c.spf > 0 && i < |signals|
    ensures RunAll(c, l, signals[..i + 1]) == Step(c, RunAll(c, l, signals[..i]), signals[i])
  {
    assert signals[..i + 1][..i] == signals[..i];
  }

  /** A turn is spoken when recognition, reply and synthesis succeed and neither check finds a barge-in. */
  predicate Passes(l: Loop, env: TurnEnv)
  {
    env.asr.Ok? && !l.flag && !env.outside1 && env.llm.Ok? && !env.outside2 && env.tts.Ok?
  }

  /** The states a turn goes through. */
  function StatesOf(l: Loop, env: TurnEnv): seq<SessionState>
  {
    if Passes(l, env) then [Thinking, Speaking, Listening] else [Thinking, Listening]
  }

  /** A barge-in reaches the first check, or the second if the turn gets that far. */
  predicate BargedBefore(l: Loop, env: TurnEnv)
  {
    env.asr.Ok? && (env.outside1 || (!l.flag && env.llm.Ok? && env.outside2))
  }

  /** What is played of a reply. */
  function Spoken(c: Setup, l: Loop, env: TurnEnv): (r: (Samples, Interrupt))
    requires c.spf > 0 && env.tts.Ok?
  {
    var (left, i) := Play(Interrupt(false, l.signal), c.hasSink, |env.tts.value|, c.spf, 0, env.frames);
    (env.tts.value[..|env.tts.value| - left], i)
  }

  lemma TurnListens(c: Setup, l: Loop, env: TurnEnv)
    requires c.spf > 0 && l.state == Listening
    ensures Converse(c, l, env).state == Listening
  {
  }

  /**
   What a turn does. It goes through Thinking, and through Speaking exactly when it passes;
   the buffered audio goes to recognition; only a passing turn plays, and only its reply; a
   barge-in during recognition or reply leaves its signal waiting.
   */
  lemma TurnMeaning(c: Setup, l: Loop, env: TurnEnv)
    requires c.spf > 0 && l.state == Listening && l.buffer != []
    ensures var m := Converse(c, l, env);
            && m.state == Listening && m.buffer == [] && m.turn == l.turn && m.ended == l.ended
            && m.toAsr == l.toAsr + [l.buffer]
            && m.changes == l.changes + StatesOf(l, env)
            && m.played == l.played + (if Passes(l, env) then [Spoken(c, l, env).0] else [])
            && m.flag == (l.flag && env.asr.Failed?)
            && m.signal == (if Passes(l, env) then Spoken(c, l, env).1.signal else l.signal || BargedBefore(l, env))
  {
    var tail := StatesOf(l, env);
    if Passes(l, env) {
      assert l.changes + [Thinking] + [Speaking] + [Listening] == l.changes + tail;
    } else {
      assert l.changes + [Thinking] + [Listening] == l.changes + tail;
    }
  }

  /** No barge-in from outside comes with this signal. */
  ghost predicate NothingOutside(s: Signal)
  {
    && !s.OutsideBargeIn?
    && (s.SpeechEnded? ==> !s.env.outside1 && !s.env.outside2 && NoneBarge(s.env.frames))
  }

  ghost predicate NoneBarge(env: nat -> FrameEnv) { forall j :: !env(j).outside && !env(j).during }

  /** The audio that passes detection without error, in order. */
  ghost function PassedAudio(signals: seq<Signal>): Samples
  {
    if signals == [] then []
    else
      var s := signals[|signals| - 1];
      PassedAudio(signals[..|signals| - 1]) + (if s.AudioIn? && s.vad.Heard? then s.audio else [])
  }

  lemma PassedNext(before: Samples, signals: seq<Signal>, i: nat)
    requires i < |signals|
    ensures var s := signals[i];
            before + PassedAudio(signals[..i + 1])
            == before + PassedAudio(signals[..i]) + (if s.AudioIn? && s.vad.Heard? then s.audio else [])
  {
    assert signals[..i + 1][..i] == signals[..i];
  }
}
