/** What the voice agent does over whole runs of its main loop. */
module AgentRuns {
  import opened Agent
  import Turn

  lemma {:induction false} RunConcat(c: Setup, l: Loop, a: seq<Signal>, b: seq<Signal>)
    requires c.spf > 0
    ensures RunAll(c, l, a + b) == RunAll(c, RunAll(c, l, a), b)
  {
    if b == [] {
      assert a + b == a;
    } else {
      var n := |b| - 1;
      RunConcat(c, l, a, b[..n]);
      assert a + b == (a + b[..n]) + [b[n]] && b == b[..n] + [b[n]];
      RunSnoc(c, l, a + b[..n], b[n]);
      RunSnoc(c, RunAll(c, l, a), b[..n], b[n]);
    }
  }

  lemma RunSnoc(c: Setup, l: Loop, a: seq<Signal>, s: Signal)
    requires c.spf > 0
    ensures RunAll(c, l, a + [s]) == Step(c, RunAll(c, l, a), s)
  {
    assert (a + [s])[..|a|] == a;
  }

  /** At every wait the session is Listening. */
  lemma {:induction false} RunListens(c: Setup, l: Loop, signals: seq<Signal>)
    requires c.spf > 0 && l.state == Listening
    ensures RunAll(c, l, signals).state == Listening
  {
    if signals != [] {
      var n := |signals| - 1;
      RunListens(c, l, signals[..n]);
      var m := RunAll(c, l, signals[..n]);
      if signals[n].SpeechEnded? { TurnListens(c, m.(ended := false), signals[n].env); }
    }
  }

  // ------------------------------------------------------------ the turns of a run

  /** A turn that was held: the loop when it began, and its environment. */
  datatype Held = Held(before: Loop, env: TurnEnv)

  /** The signal starts a turn. */
  predicate Begins(l: Loop, s: Signal) { s.SpeechEnded? && l.ended && l.buffer != [] }

  /** The turns of a run, in order. */
  function Turns(c: Setup, l: Loop, signals: seq<Signal>): seq<Held>
    requires c.spf > 0
  {
    if signals == [] then []
    else
      var n := |signals| - 1;
      var m := RunAll(c, l, signals[..n]);
      Turns(c, l, signals[..n]) + (if Begins(m, signals[n]) then [Held(m, signals[n].env)] else [])
  }

  function Changes(turns: seq<Held>): seq<SessionState>
  {
    if turns == [] then []
    else
      var t := turns[|turns| - 1];
      Changes(turns[..|turns| - 1]) + StatesOf(t.before, t.env)
  }

  function Played(c: Setup, turns: seq<Held>): seq<Samples>
    requires c.spf > 0
  {
    if turns == [] then []
    else
      var t := turns[|turns| - 1];
      Played(c, turns[..|turns| - 1]) + (if Passes(t.before, t.env) then [Spoken(c, t.before, t.env).0] else [])
  }

  function Recognised(turns: seq<Held>): seq<Samples>
  {
    if turns == [] then [] else Recognised(turns[..|turns| - 1]) + [turns[|turns| - 1].before.buffer]
  }

  lemma TurnsNext(c: Setup, turns: seq<Held>, t: Held)
    requires c.spf > 0
    ensures Changes(turns + [t]) == Changes(turns) + StatesOf(t.before, t.env)
    ensures Played(c, turns + [t])
         == Played(c, turns) + (if Passes(t.before, t.env) then [Spoken(c, t.before, t.env).0] else [])
    ensures Recognised(turns + [t]) == Recognised(turns) + [t.before.buffer]
  {
    assert (turns + [t])[..|turns|] == turns;
  }

  /** A signal that starts no turn reports, plays and recognises nothing. */
  lemma NoTurn(c: Setup, l: Loop, s: Signal)
    requires c.spf > 0 && l.state == Listening && !Begins(l, s)
    ensures var m := Step(c, l, s); m.changes == l.changes && m.played == l.played && m.toAsr == l.toAsr
  {
  }

  /** From l to m exactly these turns were reported, played and recognised. */
  ghost predicate Accounts(c: Setup, l: Loop, m: Loop, turns: seq<Held>)
    requires c.spf > 0
  {
    && m.changes == l.changes + Changes(turns)
    && m.played == l.played + Played(c, turns)
    && m.toAsr == l.toAsr + Recognised(turns)
  }

  lemma AccountsTurn(c: Setup, l: Loop, m: Loop, turns: seq<Held>, env: TurnEnv)
    requires c.spf > 0 && m.state == Listening && m.buffer != [] && Accounts(c, l, m, turns)
    ensures Accounts(c, l, Converse(c, m.(ended := false), env), turns + [Held(m, env)])
  {
    var before := m.(ended := false);
    TurnMeaning(c, before, env);
    TurnsNext(c, turns, Held(m, env));
    AccountsNext(c, l, m, Converse(c, before, env), turns, Held(m, env));
  }

  lemma AccountsNext(c: Setup, l: Loop, m: Loop, m': Loop, turns: seq<Held>, t: Held)
    requires c.spf > 0 && Accounts(c, l, m, turns)
    requires m'.changes == m.changes + StatesOf(t.before, t.env)
    requires m'.played == m.played + (if Passes(t.before, t.env) then [Spoken(c, t.before, t.env).0] else [])
    requires m'.toAsr == m.toAsr + [t.before.buffer]
    ensures Accounts(c, l, m', turns + [t])
  {
    TurnsNext(c, turns, t);
  }

  /**
   Over every run the reported states, the audio played and the audio recognised are those of
   its turns, in order. So each Speaking belongs to a turn that passed all checks, and nothing
   else is ever played.
   */
  lemma {:induction false} RunIsItsTurns(c: Setup, l: Loop, signals: seq<Signal>)
    requires c.spf > 0 && l.state == Listening
    ensures Accounts(c, l, RunAll(c, l, signals), Turns(c, l, signals))
  {
    if signals != [] {
      var n := |signals| - 1;
      var before, s, turns := RunAll(c, l, signals[..n]), signals[n], Turns(c, l, signals[..n]);
      RunIsItsTurns(c, l, signals[..n]);
      RunListens(c, l, signals[..n]);
      if Begins(before, s) {
        AccountsTurn(c, l, before, turns, s.env);
      } else {
        NoTurn(c, before, s);
        assert turns + [] == turns;
      }
    }
  }

  // ---------------------------------------------------------- nothing interrupts it

  /** The signal brings no barge-in from outside, and its playback is not cancelled and does not fail. */
  ghost predicate Undisturbing(c: Setup, s: Signal)
  {
    !s.OutsideBargeIn? && (s.SpeechEnded? ==> !s.env.outside1 && !s.env.outside2 && Quiet(c.hasSink, s.env.frames))
  }

  /** Without a barge-in from outside there is never one pending. */
  lemma {:induction false} NoBargeInOfItsOwn(c: Setup, l: Loop, signals: seq<Signal>)
    requires c.spf > 0 && l.state == Listening && !l.flag && !l.signal
    requires forall k :: 0 <= k < |signals| ==> NothingOutside(signals[k])
    ensures var m := RunAll(c, l, signals); !m.flag && !m.signal
  {
    if signals != [] {
      var n := |signals| - 1;
      var before, s := RunAll(c, l, signals[..n]), signals[n];
      NoBargeInOfItsOwn(c, l, signals[..n]);
      RunListens(c, l, signals[..n]);
      assert NothingOutside(s);
      if Begins(before, s) {
        TurnMeaning(c, before.(ended := false), s.env);
        if s.env.tts.Ok? {
          QuietPlayLeavesNothing(Interrupt(false, false), c.hasSink, |s.env.tts.value|, c.spf, 0, s.env.frames);
        }
      }
    }
  }

  /** The replies of the turns that passed, each in full. */
  function Replies(turns: seq<Held>): seq<Samples>
  {
    if turns == [] then []
    else
      var t := turns[|turns| - 1];
      Replies(turns[..|turns| - 1]) + (if Passes(t.before, t.env) then [t.env.tts.value] else [])
  }

  lemma RepliesNext(turns: seq<Held>, t: Held)
    ensures Replies(turns + [t]) == Replies(turns) + (if Passes(t.before, t.env) then [t.env.tts.value] else [])
  {
    assert (turns + [t])[..|turns|] == turns;
  }

  lemma SpokenInFull(c: Setup, l: Loop, env: TurnEnv)
    requires c.spf > 0 && !l.signal && env.tts.Ok? && Quiet(c.hasSink, env.frames)
    ensures Spoken(c, l, env) == (env.tts.value, Interrupt(false, false))
  {
    PlaysAllExactly(Interrupt(false, false), c.hasSink, |env.tts.value|, c.spf, 0, env.frames);
    QuietPlayLeavesNothing(Interrupt(false, false), c.hasSink, |env.tts.value|, c.spf, 0, env.frames);
    assert env.tts.value[..|env.tts.value|] == env.tts.value;
  }

  /**
   The loop never interrupts its own playback: whatever the audio frames hold, loud speech
   included, every reply is played in full unless someone outside interrupts.
   */
  lemma {:induction false} SpeechNeverInterrupts(c: Setup, l: Loop, signals: seq<Signal>)
    requires c.spf > 0 && l.state == Listening && !l.flag && !l.signal
    requires forall k :: 0 <= k < |signals| ==> Undisturbing(c, signals[k])
    ensures var m := RunAll(c, l, signals);
            !m.flag && !m.signal && m.played == l.played + Replies(Turns(c, l, signals))
  {
    if signals != [] {
      var n := |signals| - 1;
      var before, s, turns := RunAll(c, l, signals[..n]), signals[n], Turns(c, l, signals[..n]);
      SpeechNeverInterrupts(c, l, signals[..n]);
      RunListens(c, l, signals[..n]);
      assert Undisturbing(c, s);
      if Begins(before, s) {
        TurnMeaning(c, before.(ended := false), s.env);
        RepliesNext(turns, Held(before, s.env));
        if Passes(before, s.env) { SpokenInFull(c, before.(ended := false), s.env); }
      } else {
        NoTurn(c, before, s);
        assert turns + [] == turns;
      }
    }
  }

  // ---------------------------------------------------------------- a stale signal

  function Repeated(s: Signal, n: nat): seq<Signal> { seq(n, _ => s) }

  lemma {:induction false} RunRepeated(c: Setup, l: Loop, s: Signal, n: nat)
    requires c.spf > 0 && n > 0
    ensures RunAll(c, l, Repeated(s, n)) == Step(c, RunAll(c, l, Repeated(s, n - 1)), s)
  {
    assert Repeated(s, n)[..n - 1] == Repeated(s, n - 1);
  }

  /** The detector waits for speech and has heard none. */
  predicate Rested(k: Turn.Core) { k.state.Idle? && k.speechFrames == 0 }

  ghost predicate Usable(c: Setup)
  {
    c.spf > 0 && c.config.startFrames > 0 && c.config.endFrames > 0 && 0 < c.config.minDuration < c.config.maxDuration
  }

  /** Only the detector, the buffer and the end-of-speech signal may have changed. */
  predicate OnlyHeard(l: Loop, m: Loop)
  {
    m == l.(turn := m.turn, buffer := m.buffer, ended := m.ended)
  }

  lemma HeardBoth(l: Loop, m: Loop, n: Loop)
    requires OnlyHeard(l, m) && OnlyHeard(m, n)
    ensures OnlyHeard(l, n)
  {
  }

  function Speech(audio: Samples, now: int): Signal { AudioIn(audio, Heard(true, 1.0), now) }
  function Silence(audio: Samples, now: int): Signal { AudioIn(audio, Heard(false, 0.0), now) }

  /** So many speech frames and then so many silent ones, far enough apart. */
  function Utterance(c: Setup, audio: Samples, now: int): seq<Signal>
    requires Usable(c)
  {
    Repeated(Speech(audio, now), c.config.startFrames)
    + Repeated(Silence(audio, now + c.config.minDuration), c.config.endFrames)
  }

  lemma {:induction false} SpeechHeard(c: Setup, l: Loop, audio: Samples, now: int, n: nat)
    requires Usable(c) && l.state == Listening && Rested(l.turn) && audio != [] && n <= c.config.startFrames
    ensures var m := RunAll(c, l, Repeated(Speech(audio, now), n));
            && OnlyHeard(l, m) && m.ended == l.ended && (n > 0 ==> m.buffer != [])
            && (if n < c.config.startFrames then m.turn.state.Idle? && m.turn.speechFrames == n
                else m.turn == Turn.Core(Turn.Listening, 0, 0, now))
  {
    if n > 0 {
      SpeechHeard(c, l, audio, now, n - 1);
      RunRepeated(c, l, Speech(audio, now), n);
    }
  }

  lemma {:induction false} SilenceHeard(c: Setup, l: Loop, audio: Samples, now: int, n: nat)
    requires Usable(c) && l.state == Listening && l.buffer != [] && n <= c.config.endFrames
    requires l.turn == Turn.Core(Turn.Listening, 0, 0, now - c.config.minDuration)
    ensures var m := RunAll(c, l, Repeated(Silence(audio, now), n));
            && OnlyHeard(l, m) && m.buffer != []
            && (if n < c.config.endFrames then m.turn == l.turn.(silenceFrames := n) && m.ended == l.ended
                else Rested(m.turn) && m.ended)
  {
    if n > 0 {
      SilenceHeard(c, l, audio, now, n - 1);
      RunRepeated(c, l, Silence(audio, now), n);
    }
  }

  /** From l to m an utterance was heard: audio is buffered and the end of speech is pending. */
  predicate HeardOut(l: Loop, m: Loop) { OnlyHeard(l, m) && m.buffer != [] && m.ended && Rested(m.turn) }

  lemma SilenceEnds(c: Setup, l: Loop, m: Loop, audio: Samples, now: int)
    requires Usable(c) && m.state == Listening && m.buffer != [] && OnlyHeard(l, m)
    requires m.turn == Turn.Core(Turn.Listening, 0, 0, now - c.config.minDuration)
    ensures HeardOut(l, RunAll(c, m, Repeated(Silence(audio, now), c.config.endFrames)))
  {
    SilenceHeard(c, m, audio, now, c.config.endFrames);
    HeardBoth(l, m, RunAll(c, m, Repeated(Silence(audio, now), c.config.endFrames)));
  }

  lemma UtteranceHeard(c: Setup, l: Loop, audio: Samples, now: int)
    requires Usable(c) && l.state == Listening && Rested(l.turn) && audio != []
    ensures HeardOut(l, RunAll(c, l, Utterance(c, audio, now)))
  {
    var later := now + c.config.minDuration;
    var speech := Repeated(Speech(audio, now), c.config.startFrames);
    RunConcat(c, l, speech, Repeated(Silence(audio, later), c.config.endFrames));
    SpeechHeard(c, l, audio, now, c.config.startFrames);
    SilenceEnds(c, l, RunAll(c, l, speech), audio, later);
  }

  /** An utterance and the turn it calls for. */
  function Exchange(c: Setup, audio: Samples, now: int, env: TurnEnv): seq<Signal>
    requires Usable(c)
  {
    Utterance(c, audio, now) + [SpeechEnded(env)]
  }

  lemma ExchangeHeld(c: Setup, l: Loop, audio: Samples, now: int, env: TurnEnv)
    requires Usable(c) && l.state == Listening && Rested(l.turn) && audio != []
    ensures var m, r := RunAll(c, l, Utterance(c, audio, now)), RunAll(c, l, Exchange(c, audio, now, env));
            && HeardOut(l, m)
            && r == Converse(c, m.(ended := false), env) && Rested(r.turn) && r.state == Listening
  {
    var u := Utterance(c, audio, now);
    UtteranceHeard(c, l, audio, now);
    RunConcat(c, l, u, [SpeechEnded(env)]);
    assert [SpeechEnded(env)][..0] == [];
    TurnMeaning(c, RunAll(c, l, u).(ended := false), env);
  }

  /**
   A caller outside the loop who barges in during recognition stops that turn but leaves the
   signal waiting. The next turn, which nobody interrupts, is then cut off after one frame.
   */
  lemma StaleSignalCutsNextTurn(c: Setup, l: Loop, audio: Samples, first: TurnEnv, second: TurnEnv, t1: int, t2: int)
    requires Usable(c) && l.state == Listening && Rested(l.turn) && !l.flag && audio != []
    requires first.asr.Ok? && first.outside1
    requires second.asr.Ok? && second.llm.Ok? && second.tts.Ok? && !second.outside1 && !second.outside2
    requires second.frames(0) == FrameEnv(false, false, false, false, BargeInSignal)
    ensures var run := Exchange(c, audio, t1, first) + Exchange(c, audio, t2, second);
            |second.tts.value| > c.spf ==> RunAll(c, l, run).played == l.played + [second.tts.value[..c.spf]]
  {
    var one, two := Exchange(c, audio, t1, first), Exchange(c, audio, t2, second);
    RunConcat(c, l, one, two);
    ExchangeHeld(c, l, audio, t1, first);
    var m1 := RunAll(c, l, Utterance(c, audio, t1)).(ended := false);
    TurnMeaning(c, m1, first);
    var l1 := RunAll(c, l, one);
    assert l1.signal && !l1.flag && l1.played == l.played;
    ExchangeHeld(c, l1, audio, t2, second);
    var m2 := RunAll(c, l1, Utterance(c, audio, t2)).(ended := false);
    TurnMeaning(c, m2, second);
  }

  /** The same on a loop that has just been built and started. */
  method RunIntoStaleSignal(sampleRate: nat, frameMs: nat, config: Turn.Config, hasSink: bool, audio: Samples,
                            first: TurnEnv, second: TurnEnv) returns (a: AgentLoop)
    requires Turn.Normalize(config).minDuration < Turn.Normalize(config).maxDuration && audio != []
    requires first.asr.Ok? && first.outside1
    requires second.asr.Ok? && second.llm.Ok? && second.tts.Ok? && !second.outside1 && !second.outside2
    requires second.frames(0) == FrameEnv(false, false, false, false, BargeInSignal)
    ensures fresh(a) && (|second.tts.value| > a.spf ==> a.played == [second.tts.value[..a.spf]])
  {
    a := new AgentLoop(sampleRate, frameMs, config, hasSink);
    a.Start();
    var c := Setup(Turn.Normalize(config), hasSink, SamplesPerFrame(sampleRate, frameMs));
    StaleSignalCutsNextTurn(c, a.Now(), audio, first, second, 0, 0);
    a.Run(Exchange(c, audio, 0, first) + Exchange(c, audio, 0, second));
  }
}
