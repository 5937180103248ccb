/**
 End-point detection: a state machine over voice-activity frames.

 Its counters are tied to the history of frames, so every event is characterised by
 what was actually heard and not by how the counters stand.
 */
module Turn {

  /** Durations and times are integers; nothing here depends on the clock being steady. */
  datatype Config = Config(startFrames: int, endFrames: int, minDuration: int, maxDuration: int)

  const MILLISECOND := 1000000

  /** The defaults that replace non-positive settings. */
  function Normalize(c: Config): (r: Config)
    ensures r.startFrames > 0 && r.endFrames > 0 && r.minDuration > 0 && r.maxDuration > 0
    ensures (c.startFrames > 0 ==> r.startFrames == c.startFrames) && (c.endFrames > 0 ==> r.endFrames == c.endFrames)
    ensures c.minDuration > 0 ==> r.minDuration == c.minDuration
    ensures c.maxDuration > 0 ==> r.maxDuration == c.maxDuration
  {
    Config(if c.startFrames <= 0 then 3 else c.startFrames,
           if c.endFrames <= 0 then 25 else c.endFrames,
           if c.minDuration <= 0 then 200 * MILLISECOND else c.minDuration,
           if c.maxDuration <= 0 then 30000 * MILLISECOND else c.maxDuration)
  }

  datatype State = Idle | Listening

  datatype Event = SpeechStart | SpeechEnd | TurnTimeout

  datatype Frame = Frame(speaking: bool, now: int)

  /** How many frames at the end are all of this kind. */
  function Trailing(frames: seq<Frame>, speaking: bool): (n: nat)
    ensures n <= |frames|
    ensures forall i :: |frames| - n <= i < |frames| ==> frames[i].speaking == speaking
    ensures n < |frames| ==> frames[|frames| - n - 1].speaking != speaking
  {
    if frames == [] || frames[|frames| - 1].speaking != speaking then 0
    else Trailing(frames[..|frames| - 1], speaking) + 1
  }

  /** The detector's fields. */
  datatype Core = Core(state: State, speechFrames: int, silenceFrames: int, turnStart: int)

  /** One frame as the fields see it. */
  function Advance(c: Config, k: Core, f: Frame): (Core, seq<Event>)
  {
    if k.state.Idle? then
      if !f.speaking then (k.(speechFrames := 0), [])
      else if k.speechFrames + 1 < c.startFrames then (k.(speechFrames := k.speechFrames + 1, silenceFrames := 0), [])
      else (Core(Listening, 0, 0, f.now), [SpeechStart])
    else
      var silence, age := if f.speaking then 0 else k.silenceFrames + 1, f.now - k.turnStart;
      var idle := Core(Idle, 0, 0, k.turnStart);
      if silence >= c.endFrames then (idle, if age >= c.minDuration then [SpeechEnd] else [])
      else if age >= c.maxDuration then (idle, [TurnTimeout])
      else (k.(silenceFrames := silence), [])
  }

  lemma TrailingNext(frames: seq<Frame>, f: Frame, speaking: bool)
    ensures Trailing(frames + [f], speaking) == if f.speaking == speaking then Trailing(frames, speaking) + 1 else 0
  {
    assert (frames + [f])[..|frames|] == frames;
  }

  /** Every end or timeout directly follows a start. */
  ghost predicate Paired(trace: seq<Event>)
  {
    && (trace != [] ==> trace[0].SpeechStart?)
    && forall i, j :: 0 <= i < |trace| && j == i + 1 < |trace| && !trace[j].SpeechStart? ==> trace[i].SpeechStart?
  }

  /** The speech counter is the run of speech since going idle, and too short to start a turn. */
  ghost predicate IdleFits(c: Config, frames: seq<Frame>, idleFrom: nat, speechFrames: int)
  {
    idleFrom <= |frames| && speechFrames == Trailing(frames[idleFrom..], true) && speechFrames < c.startFrames
  }

  /** The turn began on enough speech since going idle, is not yet silent enough to end, and is not too old. */
  ghost predicate ListeningFits(c: Config, frames: seq<Frame>, idleFrom: nat, startedAt: nat, turnStart: int,
                                silenceFrames: int)
  {
    && idleFrom <= startedAt + 1 - c.startFrames && startedAt < |frames|
    && (forall i :: startedAt - c.startFrames < i <= startedAt ==> frames[i].speaking)
    && turnStart == frames[startedAt].now
    && silenceFrames == Trailing(frames[startedAt + 1..], false) && silenceFrames < c.endFrames
    && frames[|frames| - 1].now - turnStart < c.maxDuration
  }

  lemma SuffixNext(frames: seq<Frame>, from: nat, f: Frame, speaking: bool)
    requires from <= |frames|
    ensures Trailing((frames + [f])[from..], speaking) ==
            if f.speaking == speaking then Trailing(frames[from..], speaking) + 1 else 0
  {
    assert (frames + [f])[from..] == frames[from..] + [f];
    TrailingNext(frames[from..], f, speaking);
  }

  lemma StartFits(c: Config, frames: seq<Frame>, idleFrom: nat, f: Frame)
    requires idleFrom <= |frames| && c.startFrames > 0 && c.endFrames > 0 && c.maxDuration > 0
    requires Trailing((frames + [f])[idleFrom..], true) == c.startFrames
    ensures ListeningFits(c, frames + [f], idleFrom, |frames|, f.now, 0)
  {
    var all := frames + [f];
    assert all[|frames| + 1..] == [];
    var n := c.startFrames;
    forall i | |frames| - n < i <= |frames| ensures all[i].speaking {
      assert all[i] == all[idleFrom..][i - idleFrom];
    }
  }

  lemma ContinueFits(c: Config, frames: seq<Frame>, idleFrom: nat, startedAt: nat, turnStart: int,
                     silence: int, f: Frame)
    requires ListeningFits(c, frames, idleFrom, startedAt, turnStart, silence)
    requires f.now - turnStart < c.maxDuration && (f.speaking || silence + 1 < c.endFrames) && c.endFrames > 0
    ensures ListeningFits(c, frames + [f], idleFrom, startedAt, turnStart, if f.speaking then 0 else silence + 1)
  {
    SuffixNext(frames, startedAt + 1, f, false);
  }

  /** How the next frame compares with the frames of the turn. */
  lemma TurnGoesOn(c: Config, frames: seq<Frame>, idleFrom: nat, startedAt: nat, turnStart: int, silence: int, f: Frame)
    requires ListeningFits(c, frames, idleFrom, startedAt, turnStart, silence) && c.endFrames > 0
    ensures var all := frames + [f];
            && Trailing(all[startedAt + 1..], false) == (if f.speaking then 0 else silence + 1) <= c.endFrames
            && all[startedAt].now == turnStart
  {
    SuffixNext(frames, startedAt + 1, f, false);
  }

  lemma PairedNext(trace: seq<Event>, e: Event)
    requires Paired(trace) && (!e.SpeechStart? ==> trace != [] && trace[|trace| - 1].SpeechStart?)
    ensures Paired(trace + [e])
  {
  }

  class TurnManager {
    const config: Config
    var state: State
    var speechFrames: int
    var silenceFrames: int
    var turnStart: int

    /** Every frame so far and every event so far; where the idle stretch began; the frame that started the turn. */
    ghost var frames: seq<Frame>
    ghost var trace: seq<Event>
    ghost var idleFrom: nat
    ghost var startedAt: nat

    ghost function Now(): Core
      reads this
    {
      Core(state, speechFrames, silenceFrames, turnStart)
    }

    ghost predicate Valid()
      reads this
    {
      && config.startFrames > 0 && config.endFrames > 0 && config.minDuration > 0 && config.maxDuration > 0
      && idleFrom <= |frames| && Paired(trace)
      && (state.Idle? ==> IdleFits(config, frames, idleFrom, speechFrames))
      && (state.Listening? ==>
            && ListeningFits(config, frames, idleFrom, startedAt, turnStart, silenceFrames)
            && trace != [] && trace[|trace| - 1].SpeechStart?)
    }

    constructor (config: Config)
      ensures Valid() && frames == [] && trace == [] && idleFrom == 0 && Now() == Core(Idle, 0, 0, 0)
      ensures this.config == Normalize(config)
    {
      this.config := Normalize(config);
      state, speechFrames, silenceFrames, turnStart := Idle, 0, 0, 0;
      frames, trace, idleFrom, startedAt := [], [], 0, 0;
    }

    /** The turn is over; back to idle, reporting at most the given event. */
    method FinishTurn(ghost f: Frame, events: seq<Event>)
      requires Valid() && state.Listening?
      requires events == [] || (|events| == 1 && !events[0].SpeechStart?)
      modifies this
      ensures Valid() && Now() == Core(Idle, 0, 0, old(turnStart)) && idleFrom == |frames|
      ensures frames == old(frames) + [f] && trace == old(trace) + events
    {
      if events != [] { PairedNext(trace, events[0]); }
      assert trace + [] == trace && (events != [] ==> events == [events[0]]);
      state, speechFrames, silenceFrames := Idle, 0, 0;
      frames := frames + [f];
      idleFrom := |frames|;
      assert frames[idleFrom..] == [];
      trace := trace + events;
    }

    /** The turn goes on. */
    method KeepListening(ghost f: Frame, silence: int)
      requires Valid() && state.Listening? && silence == (if f.speaking then 0 else silenceFrames + 1)
      requires silence < config.endFrames && f.now - turnStart < config.maxDuration
      modifies `silenceFrames, `frames
      ensures Valid() && frames == old(frames) + [f] && silenceFrames == silence
    {
      ContinueFits(config, frames, idleFrom, startedAt, turnStart, silenceFrames, f);
      silenceFrames := silence;
      frames := frames + [f];
    }

    method ProcessIdle(speaking: bool, now: int) returns (events: seq<Event>)
      requires Valid() && state.Idle?
      modifies this
      ensures Valid() && frames == old(frames) + [Frame(speaking, now)] && trace == old(trace) + events
      ensures idleFrom == old(idleFrom)
      ensures (Now(), events) == Advance(config, old(Now()), Frame(speaking, now))
      ensures var started := Trailing(frames[idleFrom..], true) == config.startFrames;
              && events == (if started then [SpeechStart] else [])
              && (state.Listening? <==> started)
              && (started ==> startedAt == |frames| - 1)
    {
      ghost var f := Frame(speaking, now);
      SuffixNext(frames, idleFrom, f, true);
      events := [];
      if speaking {
        speechFrames := speechFrames + 1;
        silenceFrames := 0;
        if speechFrames >= config.startFrames {
          StartFits(config, frames, idleFrom, f);
          PairedNext(trace, SpeechStart);
          state := Listening;
          turnStart := now;
          speechFrames := 0;
          startedAt := |frames|;
          events := [SpeechStart];
        }
      } else {
        speechFrames := 0;
      }
      frames := frames + [f];
      trace := trace + events;
    }

    method ProcessListening(speaking: bool, now: int) returns (events: seq<Event>)
      requires Valid() && state.Listening?
      modifies this
      ensures Valid() && frames == old(frames) + [Frame(speaking, now)] && trace == old(trace) + events
      ensures (Now(), events) == Advance(config, old(Now()), Frame(speaking, now))
      ensures var ended := Trailing(frames[old(startedAt) + 1..], false) == config.endFrames;
              var duration := now - frames[old(startedAt)].now;
              && events == (if ended then (if duration >= config.minDuration then [SpeechEnd] else [])
                            else if duration >= config.maxDuration then [TurnTimeout] else [])
              && (state.Idle? <==> ended || duration >= config.maxDuration)
              && (state.Idle? ==> idleFrom == |frames|)
              && (state.Listening? ==> startedAt == old(startedAt))
    {
      ghost var f := Frame(speaking, now);
      TurnGoesOn(config, frames, idleFrom, startedAt, turnStart, silenceFrames, f);
      var silence := if speaking then 0 else silenceFrames + 1;
      if silence >= config.endFrames {
        events := if now - turnStart >= config.minDuration then [SpeechEnd] else [];
        FinishTurn(f, events);
      } else if now - turnStart >= config.maxDuration {
        events := [TurnTimeout];
        FinishTurn(f, events);
      } else {
        events := [];
        KeepListening(f, silence);
      }
    }

    /**
     One frame. While idle, speech starts exactly when the frames since going idle end in
     startFrames of speech. While listening, the turn ends exactly when the frames since
     the start end in endFrames of silence (reported if it was long enough), and otherwise
     times out exactly when it has reached its maximum duration.
     */
    method Process(speaking: bool, now: int) returns (events: seq<Event>)
      requires Valid()
      modifies this
      ensures Valid() && |events| <= 1
      ensures (Now(), events) == Advance(config, old(Now()), Frame(speaking, now))
      ensures frames == old(frames) + [Frame(speaking, now)] && trace == old(trace) + events
      ensures old(state).Idle? ==>
                var started := Trailing(frames[old(idleFrom)..], true) == config.startFrames;
                && events == (if started then [SpeechStart] else [])
                && (state.Listening? <==> started)
                && (started ==> startedAt == |frames| - 1)
                && idleFrom == old(idleFrom)
      ensures old(state).Listening? ==>
                var ended := Trailing(frames[old(startedAt) + 1..], false) == config.endFrames;
                var duration := now - frames[old(startedAt)].now;
                && events == (if ended then (if duration >= config.minDuration then [SpeechEnd] else [])
                              else if duration >= config.maxDuration then [TurnTimeout] else [])
                && (state.Idle? <==> ended || duration >= config.maxDuration)
                && (state.Idle? ==> idleFrom == |frames|)
                && (state.Listening? ==> startedAt == old(startedAt))
    {
      match state {
        case Idle => events := ProcessIdle(speaking, now);
        case Listening => events := ProcessListening(speaking, now);
      }
    }

    method Reset()
      requires Valid()
      modifies this
      ensures Valid() && state.Idle? && frames == old(frames) && trace == old(trace) && idleFrom == |frames|
    {
      state, speechFrames, silenceFrames, turnStart := Idle, 0, 0, 0;
      idleFrom := |frames|;
    }
  }
}
