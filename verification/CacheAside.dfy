/**
 Cache-aside loading with a null marker and a double-checked lock, as any number of
 callers of GetOrLoad for one key whose steps interleave in any order, while the
 entry may be removed at any time.

 The data source does not change during a run. The cache and the lock may fail at
 any step.
 */
module CacheAside {
  import opened Common

  type Bytes = seq<int>

  /** "\x00null\x00" */
  const NULL_MARKER: Bytes := [0, 110, 117, 108, 108, 0]

  /** The loader's answer for this key. */
  datatype Source = Data(data: Bytes) | Missing | Failing(error: string)

  datatype Config = Config(source: Source, locker: bool, nullMarking: bool)

  datatype Result = Value(data: Bytes) | NotFound | LoaderError(error: string) | LockNotObtained | CacheError

  /** Where a call stands; while leaving, its result is fixed but the lock is still held. */
  datatype Pc =
    | Start
    | WantLock
    | Recheck
    | MustLoad
    | Storing(data: Bytes, result: Result)
    | Leaving(result: Result)
    | Done(result: Result)

  datatype State = State(cache: Option<Bytes>, lock: Option<nat>, pcs: seq<Pc>)

  datatype Action =
    | Get(caller: nat, fails: bool)
    | TryLock(caller: nat, fails: bool)
    | Load(caller: nat)
    | Set(caller: nat, fails: bool)
    | Unlock(caller: nat, fails: bool)
    | Remove

  function Init(callers: nat): State { State(None, None, seq(callers, _ => Start)) }

  /** What a cache hit means. */
  function Hit(v: Bytes): Result { if v == NULL_MARKER then NotFound else Value(v) }

  /** What the loader alone would have given. */
  function Expected(cfg: Config): Result
  {
    match cfg.source
    case Data(d) => Value(d)
    case Missing => NotFound
    case Failing(e) => LoaderError(e)
  }

  function Finish(cfg: Config, r: Result): Pc { if cfg.locker then Leaving(r) else Done(r) }

  predicate Enabled(cfg: Config, s: State, a: Action)
  {
    match a
    case Get(i, _) => i < |s.pcs| && (s.pcs[i].Start? || s.pcs[i].Recheck?)
    case TryLock(i, fails) => i < |s.pcs| && s.pcs[i].WantLock? && (fails || s.lock.None?)
    case Load(i) => i < |s.pcs| && s.pcs[i].MustLoad?
    case Set(i, _) => i < |s.pcs| && s.pcs[i].Storing?
    case Unlock(i, _) => i < |s.pcs| && s.pcs[i].Leaving?
    case Remove => s.cache.Some?
  }

  /** The next control point after a cache read. */
  function AfterGet(cfg: Config, s: State, i: nat, fails: bool): Pc
    requires i < |s.pcs| && (s.pcs[i].Start? || s.pcs[i].Recheck?)
  {
    var first := s.pcs[i].Start?;
    var r := if fails then CacheError else if s.cache.Some? then Hit(s.cache.value) else CacheError;
    if !fails && s.cache.None? then (if first && cfg.locker then WantLock else MustLoad)
    else if first then Done(r) else Leaving(r)
  }

  /** The next control point after a loader call. */
  function AfterLoad(cfg: Config): Pc
  {
    match cfg.source
    case Data(d) => Storing(d, Value(d))
    case Missing => if cfg.nullMarking then Storing(NULL_MARKER, NotFound) else Finish(cfg, NotFound)
    case Failing(e) => Finish(cfg, LoaderError(e))
  }

  function Step(cfg: Config, s: State, a: Action): State
    requires Enabled(cfg, s, a)
  {
    match a
    case Get(i, fails) => s.(pcs := s.pcs[i := AfterGet(cfg, s, i, fails)])
    case TryLock(i, fails) =>
      if fails then s.(pcs := s.pcs[i := Done(LockNotObtained)])
      else s.(lock := Some(i), pcs := s.pcs[i := Recheck])
    case Load(i) => s.(pcs := s.pcs[i := AfterLoad(cfg)])
    case Set(i, fails) =>
      s.(cache := if fails then s.cache else Some(s.pcs[i].data),
         pcs := s.pcs[i := Finish(cfg, s.pcs[i].result)])
    case Unlock(i, fails) =>
      s.(lock := if fails then s.lock else None, pcs := s.pcs[i := Done(s.pcs[i].result)])
    case Remove => s.(cache := None)
  }

  ghost predicate Runs(cfg: Config, s: State, acts: seq<Action>)
    decreases |acts|
  {
    acts == [] || (Enabled(cfg, s, acts[0]) && Runs(cfg, Step(cfg, s, acts[0]), acts[1..]))
  }

  ghost function After(cfg: Config, s: State, acts: seq<Action>): State
    requires Runs(cfg, s, acts)
    decreases |acts|
  {
    if acts == [] then s else After(cfg, Step(cfg, s, acts[0]), acts[1..])
  }

  // ---------------------------------------------------------------- correct results

  predicate Excused(r: Result) { r.LockNotObtained? || r.CacheError? }

  ghost predicate PcCorrect(cfg: Config, pc: Pc)
  {
    match pc
    case Storing(v, r) => Hit(v) == r == Expected(cfg)
    case Leaving(r) => Excused(r) || r == Expected(cfg)
    case Done(r) => Excused(r) || r == Expected(cfg)
    case _ => true
  }

  ghost predicate Correct(cfg: Config, s: State)
  {
    && (s.cache.Some? ==> Hit(s.cache.value) == Expected(cfg))
    && forall i :: 0 <= i < |s.pcs| ==> PcCorrect(cfg, s.pcs[i])
  }

  lemma StepKeepsCorrect(cfg: Config, s: State, a: Action)
    requires cfg.source != Data(NULL_MARKER) && Correct(cfg, s) && Enabled(cfg, s, a)
    ensures Correct(cfg, Step(cfg, s, a))
  {
    if !a.Remove? { assert PcCorrect(cfg, s.pcs[a.caller]); }
  }

  lemma {:induction false} RunKeepsCorrect(cfg: Config, s: State, acts: seq<Action>)
    requires cfg.source != Data(NULL_MARKER) && Correct(cfg, s) && Runs(cfg, s, acts)
    ensures Correct(cfg, After(cfg, s, acts))
    decreases |acts|
  {
    if acts != [] {
      StepKeepsCorrect(cfg, s, acts[0]);
      RunKeepsCorrect(cfg, Step(cfg, s, acts[0]), acts[1..]);
    }
  }

  /** Every finished call gave the loader's answer, or reported that lock or cache refused. */
  ghost predicate AlwaysCorrect(cfg: Config, callers: nat)
  {
    forall acts, i :: Runs(cfg, Init(callers), acts) && 0 <= i < callers &&
                      i < |After(cfg, Init(callers), acts).pcs| && After(cfg, Init(callers), acts).pcs[i].Done? ==>
      var r := After(cfg, Init(callers), acts).pcs[i].result;
      Excused(r) || r == Expected(cfg)
  }

  // -------------------------------------------------------------- building runs

  lemma {:induction false} RunsAppend(cfg: Config, s: State, a: seq<Action>, b: seq<Action>)
    requires Runs(cfg, s, a) && Runs(cfg, After(cfg, s, a), b)
    ensures Runs(cfg, s, a + b)
    ensures After(cfg, s, a + b) == After(cfg, After(cfg, s, a), b)
    decreases |a|
  {
    if a == [] {
      assert a + b == b;
    } else {
      RunsAppend(cfg, Step(cfg, s, a[0]), a[1..], b);
      assert (a + b)[1..] == a[1..] + b;
    }
  }

  lemma RunsOne(cfg: Config, s: State, a: Action)
    requires Enabled(cfg, s, a)
    ensures Runs(cfg, s, [a]) && After(cfg, s, [a]) == Step(cfg, s, a)
  {
    assert [a][1..] == [];
  }

  lemma RunsCons(cfg: Config, s: State, a: Action, rest: seq<Action>)
    requires Enabled(cfg, s, a) && Runs(cfg, Step(cfg, s, a), rest)
    ensures Runs(cfg, s, [a] + rest) && After(cfg, s, [a] + rest) == After(cfg, Step(cfg, s, a), rest)
  {
    assert ([a] + rest)[1..] == rest;
  }

  /** The steps of a caller that misses, gets the lock if there is one, misses again and loads. */
  function SoloLoad(cfg: Config, c: nat): seq<Action>
  {
    if cfg.locker then [Get(c, false), TryLock(c, false), Get(c, false), Load(c)] else [Get(c, false), Load(c)]
  }

  lemma SoloLoadRuns(cfg: Config, s: State, c: nat)
    requires s.cache == None && s.lock == None && c < |s.pcs| && s.pcs[c] == Start
    ensures Runs(cfg, s, SoloLoad(cfg, c))
    ensures After(cfg, s, SoloLoad(cfg, c)) ==
            State(None, if cfg.locker then Some(c) else None, s.pcs[c := AfterLoad(cfg)])
  {
    var acts := SoloLoad(cfg, c);
    var s1 := Step(cfg, s, acts[0]);
    if cfg.locker {
      var s2 := Step(cfg, s1, acts[1]);
      var s3 := Step(cfg, s2, acts[2]);
      RunsOne(cfg, s3, Load(c));
      RunsCons(cfg, s2, acts[2], [Load(c)]);
      RunsCons(cfg, s1, acts[1], [acts[2]] + [Load(c)]);
      RunsCons(cfg, s, acts[0], [acts[1]] + ([acts[2]] + [Load(c)]));
      assert acts == [acts[0]] + ([acts[1]] + ([acts[2]] + [Load(c)]));
      assert Step(cfg, s3, Load(c)).pcs == s.pcs[c := AfterLoad(cfg)];
    } else {
      RunsOne(cfg, s1, Load(c));
      RunsCons(cfg, s, acts[0], [Load(c)]);
      assert acts == [acts[0]] + [Load(c)];
      assert Step(cfg, s1, Load(c)).pcs == s.pcs[c := AfterLoad(cfg)];
    }
  }

  /** One caller stores the source's bytes, a second reads them back as "not found". */
  lemma MarkerAsDataIsLost(cfg: Config, callers: nat)
    requires cfg.source == Data(NULL_MARKER) && callers >= 2
    ensures !AlwaysCorrect(cfg, callers)
  {
    var load := SoloLoad(cfg, 0);
    SoloLoadRuns(cfg, Init(callers), 0);
    var s := After(cfg, Init(callers), load);
    RunsOne(cfg, s, Set(0, false));
    var s' := Step(cfg, s, Set(0, false));
    RunsOne(cfg, s', Get(1, false));
    RunsAppend(cfg, s, [Set(0, false)], [Get(1, false)]);
    RunsAppend(cfg, Init(callers), load, [Set(0, false)] + [Get(1, false)]);
    assert After(cfg, Init(callers), load + ([Set(0, false)] + [Get(1, false)])).pcs[1] == Done(NotFound);
  }

  /** Results are right on every interleaving exactly when the source cannot be mistaken for the marker. */
  lemma CorrectExactly(cfg: Config, callers: nat)
    requires callers >= 2
    ensures AlwaysCorrect(cfg, callers) <==> cfg.source != Data(NULL_MARKER)
  {
    if cfg.source == Data(NULL_MARKER) {
      MarkerAsDataIsLost(cfg, callers);
    } else {
      forall acts, i | Runs(cfg, Init(callers), acts) && 0 <= i < callers &&
                       i < |After(cfg, Init(callers), acts).pcs| && After(cfg, Init(callers), acts).pcs[i].Done?
        ensures var r := After(cfg, Init(callers), acts).pcs[i].result; Excused(r) || r == Expected(cfg)
      {
        RunKeepsCorrect(cfg, Init(callers), acts);
        assert PcCorrect(cfg, After(cfg, Init(callers), acts).pcs[i]);
      }
    }
  }

  // ------------------------------------------------------------- refused calls

  /** The cache or the lock refuses this caller. */
  predicate Refuses(a: Action, i: nat) { (a.Get? || a.TryLock?) && a.caller == i && a.fails }

  /** A call that is about to end, or has ended, does so with the loader's answer. */
  predicate Answered(cfg: Config, pc: Pc)
  {
    (pc.Leaving? || pc.Done?) ==> pc.result == Expected(cfg)
  }

  lemma StepKeepsAnswered(cfg: Config, s: State, a: Action, i: nat)
    requires cfg.source != Data(NULL_MARKER) && Correct(cfg, s) && Enabled(cfg, s, a)
    requires i < |s.pcs| && Answered(cfg, s.pcs[i]) && !Refuses(a, i)
    ensures i < |Step(cfg, s, a).pcs| && Answered(cfg, Step(cfg, s, a).pcs[i])
  {
    if !a.Remove? { assert PcCorrect(cfg, s.pcs[a.caller]); }
  }

  lemma {:induction false} RunKeepsAnswered(cfg: Config, s: State, acts: seq<Action>, i: nat)
    requires cfg.source != Data(NULL_MARKER) && Correct(cfg, s) && Runs(cfg, s, acts)
    requires i < |s.pcs| && Answered(cfg, s.pcs[i]) && forall k :: 0 <= k < |acts| ==> !Refuses(acts[k], i)
    ensures i < |After(cfg, s, acts).pcs| && Answered(cfg, After(cfg, s, acts).pcs[i])
    decreases |acts|
  {
    if acts != [] {
      StepKeepsAnswered(cfg, s, acts[0], i);
      StepKeepsCorrect(cfg, s, acts[0]);
      RunKeepsAnswered(cfg, Step(cfg, s, acts[0]), acts[1..], i);
    }
  }

  /** A call that neither the cache nor the lock refused ends with the loader's answer. */
  lemma UnrefusedCallsAnswer(cfg: Config, callers: nat, acts: seq<Action>, i: nat)
    requires cfg.source != Data(NULL_MARKER) && Runs(cfg, Init(callers), acts) && i < callers
    requires forall k :: 0 <= k < |acts| ==> !Refuses(acts[k], i)
    ensures var s := After(cfg, Init(callers), acts);
            i < |s.pcs| && (s.pcs[i].Done? ==> s.pcs[i].result == Expected(cfg))
  {
    RunKeepsAnswered(cfg, Init(callers), acts, i);
  }

  // ------------------------------------------------------------------ every call ends

  /** How many steps of its own a call still has at most. */
  function StepsLeft(pc: Pc): nat
  {
    match pc
    case Start => 6
    case WantLock => 5
    case Recheck => 4
    case MustLoad => 3
    case Storing(_, _) => 2
    case Leaving(_) => 1
    case Done(_) => 0
  }

  /** The step belongs to call i. */
  predicate Own(a: Action, i: nat) { !a.Remove? && a.caller == i }

  function OwnSteps(acts: seq<Action>, i: nat): nat
  {
    if acts == [] then 0 else (if Own(acts[0], i) then 1 else 0) + OwnSteps(acts[1..], i)
  }

  /** A step brings its own call nearer to its end and leaves the others where they are. */
  lemma StepMovesOn(cfg: Config, s: State, a: Action, i: nat)
    requires Enabled(cfg, s, a) && i < |s.pcs|
    ensures var t := Step(cfg, s, a);
            && |t.pcs| == |s.pcs|
            && (Own(a, i) ==> StepsLeft(t.pcs[i]) < StepsLeft(s.pcs[i]))
            && (!Own(a, i) ==> t.pcs[i] == s.pcs[i])
  {
  }

  lemma {:induction false} OwnStepsBounded(cfg: Config, s: State, acts: seq<Action>, i: nat)
    requires Runs(cfg, s, acts) && i < |s.pcs|
    ensures i < |After(cfg, s, acts).pcs|
    ensures OwnSteps(acts, i) + StepsLeft(After(cfg, s, acts).pcs[i]) <= StepsLeft(s.pcs[i])
    decreases |acts|
  {
    if acts != [] {
      StepMovesOn(cfg, s, acts[0], i);
      OwnStepsBounded(cfg, Step(cfg, s, acts[0]), acts[1..], i);
    }
  }

  /** A call that is not done can always go on, unless it waits for a lock that another call holds. */
  lemma CallsAreNotStuck(cfg: Config, s: State, i: nat)
    requires i < |s.pcs| && !s.pcs[i].Done? && (s.pcs[i].WantLock? ==> s.lock.None?)
    ensures exists a :: Own(a, i) && !(a.TryLock? && a.fails) && Enabled(cfg, s, a)
  {
    var a := match s.pcs[i]
      case Start => Get(i, false)
      case WantLock => TryLock(i, false)
      case Recheck => Get(i, false)
      case MustLoad => Load(i)
      case Storing(_, _) => Set(i, false)
      case Leaving(_) => Unlock(i, false);
    assert Own(a, i) && Enabled(cfg, s, a);
  }

  /** Every call takes at most six steps. */
  lemma EveryCallEnds(cfg: Config, callers: nat, acts: seq<Action>, i: nat)
    requires Runs(cfg, Init(callers), acts) && i < callers
    ensures OwnSteps(acts, i) <= 6
  {
    OwnStepsBounded(cfg, Init(callers), acts, i);
  }

  /** A refusal by the lock ends the call; one by the cache ends it too, after the lock is given back. */
  lemma RefusalIsReported(cfg: Config, s: State, a: Action, i: nat)
    requires Enabled(cfg, s, a) && Refuses(a, i)
    ensures var t := Step(cfg, s, a);
            && t.cache == s.cache && t.lock == s.lock
            && t.pcs[i] == if a.TryLock? then Done(LockNotObtained)
                           else if s.pcs[i].Start? then Done(CacheError) else Leaving(CacheError)
  {
  }

  // ------------------------------------------------------------------ loader calls

  /** The answers that are worth keeping: data always, a missing entry when null marking is on, an error never. */
  predicate Cacheable(cfg: Config) { cfg.source.Data? || (cfg.source.Missing? && cfg.nullMarking) }

  /** The entry went away, or was never stored. */
  predicate Reopens(a: Action) { a.Remove? || (a.Set? && a.fails) }

  /** Between any two loader calls the entry was removed or could not be stored. */
  ghost predicate LoadsSeparated(acts: seq<Action>)
  {
    forall i, j :: 0 <= i < j < |acts| && acts[i].Load? && acts[j].Load? ==>
      exists k :: i < k < j && Reopens(acts[k])
  }

  predicate Critical(pc: Pc) { pc.Recheck? || pc.MustLoad? || pc.Storing? || pc.Leaving? }

  /** Only the lock holder is past the lock; once loaded, the entry is there or on its way. */
  ghost predicate Guarded(s: State, loaded: bool)
  {
    && (forall i :: 0 <= i < |s.pcs| && Critical(s.pcs[i]) ==> s.lock == Some(i))
    && (forall i :: 0 <= i < |s.pcs| && s.pcs[i].MustLoad? ==> !loaded && s.cache == None)
    && (loaded && s.cache == None ==> s.lock.Some? && s.lock.value < |s.pcs| && s.pcs[s.lock.value].Storing?)
  }

  /** Whether a loader call is outstanding or its entry still stored, after this action. */
  function LoadedAfter(loaded: bool, a: Action): bool { a.Load? || (loaded && !Reopens(a)) }

  lemma StepKeepsGuarded(cfg: Config, s: State, a: Action, loaded: bool)
    requires cfg.locker && Cacheable(cfg) && Guarded(s, loaded) && Enabled(cfg, s, a)
    ensures Guarded(Step(cfg, s, a), LoadedAfter(loaded, a))
    ensures a.Load? ==> !loaded
  {
    if !a.Remove? { assert Critical(s.pcs[a.caller]) ==> s.lock == Some(a.caller); }
  }

  /** Once something is loaded, the next loader call comes after the entry is reopened. */
  lemma {:induction false} NextLoadWaits(cfg: Config, s: State, acts: seq<Action>, loaded: bool, j: nat)
    requires cfg.locker && Cacheable(cfg) && Guarded(s, loaded) && Runs(cfg, s, acts)
    requires j < |acts| && acts[j].Load? && loaded
    ensures exists k :: 0 <= k < j && Reopens(acts[k])
    decreases |acts|
  {
    StepKeepsGuarded(cfg, s, acts[0], loaded);
    if !Reopens(acts[0]) {
      NextLoadWaits(cfg, Step(cfg, s, acts[0]), acts[1..], true, j - 1);
      var k :| 0 <= k < j - 1 && Reopens(acts[1..][k]);
      assert acts[k + 1] == acts[1..][k];
    }
  }

  lemma {:induction false} GuardedRunSeparates(cfg: Config, s: State, acts: seq<Action>, loaded: bool, i: nat, j: nat)
    requires cfg.locker && Cacheable(cfg) && Guarded(s, loaded) && Runs(cfg, s, acts)
    requires i < j < |acts| && acts[i].Load? && acts[j].Load?
    ensures exists k :: i < k < j && Reopens(acts[k])
    decreases |acts|
  {
    var s' := Step(cfg, s, acts[0]);
    StepKeepsGuarded(cfg, s, acts[0], loaded);
    if i == 0 {
      NextLoadWaits(cfg, s', acts[1..], true, j - 1);
      var k :| 0 <= k < j - 1 && Reopens(acts[1..][k]);
      assert acts[k + 1] == acts[1..][k];
    } else {
      GuardedRunSeparates(cfg, s', acts[1..], LoadedAfter(loaded, acts[0]), i - 1, j - 1);
      var k :| i - 1 < k < j - 1 && Reopens(acts[1..][k]);
      assert acts[k + 1] == acts[1..][k];
    }
  }

  ghost predicate AlwaysSeparated(cfg: Config, callers: nat)
  {
    forall acts :: Runs(cfg, Init(callers), acts) ==> LoadsSeparated(acts)
  }

  function BothLoad(): seq<Action> { [Get(0, false), Get(1, false), Load(0), Load(1)] }

  lemma BothLoadRuns(cfg: Config, callers: nat)
    requires !cfg.locker && callers >= 2
    ensures Runs(cfg, Init(callers), BothLoad())
  {
    var acts := BothLoad();
    var s0 := Init(callers);
    var s1 := Step(cfg, s0, acts[0]);
    var s2 := Step(cfg, s1, acts[1]);
    var s3 := Step(cfg, s2, acts[2]);
    RunsOne(cfg, s3, Load(1));
    RunsCons(cfg, s2, acts[2], [Load(1)]);
    RunsCons(cfg, s1, acts[1], [acts[2]] + [Load(1)]);
    RunsCons(cfg, s0, acts[0], [acts[1]] + ([acts[2]] + [Load(1)]));
    assert acts == [acts[0]] + ([acts[1]] + ([acts[2]] + [Load(1)]));
  }

  /** Without a lock two callers can miss and load together. */
  lemma UnlockedCallersLoadTwice(cfg: Config, callers: nat)
    requires !cfg.locker && callers >= 2
    ensures !AlwaysSeparated(cfg, callers)
  {
    BothLoadRuns(cfg, callers);
    assert BothLoad()[2].Load? && BothLoad()[3].Load?;
    assert !LoadsSeparated(BothLoad());
  }

  /** An answer that is not cached is loaded by every caller in turn. */
  lemma UncachedAnswerLoadsTwice(cfg: Config, callers: nat)
    requires cfg.locker && !Cacheable(cfg) && callers >= 2
    ensures !AlwaysSeparated(cfg, callers)
  {
    var a, b := SoloLoad(cfg, 0), SoloLoad(cfg, 1);
    SoloLoadRuns(cfg, Init(callers), 0);
    var s := After(cfg, Init(callers), a);
    RunsOne(cfg, s, Unlock(0, false));
    var s' := Step(cfg, s, Unlock(0, false));
    SoloLoadRuns(cfg, s', 1);
    RunsAppend(cfg, s, [Unlock(0, false)], b);
    RunsAppend(cfg, Init(callers), a, [Unlock(0, false)] + b);
    var acts := a + ([Unlock(0, false)] + b);
    assert acts == [Get(0, false), TryLock(0, false), Get(0, false), Load(0), Unlock(0, false),
                    Get(1, false), TryLock(1, false), Get(1, false), Load(1)];
    assert acts[3].Load? && acts[8].Load?;
  }

  /** A loaded entry that is removed is loaded again, so the separation is as tight as it can be. */
  lemma RemovedEntryIsLoadedAgain(cfg: Config, callers: nat)
    requires cfg.locker && Cacheable(cfg) && callers >= 2
    ensures Runs(cfg, Init(callers), SoloLoad(cfg, 0) + ([Set(0, false), Unlock(0, false), Remove] + SoloLoad(cfg, 1)))
  {
    var a, b := SoloLoad(cfg, 0), SoloLoad(cfg, 1);
    SoloLoadRuns(cfg, Init(callers), 0);
    var s := After(cfg, Init(callers), a);
    var s1 := Step(cfg, s, Set(0, false));
    var s2 := Step(cfg, s1, Unlock(0, false));
    var s3 := Step(cfg, s2, Remove);
    SoloLoadRuns(cfg, s3, 1);
    RunsCons(cfg, s2, Remove, b);
    RunsCons(cfg, s1, Unlock(0, false), [Remove] + b);
    RunsCons(cfg, s, Set(0, false), [Unlock(0, false)] + ([Remove] + b));
    assert [Set(0, false), Unlock(0, false), Remove] + b == [Set(0, false)] + ([Unlock(0, false)] + ([Remove] + b));
    RunsAppend(cfg, Init(callers), a, [Set(0, false), Unlock(0, false), Remove] + b);
  }

  /** The source is asked once per life of the entry exactly when there is a lock and the answer is cached. */
  lemma SeparatedExactly(cfg: Config, callers: nat)
    requires callers >= 2
    ensures AlwaysSeparated(cfg, callers)
       <==> cfg.locker && (cfg.source.Data? || (cfg.source.Missing? && cfg.nullMarking))
  {
    if cfg.locker && Cacheable(cfg) {
      forall acts: seq<Action> | Runs(cfg, Init(callers), acts)
        ensures LoadsSeparated(acts)
      {
        forall i, j | 0 <= i < j < |acts| && acts[i].Load? && acts[j].Load?
          ensures exists k :: i < k < j && Reopens(acts[k])
        {
          GuardedRunSeparates(cfg, Init(callers), acts, false, i, j);
        }
      }
    } else if !cfg.locker {
      UnlockedCallersLoadTwice(cfg, callers);
    } else {
      UncachedAnswerLoadsTwice(cfg, callers);
    }
  }
}
