/**
 The debounce over whole runs. Only a fire that passes the gate moves an alarm's
 last processed time, and it moves it to that fire's `now`; so any two processed
 fires of one alarm, however many other events come between, are at least the
 validated interval in force at the later one apart. The immediate check inside
 `updateAlarm` is not such a fire: it opens links without being gated.
 */
module Traces {
  import opened Wrappers
  import opened OrderedMap
  import opened Names
  import opened Schedule
  import opened Scheduler
  import opened Invariants

  /** A processed fire: when it happened and the validated interval it was gated by. */
  datatype Processed = Processed(at: int, interval: int)

  predicate IsProcessedFire(s: State, e: Event, n: string)
  {
    e.AlarmFired? && e.name == n && DebounceAllows(s, n, e.now)
  }

  /** The processed fires of alarm `n` while `evs` are handled from `s`, in order. */
  function ProcessedFires(s: State, evs: seq<Event>, n: string): seq<Processed>
    decreases |evs|
  {
    if |evs| == 0 then []
    else
      var here :=
        if IsProcessedFire(s, evs[0], n)
        then [Processed(evs[0].now, Get(s.registry, n).value.validatedInterval)]
        else [];
      here + ProcessedFires(Step(s, evs[0]).state, evs[1..], n)
  }

  /** Within one script lifetime, every handler other than a processed fire of `n`
      leaves `n`'s last processed time alone; a processed fire sets it to the
      fire's `now`. */
  lemma StepLastProcessed(s: State, e: Event, n: string)
    requires !e.ScriptLoaded?
    ensures LastProcessedOr0(Step(s, e).state, n) ==
      if IsProcessedFire(s, e, n) then e.now else LastProcessedOr0(s, n)
  {
    match e
    case Initialize(storage, env) =>
    case Message(req, env) =>
    case AlarmFired(name, now, env) =>
      var a := OnAlarmFire(s, name, now, env.clock);
      if name == SweepAlarmName {
        assert VerifySweep(a.state, env).state.lastProcessed == a.state.lastProcessed;
      }
    case ScriptLoaded =>
    case AlarmLost(_) =>
  }

  /** Loading the script again forgets every last processed time, so the spacing
      below does not reach across a reload. */
  lemma ReloadForgetsDebounce(s: State, n: string)
    ensures LastProcessedOr0(Step(s, ScriptLoaded).state, n) == 0
  {
  }

  /** Each processed fire is at least its gating interval after the one before it,
      the first one after the time `last`. */
  predicate Spaced(ps: seq<Processed>, last: int)
  {
    && (|ps| > 0 ==> ps[0].at - last >= ps[0].interval * MillisPerMinute)
    && (forall i :: 0 <= i < |ps| - 1 ==> ps[i + 1].at - ps[i].at >= ps[i + 1].interval * MillisPerMinute)
  }

  lemma SpacedCons(p: Processed, tail: seq<Processed>, last: int)
    requires p.at - last >= p.interval * MillisPerMinute
    requires Spaced(tail, p.at)
    ensures Spaced([p] + tail, last)
  {
    var ps := [p] + tail;
    assert forall i :: 1 <= i < |ps| ==> ps[i] == tail[i - 1];
  }

  /** Within one script lifetime, consecutive processed fires of one alarm are at
      least the gating interval apart, and the first is that far from the last
      processed time before the run. */
  lemma {:induction false} DebounceSpacing(s: State, evs: seq<Event>, n: string)
    requires ScriptLoaded !in evs
    ensures Spaced(ProcessedFires(s, evs, n), LastProcessedOr0(s, n))
    decreases |evs|
  {
    if |evs| > 0 {
      var s' := Step(s, evs[0]).state;
      StepLastProcessed(s, evs[0], n);
      DebounceSpacing(s', evs[1..], n);
      var tail := ProcessedFires(s', evs[1..], n);
      if IsProcessedFire(s, evs[0], n) {
        SpacedCons(Processed(evs[0].now, Get(s.registry, n).value.validatedInterval), tail, LastProcessedOr0(s, n));
      }
    }
  }

  /** The gating intervals of a run from a well-formed state are all at least one minute. */
  lemma {:induction false} ProcessedIntervalsPositive(s: State, evs: seq<Event>, n: string)
    requires WellFormed(s)
    ensures forall p :: p in ProcessedFires(s, evs, n) ==> p.interval >= 1
    decreases |evs|
  {
    if |evs| > 0 {
      StepPreservesWellFormed(s, evs[0]);
      ProcessedIntervalsPositive(Step(s, evs[0]).state, evs[1..], n);
      if IsProcessedFire(s, evs[0], n) {
        RegisteredIntervalsPositive(s, n);
      }
    }
  }

  /** From any reachable state, and until the script is next loaded, the processed
      fires of one alarm are strictly increasing in time and at least a minute apart. */
  lemma ProcessedFiresAMinuteApart(evs0: seq<Event>, evs: seq<Event>, n: string)
    requires ScriptLoaded !in evs
    ensures var ps := ProcessedFires(Run(Boot(), evs0).state, evs, n);
      forall i :: 0 <= i < |ps| - 1 ==> ps[i + 1].at >= ps[i].at + MillisPerMinute
  {
    var s := Run(Boot(), evs0).state;
    ReachableWellFormed(evs0);
    DebounceSpacing(s, evs, n);
    ProcessedIntervalsPositive(s, evs, n);
    var ps := ProcessedFires(s, evs, n);
    forall i | 0 <= i < |ps| - 1 ensures ps[i + 1].at >= ps[i].at + MillisPerMinute {
      assert ps[i + 1] in ps;
    }
  }
}
