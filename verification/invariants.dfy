/**
 Invariants of the scheduler state and what each handler does to them: the
 registry is keyed by distinct `timelessAlarm…` names and stores validated
 intervals; `updateAlarm` is idempotent; `stopAlarm` silences later fires;
 the sweep only adds alarms; startup arms exactly the active stored rules.
 */
module Invariants {
  import opened Wrappers
  import opened Text
  import opened OrderedMap
  import opened Names
  import opened Schedule
  import opened Scheduler

  /** Registry keys are distinct alarm names and every stored interval is the
      validated interval of the stored rule. */
  predicate WellFormed(s: State)
  {
    && Distinct(s.registry)
    && forall p :: p in s.registry ==>
         StartsWith(p.0, AlarmPrefix) && p.1.validatedInterval == ValidatedInterval(p.1.config)
  }

  lemma BootWellFormed()
    ensures WellFormed(Boot())
  {
  }

  /** Every registered rule has a period of at least one minute. */
  lemma RegisteredIntervalsPositive(s: State, name: string)
    requires WellFormed(s)
    requires Get(s.registry, name).Some?
    ensures Get(s.registry, name).value.validatedInterval >= 1
  {
  }

  lemma UpdatePreservesWellFormed(s: State, config: Config, id: string, env: Env)
    requires WellFormed(s)
    ensures WellFormed(UpdateAlarm(s, config, id, env).state)
  {
    AlarmNameRoundTrip(id);
  }

  lemma StopPreservesWellFormed(s: State, id: string, env: Env)
    requires WellFormed(s)
    ensures WellFormed(StopAlarm(s, id, env))
  {
  }

  /** The sweep's alarm never reaches a registered rule, so the rule listener ignores it. */
  lemma SweepFireIgnoredByRuleListener(s: State, now: int, clock: Clock)
    requires WellFormed(s)
    ensures OnAlarmFire(s, SweepAlarmName, now, clock) == Outcome(s, [])
  {
    if Get(s.registry, SweepAlarmName).Some? {
      PrefixedIsNotSweep(SweepAlarmName);
    }
  }

  /** Calling `updateAlarm` twice with the same rule leaves the same single alarm and
      the same registry entry as calling it once, and runs the same check. */
  lemma UpdateAlarmIdempotent(s: State, config: Config, id: string, env: Env)
    ensures var once := UpdateAlarm(s, config, id, env);
            var twice := UpdateAlarm(once.state, config, id, env);
            twice.state == once.state && twice.urls == once.urls
  {
    var name, entry := AlarmName(id), Entry(config, ValidatedInterval(config));
    if name !in env.clearFails {
      SetTwice(s.registry, name, entry);
      var once := UpdateAlarm(s, config, id, env).state;
      assert once.alarms[name := entry.validatedInterval] == once.alarms;
    }
  }

  /** After a successful `stopAlarm`, a fire of the stopped alarm that was already
      queued opens nothing and changes nothing. */
  lemma StaleFireAfterStop(s: State, id: string, env: Env, now: int, env': Env)
    requires AlarmName(id) !in env.clearFails
    ensures var stopped := StopAlarm(s, id, env);
            OnAlarm(stopped, AlarmName(id), now, env') == Outcome(stopped, [])
  {
    AlarmNameRoundTrip(id);
    PrefixedIsNotSweep(AlarmName(id));
  }

  /** Whether the options page gets `{success: true}` depends on the action alone,
      never on the state or on what the host reports afterwards. */
  lemma AcknowledgementIgnoresHost(s: State, s': State, req: Request, env: Env, env': Env)
    ensures OnMessage(s, req, env).acknowledged == OnMessage(s', req, env').acknowledged
  {
  }

  /** An update or stop whose clear fails changes nothing, and is still acknowledged
      as a success. */
  lemma FailedClearStillAcknowledged(s: State, req: Request, env: Env)
    requires req.UpdateAlarmRequest? || req.StopAlarmRequest?
    requires AlarmName(req.configId) in env.clearFails
    ensures OnMessage(s, req, env) == Reply(Outcome(s, []), true)
  {
  }

  /** With nothing registered, any run of alarm fires changes nothing and opens
      nothing: the rule listener finds no entry and the sweep has nothing to walk. */
  lemma {:induction false} FiresOnEmptyRegistry(s: State, evs: seq<Event>)
    requires Keys(s.registry) == {}
    requires forall i :: 0 <= i < |evs| ==> evs[i].AlarmFired?
    ensures Run(s, evs) == Outcome(s, [])
    decreases |evs|
  {
    if |evs| > 0 {
      assert Step(s, evs[0]) == Outcome(s, []);
      assert forall i :: 0 <= i < |evs[1..]| ==> evs[1..][i] == evs[i + 1];
      FiresOnEmptyRegistry(s, evs[1..]);
    }
  }

  /** After the script is loaded again, every alarm fire is ignored until a rule is
      registered anew, although the surviving rule alarms keep firing. */
  lemma ReloadSilencesFires(alarms: map<string, int>, evs: seq<Event>)
    requires forall i :: 0 <= i < |evs| ==> evs[i].AlarmFired?
    ensures Run(Loaded(alarms), evs) == Outcome(Loaded(alarms), [])
  {
    var l := Loaded(alarms);
    assert Keys(l.registry) == {};
    FiresOnEmptyRegistry(l, evs);
  }

  /** A registered, active rule whose alarm is missing and whose clear succeeds. */
  predicate NeedsRepair(s: State, n: string, env: Env)
  {
    && n !in s.alarms
    && n !in env.clearFails
    && Get(s.registry, n).Some?
    && Get(s.registry, n).value.config.active
  }

  /** The sweep's visit of a registered entry of a well-formed state: only its own
      alarm can appear, with the validated period, and only when it needs repair. */
  lemma RepairEntryEffect(s: State, name: string, entry: Entry, env: Env)
    requires WellFormed(s)
    requires Get(s.registry, name) == Some(entry)
    ensures var r := RepairEntry(s, name, entry, env).state;
      && WellFormed(r)
      && r.registry == s.registry
      && r.alarms == if NeedsRepair(s, name, env) then s.alarms[name := entry.validatedInterval] else s.alarms
    ensures RepairEntry(s, name, entry, env).urls ==
      if NeedsRepair(s, name, env) then CheckTimeAndOpenLink(entry.config, env.clock) else []
  {
    assert (name, entry) in s.registry;
    AlarmNameOfId(name);
    if name !in s.alarms && entry.config.active && name !in env.clearFails {
      SetPresent(s.registry, name, entry);
    }
  }

  /** Arming `name` does not change whether any other rule needs repair. */
  lemma NeedsRepairFrame(s: State, t: State, name: string, env: Env)
    requires t.registry == s.registry
    requires forall n :: n != name ==> (n in t.alarms <==> n in s.alarms)
    ensures forall n :: n != name ==> (NeedsRepair(t, n, env) <==> NeedsRepair(s, n, env))
  {
  }

  /** A sweep over registered entries leaves the registry alone and keeps every
      existing alarm with its period. */
  lemma {:induction false} SweepFromKeeps(s: State, pending: OMap<string, Entry>, env: Env)
    requires WellFormed(s)
    requires forall p :: p in pending ==> Get(s.registry, p.0) == Some(p.1)
    ensures var r := SweepFrom(s, pending, env).state;
      && r.registry == s.registry
      && (forall n :: n in s.alarms ==> n in r.alarms && r.alarms[n] == s.alarms[n])
    decreases |pending|
  {
    if |pending| > 0 {
      assert pending[0] in pending;
      var first := RepairEntry(s, pending[0].0, pending[0].1, env).state;
      RepairEntryEffect(s, pending[0].0, pending[0].1, env);
      forall p | p in pending[1..] ensures Get(first.registry, p.0) == Some(p.1) {
        assert p in pending;
      }
      SweepFromKeeps(first, pending[1..], env);
    }
  }

  /** A sweep over distinct registered entries adds exactly the alarms of the
      pending rules that need repair, each with its validated period. */
  lemma {:induction false} SweepFromAdds(s: State, pending: OMap<string, Entry>, env: Env)
    requires WellFormed(s)
    requires Distinct(pending)
    requires forall p :: p in pending ==> Get(s.registry, p.0) == Some(p.1)
    ensures var r := SweepFrom(s, pending, env).state;
      && (forall n :: (n in r.alarms && n !in s.alarms) <==> (n in Keys(pending) && NeedsRepair(s, n, env)))
      && (forall n :: n in r.alarms && n !in s.alarms ==> r.alarms[n] == Get(s.registry, n).value.validatedInterval)
    decreases |pending|
  {
    if |pending| > 0 {
      var name, entry := pending[0].0, pending[0].1;
      assert pending[0] in pending;
      var first := RepairEntry(s, name, entry, env).state;
      var r := SweepFrom(s, pending, env).state;
      assert r == SweepFrom(first, pending[1..], env).state;
      RepairEntryEffect(s, name, entry, env);
      forall p | p in pending[1..] ensures Get(first.registry, p.0) == Some(p.1) {
        assert p in pending;
      }
      SweepFromKeeps(first, pending[1..], env);
      SweepFromAdds(first, pending[1..], env);
      NeedsRepairFrame(s, first, name, env);
      assert Keys(pending) == {name} + Keys(pending[1..]);
      assert name !in Keys(pending[1..]);
      forall n ensures (n in r.alarms && n !in s.alarms) <==> (n in Keys(pending) && NeedsRepair(s, n, env)) {
        if n != name {
          assert n in first.alarms <==> n in s.alarms;
        }
      }
    }
  }

  /** The links a sweep over `pending` opens, as a reference: for each pending rule
      that needs repair in the state the sweep starts from, in order, what the
      window check opens for it. No debounce time is consulted. */
  function RepairUrls(s: State, pending: OMap<string, Entry>, env: Env): seq<string>
    decreases |pending|
  {
    if |pending| == 0 then []
    else
      (if NeedsRepair(s, pending[0].0, env) then CheckTimeAndOpenLink(pending[0].1.config, env.clock) else [])
      + RepairUrls(s, pending[1..], env)
  }

  /** Arming `name` does not change the links opened for pending rules other than it. */
  lemma {:induction false} RepairUrlsFrame(s: State, t: State, name: string, pending: OMap<string, Entry>, env: Env)
    requires t.registry == s.registry
    requires forall n :: n != name ==> (n in t.alarms <==> n in s.alarms)
    requires name !in Keys(pending)
    ensures RepairUrls(t, pending, env) == RepairUrls(s, pending, env)
    decreases |pending|
  {
    if |pending| > 0 {
      NeedsRepairFrame(s, t, name, env);
      RepairUrlsFrame(s, t, name, pending[1..], env);
    }
  }

  /** A sweep over distinct registered entries opens, in order, what the window
      check opens for each rule that needs repair, however recently its alarm was
      processed. */
  lemma {:induction false} SweepFromUrls(s: State, pending: OMap<string, Entry>, env: Env)
    requires WellFormed(s)
    requires Distinct(pending)
    requires forall p :: p in pending ==> Get(s.registry, p.0) == Some(p.1)
    ensures SweepFrom(s, pending, env).urls == RepairUrls(s, pending, env)
    decreases |pending|
  {
    if |pending| > 0 {
      var name, entry := pending[0].0, pending[0].1;
      assert pending[0] in pending;
      var first := RepairEntry(s, name, entry, env);
      RepairEntryEffect(s, name, entry, env);
      forall p | p in pending[1..] ensures Get(first.state.registry, p.0) == Some(p.1) {
        assert p in pending;
      }
      SweepFromUrls(first.state, pending[1..], env);
      assert name !in Keys(pending[1..]);
      RepairUrlsFrame(s, first.state, name, pending[1..], env);
    }
  }

  /** One sweep over `pending`, a duplicate-free part of the registry: the registry
      and debounce map are untouched, existing alarms keep their periods, the
      alarms added are exactly those of the pending rules that need repair, each
      with its validated period, and the links opened are those of their window
      checks. */
  lemma SweepFromRepairs(s: State, pending: OMap<string, Entry>, env: Env)
    requires WellFormed(s)
    requires Distinct(pending)
    requires forall p :: p in pending ==> Get(s.registry, p.0) == Some(p.1)
    ensures var r := SweepFrom(s, pending, env).state;
      && r.registry == s.registry
      && r.lastProcessed == s.lastProcessed
      && (forall n :: n in s.alarms ==> n in r.alarms && r.alarms[n] == s.alarms[n])
      && (forall n :: (n in r.alarms && n !in s.alarms) <==> (n in Keys(pending) && NeedsRepair(s, n, env)))
      && (forall n :: n in r.alarms && n !in s.alarms ==> r.alarms[n] == Get(s.registry, n).value.validatedInterval)
    ensures SweepFrom(s, pending, env).urls == RepairUrls(s, pending, env)
  {
    SweepFromKeeps(s, pending, env);
    SweepFromAdds(s, pending, env);
    SweepFromUrls(s, pending, env);
  }

  /** The sweep, from a well-formed state: see `SweepFromRepairs`, for the whole registry. */
  lemma VerifySweepRepairs(s: State, env: Env)
    requires WellFormed(s)
    ensures var r := VerifySweep(s, env).state;
      && r.registry == s.registry
      && r.lastProcessed == s.lastProcessed
      && (forall n :: n in s.alarms ==> n in r.alarms && r.alarms[n] == s.alarms[n])
      && (forall n :: (n in r.alarms && n !in s.alarms) <==> NeedsRepair(s, n, env))
      && (forall n :: n in r.alarms && n !in s.alarms ==> r.alarms[n] == Get(s.registry, n).value.validatedInterval)
    ensures VerifySweep(s, env).urls == RepairUrls(s, s.registry, env)
  {
    forall p | p in s.registry ensures Get(s.registry, p.0) == Some(p.1) {
      GetMember(s.registry, p);
    }
    SweepFromRepairs(s, s.registry, env);
  }

  /** After one sweep whose clears succeed, every active registered rule has an alarm. */
  lemma SweepConverges(s: State, env: Env)
    requires WellFormed(s)
    requires env.clearFails == {}
    ensures forall n :: Get(s.registry, n).Some? && Get(s.registry, n).value.config.active
              ==> n in VerifySweep(s, env).state.alarms
  {
    VerifySweepRepairs(s, env);
  }

  /** An active rule's alarm that the host drops is re-armed with its registered
      period by the next `verifyAlarms` fire whose clear of it succeeds, and every
      other alarm keeps its period. */
  lemma LostAlarmRestored(s: State, name: string, now: int, env: Env)
    requires WellFormed(s)
    requires Get(s.registry, name).Some? && Get(s.registry, name).value.config.active
    requires name !in env.clearFails
    ensures var lost := Step(s, AlarmLost(name)).state;
      var r := Step(lost, AlarmFired(SweepAlarmName, now, env)).state;
      && name in r.alarms && r.alarms[name] == Get(s.registry, name).value.validatedInterval
      && (forall n :: n in s.alarms && n != name ==> n in r.alarms && r.alarms[n] == s.alarms[n])
  {
    var lost := Step(s, AlarmLost(name)).state;
    assert WellFormed(lost);
    SweepFireIgnoredByRuleListener(lost, now, env.clock);
    VerifySweepRepairs(lost, env);
  }

  /** With every active rule armed, the sweep changes nothing and opens nothing. */
  lemma {:induction false} SweepFromIdle(s: State, pending: OMap<string, Entry>, env: Env)
    requires forall p :: p in pending ==> p.0 in s.alarms || !p.1.config.active
    ensures SweepFrom(s, pending, env) == Outcome(s, [])
    decreases |pending|
  {
    if |pending| > 0 {
      assert pending[0] in pending;
      forall p | p in pending[1..] ensures p.0 in s.alarms || !p.1.config.active {
        assert p in pending;
      }
      SweepFromIdle(s, pending[1..], env);
    }
  }

  /** The stored item at a position arms alarm `n` at startup. */
  predicate Arms(item: (string, Config), n: string, env: Env)
  {
    && StartsWith(item.0, ConfigPrefix)
    && item.1.active
    && n == AlarmName(IdOfConfigKey(item.0))
    && n !in env.clearFails
  }

  /** The position of the last stored item that arms alarm `n`, or -1 when none does. */
  function LastArming(pending: seq<(string, Config)>, n: string, env: Env): (i: int)
    ensures -1 <= i < |pending|
    ensures i >= 0 ==> Arms(pending[i], n, env)
    ensures forall j :: i < j < |pending| ==> !Arms(pending[j], n, env)
    decreases |pending|
  {
    if |pending| == 0 then -1
    else if Arms(pending[|pending| - 1], n, env) then |pending| - 1
    else
      var i := LastArming(pending[..|pending| - 1], n, env);
      assert forall j :: i < j < |pending| - 1 ==> pending[..|pending| - 1][j] == pending[j];
      i
  }

  /** Seen from the front: the last item arming `n` is the last one in the tail, or
      else the head when it arms `n`. */
  lemma LastArmingCons(pending: seq<(string, Config)>, n: string, env: Env)
    requires |pending| > 0
    ensures var tail := LastArming(pending[1..], n, env);
      LastArming(pending, n, env) ==
        if tail >= 0 then tail + 1 else if Arms(pending[0], n, env) then 0 else -1
  {
    var i, tail := LastArming(pending, n, env), LastArming(pending[1..], n, env);
    if tail >= 0 {
      assert pending[1..][tail] == pending[tail + 1];
    }
  }

  /** The registry entry under `n` after startup over `pending` from `s`: the last
      arming item's rule with its validated interval, or the entry already there. */
  function StartupEntry(s: State, pending: seq<(string, Config)>, n: string, env: Env): Option<Entry>
  {
    var i := LastArming(pending, n, env);
    if i >= 0 then Some(Entry(pending[i].1, ValidatedInterval(pending[i].1))) else Get(s.registry, n)
  }

  /** Startup's visit of one item stores that item's rule under the alarm it arms and
      leaves every other entry. */
  lemma ArmItemRegistry(s: State, key: string, config: Config, env: Env)
    ensures var r := ArmItem(s, key, config, env).state;
      forall n :: Get(r.registry, n) ==
        if Arms((key, config), n, env) then Some(Entry(config, ValidatedInterval(config))) else Get(s.registry, n)
  {
  }

  /** Startup over `pending` stores, under each alarm it arms, the rule of the last
      item arming it, and keeps every other entry, older ones included. */
  lemma {:induction false} ArmStoredRegistry(s: State, pending: seq<(string, Config)>, env: Env)
    ensures var r := ArmStored(s, pending, env).state;
      forall n :: Get(r.registry, n) == StartupEntry(s, pending, n, env)
    decreases |pending|
  {
    if |pending| > 0 {
      var first := ArmItem(s, pending[0].0, pending[0].1, env).state;
      ArmItemRegistry(s, pending[0].0, pending[0].1, env);
      ArmStoredRegistry(first, pending[1..], env);
      var r := ArmStored(s, pending, env).state;
      assert r == ArmStored(first, pending[1..], env).state;
      forall n ensures Get(r.registry, n) == StartupEntry(s, pending, n, env) {
        LastArmingCons(pending, n, env);
        var tail := LastArming(pending[1..], n, env);
        if tail >= 0 {
          assert pending[1..][tail] == pending[tail + 1];
        }
      }
    }
  }

  /** Every host alarm belongs to a registered rule and has that rule's validated period. */
  predicate AlarmsAgree(s: State)
  {
    forall n :: n in s.alarms ==> Get(s.registry, n).Some? && s.alarms[n] == Get(s.registry, n).value.validatedInterval
  }

  /** Startup's visit of one item arms exactly the alarm that item names, if any. */
  lemma ArmItemAlarms(s: State, key: string, config: Config, env: Env)
    ensures var r := ArmItem(s, key, config, env).state;
      forall n :: n in r.alarms <==> n in s.alarms || Arms((key, config), n, env)
  {
  }

  lemma ArmItemAgrees(s: State, key: string, config: Config, env: Env)
    requires WellFormed(s) && AlarmsAgree(s)
    ensures var r := ArmItem(s, key, config, env).state;
      WellFormed(r) && AlarmsAgree(r)
  {
    UpdatePreservesWellFormed(s, config, IdOfConfigKey(key), env);
  }

  lemma {:induction false} ArmStoredAgrees(s: State, pending: seq<(string, Config)>, env: Env)
    requires WellFormed(s) && AlarmsAgree(s)
    ensures var r := ArmStored(s, pending, env).state;
      WellFormed(r) && AlarmsAgree(r)
    decreases |pending|
  {
    if |pending| > 0 {
      ArmItemAgrees(s, pending[0].0, pending[0].1, env);
      ArmStoredAgrees(ArmItem(s, pending[0].0, pending[0].1, env).state, pending[1..], env);
    }
  }

  /** Startup over `pending` arms the alarms already there and those the pending items name. */
  lemma {:induction false} ArmStoredAlarms(s: State, pending: seq<(string, Config)>, env: Env)
    ensures var r := ArmStored(s, pending, env).state;
      forall n :: n in r.alarms <==> n in s.alarms || exists i :: 0 <= i < |pending| && Arms(pending[i], n, env)
    decreases |pending|
  {
    if |pending| > 0 {
      var first := ArmItem(s, pending[0].0, pending[0].1, env).state;
      ArmItemAlarms(s, pending[0].0, pending[0].1, env);
      ArmStoredAlarms(first, pending[1..], env);
      var r := ArmStored(s, pending, env).state;
      assert r == ArmStored(first, pending[1..], env).state;
      forall n | n in r.alarms
        ensures n in s.alarms || exists i :: 0 <= i < |pending| && Arms(pending[i], n, env)
      {
        if n !in first.alarms {
          var i :| 0 <= i < |pending[1..]| && Arms(pending[1..][i], n, env);
          assert pending[1..][i] == pending[i + 1];
        } else if n !in s.alarms {
          assert Arms(pending[0], n, env);
        }
      }
      forall n | n in s.alarms || exists i :: 0 <= i < |pending| && Arms(pending[i], n, env)
        ensures n in r.alarms
      {
        if n !in s.alarms {
          var i :| 0 <= i < |pending| && Arms(pending[i], n, env);
          if i == 0 {
            assert n in first.alarms;
          } else {
            assert pending[1..][i - 1] == pending[i];
          }
        }
      }
    }
  }

  lemma ArmStoredArms(s: State, pending: seq<(string, Config)>, env: Env)
    requires WellFormed(s) && AlarmsAgree(s)
    ensures var r := ArmStored(s, pending, env).state;
      && WellFormed(r) && AlarmsAgree(r)
      && forall n :: n in r.alarms <==> n in s.alarms || exists i :: 0 <= i < |pending| && Arms(pending[i], n, env)
  {
    ArmStoredAgrees(s, pending, env);
    ArmStoredAlarms(s, pending, env);
  }

  /** Startup arms exactly the alarms of the active `config…` items whose clear
      succeeds, and each alarm's period is the validated interval of the rule
      registered under it; the sweep alarm is gone. Each armed alarm's entry holds
      the rule of the last item arming it; every other entry is kept. */
  lemma InitializeArmsActiveRules(s: State, storage: seq<(string, Config)>, env: Env)
    requires WellFormed(s)
    ensures var r := InitializeAlarms(s, storage, env).state;
      && WellFormed(r)
      && AlarmsAgree(r)
      && SweepAlarmName !in r.alarms
      && forall n :: n in r.alarms <==> exists i :: 0 <= i < |storage| && Arms(storage[i], n, env)
    ensures var r := InitializeAlarms(s, storage, env).state;
      forall n :: Get(r.registry, n) == StartupEntry(s, storage, n, env)
  {
    ArmStoredArms(s.(alarms := map[]), storage, env);
    ArmStoredRegistry(s.(alarms := map[]), storage, env);
  }

  /** Whatever events arrive, the state stays well-formed. */
  lemma StepPreservesWellFormed(s: State, e: Event)
    requires WellFormed(s)
    ensures WellFormed(Step(s, e).state)
  {
    match e
    case Initialize(storage, env) =>
      InitializeArmsActiveRules(s, storage, env);
    case Message(req, env) =>
      match req {
        case UpdateAlarmRequest(config, id) => UpdatePreservesWellFormed(s, config, id, env);
        case StopAlarmRequest(id) => StopPreservesWellFormed(s, id, env);
        case TestRequest(_) =>
        case OtherRequest(_) =>
      }
    case AlarmFired(name, now, env) =>
      var a := OnAlarmFire(s, name, now, env.clock);
      assert WellFormed(a.state);
      if name == SweepAlarmName {
        VerifySweepRepairs(a.state, env);
      }
    case ScriptLoaded =>
    case AlarmLost(_) =>
  }

  lemma {:induction false} RunPreservesWellFormed(s: State, evs: seq<Event>)
    requires WellFormed(s)
    ensures WellFormed(Run(s, evs).state)
    decreases |evs|
  {
    if |evs| > 0 {
      StepPreservesWellFormed(s, evs[0]);
      RunPreservesWellFormed(Step(s, evs[0]).state, evs[1..]);
    }
  }

  /** Every state the extension can reach from first loading the script is well-formed. */
  lemma ReachableWellFormed(evs: seq<Event>)
    ensures WellFormed(Run(Boot(), evs).state)
  {
    BootWellFormed();
    RunPreservesWellFormed(Boot(), evs);
  }
}
