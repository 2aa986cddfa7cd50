/**
 The background scheduler as an event handler over three pieces of state: the
 registry `configAlarms` (alarm name to saved rule plus its validated interval),
 the debounce map `lastProcessedTimes` (alarm name to the `Date.now()` of its last
 processed fire) and the host's armed alarms (name to period in minutes). Each
 handler runs to completion before the next event; every handler returns the new
 state together with the URLs it opened, in order.

 What the host would answer is part of each event: `Env` carries the wall-clock
 reading `new Date()` would give and the set of alarm names whose
 `chrome.alarms.clear` reports `runtime.lastError`.
 */
module Scheduler {
  import opened Wrappers
  import opened Text
  import opened OrderedMap
  import opened Names
  import opened Links
  import opened Schedule

  /** A registry entry: the saved rule spread together with `validatedInterval`. */
  datatype Entry = Entry(config: Config, validatedInterval: int)

  datatype State = State(
    registry: OMap<string, Entry>,
    lastProcessed: map<string, int>,
    alarms: map<string, int>)

  datatype Env = Env(clock: Clock, clearFails: set<string>)

  /** A handler's result: the next state and the URLs opened, in order. */
  datatype Outcome = Outcome(state: State, urls: seq<string>)

  const MillisPerMinute := 60000

  /** The script's top level run over the host alarms `alarms` that survive from
      an earlier run: the registry and the debounce map start empty, and the
      one-minute sweep alarm is created, replacing any alarm of that name. */
  function Loaded(alarms: map<string, int>): (s: State)
    ensures Keys(s.registry) == {} && s.lastProcessed == map[]
    ensures s.alarms.Keys == alarms.Keys + {SweepAlarmName}
    ensures s.alarms[SweepAlarmName] == 1
    ensures forall n :: n in alarms && n != SweepAlarmName ==> s.alarms[n] == alarms[n]
  {
    State([], map[], alarms[SweepAlarmName := 1])
  }

  /** The state when the script is first loaded, with no alarms armed: the sweep
      alarm is the only one. */
  function Boot(): (s: State)
    ensures Keys(s.registry) == {} && s.lastProcessed == map[]
    ensures s.alarms == map[SweepAlarmName := 1]
  {
    Loaded(map[])
  }

  /** `updateAlarm(config, configId)`: clear the rule's alarm; if the clear reports
      an error nothing else happens; otherwise re-create the alarm with the
      validated period, store the entry, and run the window check once, immediately,
      without consulting or recording the debounce time. */
  function UpdateAlarm(s: State, config: Config, id: string, env: Env): (r: Outcome)
    ensures AlarmName(id) in env.clearFails ==> r == Outcome(s, [])
    ensures AlarmName(id) !in env.clearFails ==>
      && r.state.alarms == s.alarms[AlarmName(id) := ValidatedInterval(config)]
      && Get(r.state.registry, AlarmName(id)) == Some(Entry(config, ValidatedInterval(config)))
      && (forall n :: n != AlarmName(id) ==> Get(r.state.registry, n) == Get(s.registry, n))
      && r.state.lastProcessed == s.lastProcessed
      && r.urls == CheckTimeAndOpenLink(config, env.clock)
  {
    var name := AlarmName(id);
    var minutes := ValidatedInterval(config);
    if name in env.clearFails then Outcome(s, [])
    else
      var s' := s.(alarms := s.alarms[name := minutes],
                   registry := Set(s.registry, name, Entry(config, minutes)));
      Outcome(s', CheckTimeAndOpenLink(config, env.clock))
  }

  /** `stopAlarm(configId)`: clear the rule's alarm and, only if that succeeds,
      forget its registry entry. The debounce time is kept. */
  function StopAlarm(s: State, id: string, env: Env): (r: State)
    ensures AlarmName(id) in env.clearFails ==> r == s
    ensures AlarmName(id) !in env.clearFails ==>
      && r.alarms == s.alarms - {AlarmName(id)}
      && Get(r.registry, AlarmName(id)) == None
      && (forall n :: n != AlarmName(id) ==> Get(r.registry, n) == Get(s.registry, n))
      && r.lastProcessed == s.lastProcessed
  {
    var name := AlarmName(id);
    if name in env.clearFails then s
    else s.(alarms := s.alarms - {name}, registry := Delete(s.registry, name))
  }

  /** `lastProcessedTimes.get(name) || 0`. */
  function LastProcessedOr0(s: State, name: string): (t: int)
    ensures name !in s.lastProcessed ==> t == 0
    ensures name in s.lastProcessed ==> t == s.lastProcessed[name]
  {
    if name in s.lastProcessed then s.lastProcessed[name] else 0
  }

  /** The debounce gate: the name is registered and at least its validated
      interval, in milliseconds, has passed since its last processed fire. */
  function DebounceAllows(s: State, name: string, now: int): (b: bool)
    ensures b ==> Get(s.registry, name).Some?
    ensures Get(s.registry, name).Some? ==>
      (b <==> LastProcessedOr0(s, name) + Get(s.registry, name).value.validatedInterval * MillisPerMinute <= now)
  {
    match Get(s.registry, name)
    case None => false
    case Some(e) => now - LastProcessedOr0(s, name) >= e.validatedInterval * MillisPerMinute
  }

  /** The first `onAlarm` listener: a fire at time `now` of alarm `name`. An
      unregistered name is ignored. A fire the gate lets through records `now`
      first, whatever the window check then decides; one it stops changes nothing. */
  function OnAlarmFire(s: State, name: string, now: int, clock: Clock): (r: Outcome)
    ensures r.state.registry == s.registry && r.state.alarms == s.alarms
    ensures Get(s.registry, name).None? ==> r == Outcome(s, [])
    ensures !DebounceAllows(s, name, now) ==> r == Outcome(s, [])
    ensures DebounceAllows(s, name, now) ==>
      && r.state.lastProcessed == s.lastProcessed[name := now]
      && r.urls == CheckTimeAndOpenLink(Get(s.registry, name).value.config, clock)
  {
    match Get(s.registry, name)
    case None => Outcome(s, [])
    case Some(e) =>
      if now - LastProcessedOr0(s, name) >= e.validatedInterval * MillisPerMinute then
        Outcome(s.(lastProcessed := s.lastProcessed[name := now]), CheckTimeAndOpenLink(e.config, clock))
      else Outcome(s, [])
  }

  /** The sweep's visit of one registry entry: an active rule whose alarm is
      missing goes through `updateAlarm` again, with the identifier recovered from
      its name; any other entry is left alone. */
  function RepairEntry(s: State, name: string, entry: Entry, env: Env): (r: Outcome)
    ensures r.state.lastProcessed == s.lastProcessed
    ensures s.alarms.Keys <= r.state.alarms.Keys
    ensures name in s.alarms || !entry.config.active ==> r == Outcome(s, [])
  {
    if name !in s.alarms && entry.config.active
    then UpdateAlarm(s, entry.config, IdOfAlarmName(name), env)
    else Outcome(s, [])
  }

  /** The repair sweep over the registry entries still `pending`, in registry order. */
  function SweepFrom(s: State, pending: OMap<string, Entry>, env: Env): (r: Outcome)
    ensures r.state.lastProcessed == s.lastProcessed
    ensures s.alarms.Keys <= r.state.alarms.Keys
    decreases |pending|
  {
    if |pending| == 0 then Outcome(s, [])
    else
      var first := RepairEntry(s, pending[0].0, pending[0].1, env);
      var rest := SweepFrom(first.state, pending[1..], env);
      Outcome(rest.state, first.urls + rest.urls)
  }

  /** The second `onAlarm` listener, on a `verifyAlarms` fire: the debounce map is
      untouched and no alarm is removed. */
  function VerifySweep(s: State, env: Env): (r: Outcome)
    ensures r.state.lastProcessed == s.lastProcessed
    ensures s.alarms.Keys <= r.state.alarms.Keys
  {
    SweepFrom(s, s.registry, env)
  }

  /** Startup's visit of one stored item: a `config…` key whose rule is active
      goes through `updateAlarm`, with the identifier taken from the key; any
      other item is skipped. */
  function ArmItem(s: State, key: string, config: Config, env: Env): (r: Outcome)
    ensures r.state.lastProcessed == s.lastProcessed
    ensures s.alarms.Keys <= r.state.alarms.Keys
    ensures forall n :: n in r.state.alarms && n !in s.alarms ==> StartsWith(n, AlarmPrefix)
    ensures !(StartsWith(key, ConfigPrefix) && config.active) ==> r == Outcome(s, [])
  {
    AlarmNameRoundTrip(IdOfConfigKey(key));
    if StartsWith(key, ConfigPrefix) && config.active
    then UpdateAlarm(s, config, IdOfConfigKey(key), env)
    else Outcome(s, [])
  }

  /** Startup over the stored items still `pending`, in storage order. */
  function ArmStored(s: State, pending: seq<(string, Config)>, env: Env): (r: Outcome)
    ensures r.state.lastProcessed == s.lastProcessed
    ensures s.alarms.Keys <= r.state.alarms.Keys
    ensures forall n :: n in r.state.alarms && n !in s.alarms ==> StartsWith(n, AlarmPrefix)
    decreases |pending|
  {
    if |pending| == 0 then Outcome(s, [])
    else
      var first := ArmItem(s, pending[0].0, pending[0].1, env);
      var rest := ArmStored(first.state, pending[1..], env);
      Outcome(rest.state, first.urls + rest.urls)
  }

  /** `initializeAlarms`: clear every host alarm (the sweep alarm included), then
      arm the active stored rules. The registry and the debounce map are kept. */
  function InitializeAlarms(s: State, storage: seq<(string, Config)>, env: Env): (r: Outcome)
    ensures r.state.lastProcessed == s.lastProcessed
    ensures forall n :: n in r.state.alarms ==> StartsWith(n, AlarmPrefix)
    ensures SweepAlarmName !in r.state.alarms
  {
    var r := ArmStored(s.(alarms := map[]), storage, env);
    assert forall n :: n in r.state.alarms ==> StartsWith(n, AlarmPrefix);
    assert SweepAlarmName !in r.state.alarms by {
      if SweepAlarmName in r.state.alarms {
        PrefixedIsNotSweep(SweepAlarmName);
      }
    }
    r
  }

  /** A message from the options page, by its `action`. */
  datatype Request =
    | UpdateAlarmRequest(config: Config, configId: string)
    | StopAlarmRequest(configId: string)
    | TestRequest(link: string)
    | OtherRequest(action: string)

  /** The message listener's effect, and whether it answered with
      `sendResponse({success: true})`. The answer is given synchronously, before
      any host callback has run, so it says nothing about whether a clear failed. */
  datatype Reply = Reply(outcome: Outcome, acknowledged: bool)

  /** The message listener, by action. */
  function OnMessage(s: State, req: Request, env: Env): (r: Reply)
    ensures r.acknowledged <==> !req.OtherRequest?
    ensures req.UpdateAlarmRequest? ==> r.outcome == UpdateAlarm(s, req.config, req.configId, env)
    ensures req.StopAlarmRequest? ==> r.outcome == Outcome(StopAlarm(s, req.configId, env), [])
    ensures req.TestRequest? ==> r.outcome == Outcome(s, OpenLink(req.link))
    ensures req.OtherRequest? ==> r.outcome == Outcome(s, [])
  {
    match req
    case UpdateAlarmRequest(config, id) => Reply(UpdateAlarm(s, config, id, env), true)
    case StopAlarmRequest(id) => Reply(Outcome(StopAlarm(s, id, env), []), true)
    case TestRequest(link) => Reply(Outcome(s, OpenLink(link)), true)
    case OtherRequest(_) => Reply(Outcome(s, []), false)
  }

  /** A fire of alarm `name` reaches both `onAlarm` listeners in registration
      order: the debounced rule listener, then the sweep listener. Only the fired
      alarm's debounce time can move; a rule alarm's fire touches nothing else. */
  function OnAlarm(s: State, name: string, now: int, env: Env): (r: Outcome)
    ensures r.state.lastProcessed == s.lastProcessed || r.state.lastProcessed == s.lastProcessed[name := now]
    ensures s.alarms.Keys <= r.state.alarms.Keys
    ensures name != SweepAlarmName ==> r.state.alarms == s.alarms && r.state.registry == s.registry
  {
    var a := OnAlarmFire(s, name, now, env.clock);
    var b := if name == SweepAlarmName then VerifySweep(a.state, env) else Outcome(a.state, []);
    Outcome(b.state, a.urls + b.urls)
  }

  /** The inbound events. `Initialize` stands for both `onInstalled` and `onStartup`,
      which do the same thing; `storage` is `chrome.storage.sync` in entry order.
      `ScriptLoaded` is the script's top level running again in a fresh context
      while the host's alarms survive (the extension's background page being
      restarted). `AlarmLost` is the host dropping an armed alarm on its own, the
      drift the sweep exists to repair. */
  datatype Event =
    | Initialize(storage: seq<(string, Config)>, env: Env)
    | Message(request: Request, env: Env)
    | AlarmFired(name: string, now: int, env: Env)
    | ScriptLoaded
    | AlarmLost(name: string)

  /** Dispatch one event to its listener. Only a fire can move a debounce time, and
      only its own; a fire of a rule alarm leaves the registry and the alarms alone. */
  function Step(s: State, e: Event): (r: Outcome)
    ensures || r.state.lastProcessed == s.lastProcessed
            || (e.AlarmFired? && r.state.lastProcessed == s.lastProcessed[e.name := e.now])
            || e.ScriptLoaded?
    ensures e.AlarmFired? && e.name != SweepAlarmName ==>
      r.state.registry == s.registry && r.state.alarms == s.alarms
    ensures e.ScriptLoaded? || e.AlarmLost? ==> r.urls == []
  {
    match e
    case Initialize(storage, env) => InitializeAlarms(s, storage, env)
    case Message(req, env) => OnMessage(s, req, env).outcome
    case AlarmFired(name, now, env) => OnAlarm(s, name, now, env)
    case ScriptLoaded => Outcome(Loaded(s.alarms), [])
    case AlarmLost(name) => Outcome(s.(alarms := s.alarms - {name}), [])
  }

  /** Handle `evs` one after another. A run of rule-alarm fires alone leaves the
      registry and the alarms as they were. */
  function Run(s: State, evs: seq<Event>): (r: Outcome)
    ensures |evs| == 0 ==> r == Outcome(s, [])
    ensures (forall i :: 0 <= i < |evs| ==> evs[i].AlarmFired? && evs[i].name != SweepAlarmName) ==>
      r.state.registry == s.registry && r.state.alarms == s.alarms
    decreases |evs|
  {
    if |evs| == 0 then Outcome(s, [])
    else
      var first := Step(s, evs[0]);
      var rest := Run(first.state, evs[1..]);
      Outcome(rest.state, first.urls + rest.urls)
  }
}
