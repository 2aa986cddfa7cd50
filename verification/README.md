# TimeLess scheduler core in Dafny

A model of the background scheduler of the TimeLess browser extension
(`TimeLess3/background.js`). The user saves up to five rules. Each rule has a set of
weekdays, a start and an end time, a check interval and a link. The scheduler arms one
periodic host alarm per active rule. On each fire it applies a debounce gate. It then
opens the rule's link when today is a listed day and the time of day lies in the
rule's window. A window may run past midnight. A one-minute `verifyAlarms` sweep
re-creates the alarms of registered rules that have gone missing.

The model is functional. The state has three parts:
- the registry `configAlarms`, a JavaScript `Map` kept in insertion order (module `OrderedMap`);
- the debounce map `lastProcessedTimes`;
- the host's armed alarms, each a name with its period in minutes.

Every event handler is a pure function from the old state to the new state plus the
URLs it opened, in order. The events are:
- startup, standing for both `onInstalled` and `onStartup`;
- an options-page message: `updateAlarm`, `stopAlarm`, `test` or any other action;
- an alarm fire, which reaches both `onAlarm` listeners in registration order;
- the script's top level running again while the host's alarms survive, as when the
  background page is restarted;
- the host dropping an armed alarm on its own, which is the drift the sweep repairs.

Host answers are event inputs: the wall-clock reading `new Date()` gives, `Date.now()`
for fires, the set of alarm names whose `chrome.alarms.clear` reports an error, and the
stored items for startup.

Modules, one concern each:
- `Wrappers`: `Option`.
- `OrderedMap`: JavaScript `Map` semantics: get, set in place or append, delete.
- `Text`: `startsWith`, `indexOf`, `replace` with a string pattern, `split(':')`, `Number` on digit strings.
- `Names`: `timelessAlarm${id}`, `config${id}`, the `verifyAlarms` name, and their round trips.
- `Links`: the URL normalisation in `openLink`.
- `Schedule`: the saved rule, interval validation, time parsing, the window test, `checkTimeAndOpenLink`.
- `Scheduler`: state, handlers, events, `Step` and `Run`.
- `Invariants`: the well-formedness invariant, idempotence, stop-then-stale-fire, the sweep's repairs, startup's arming.
- `Traces`: debounce spacing over whole runs.
- `Scenarios`: concrete runs.

Time is compared in whole seconds since midnight: `h*3600 + m*60 + s`, against the
bounds `(hh*60 + mm)*60`. `Schedule.SecondsDecideAsMinutes` proves that this decides
every comparison exactly as the source's fractional minutes do.

Behaviour worth knowing, each proved about the model:
- The debounce time is recorded as soon as the gate passes, before the window check and
  whatever its result (`Scheduler.OnAlarmFire`).
- `stopAlarm` keeps the registry entry when the clear reports an error (`Scheduler.StopAlarm`).
- Neither `updateAlarm` nor `stopAlarm` touches `lastProcessedTimes`.
- The immediate check in `updateAlarm` is not debounced and records no time. So a rule
  whose alarm has no processed fire yet (for example, one activated for the first time
  since the script was loaded), activated inside its window, opens its link at
  activation and again on the first periodic fire. Only after that does the gate hold
  fires back (`Scenarios.ActivationThenFires`). A rule re-activated within an interval
  of a processed fire is still gated by that earlier time.
- The options page is sent `{success: true}` for the three known actions before any host
  callback runs, so it is also sent when the clear then fails and nothing changes
  (`Invariants.FailedClearStillAcknowledged`).
- The sweep repairs only entries whose saved rule has `active` set.
- A repair runs the immediate check of `updateAlarm`, so each repaired rule inside its
  window opens its link at once. The debounce gate is not consulted, however recently
  the rule's alarm was processed (`Invariants.VerifySweepRepairs`).
- `initializeAlarms` clears every host alarm, the `verifyAlarms` sweep alarm included.
  It re-arms only rule alarms, so after startup no sweep alarm is armed until the
  script is loaded again (`Invariants.InitializeArmsActiveRules`).
- Loading the script again empties the registry and the debounce map but not the host's
  alarms. Any run of alarm fires after that changes nothing and opens nothing, although
  the surviving rule alarms keep firing (`Invariants.ReloadSilencesFires`). The
  debounce spacing starts afresh (`Traces.ReloadForgetsDebounce`).

## Model

| member | source | states |
|---|---|---|
| `OrderedMap.Get` | TimeLess3/background.js:90 | `Map.get` finds a value exactly when the key is present, and the pair found is stored in the map |
| `OrderedMap.Set` | TimeLess3/background.js:64-67 | `Map.set` makes the key map to the value, leaves every other key's value, keeps a present key's position, appends a new key, and keeps keys distinct |
| `OrderedMap.Position` | TimeLess3/background.js:81 | the position of a key is that of its first pair, and lies inside the map exactly when the key is present |
| `OrderedMap.Delete` | TimeLess3/background.js:81 | `Map.delete` removes the key, leaves every other key's value, and keeps keys distinct; the map is unchanged when the key is absent, and otherwise, in a duplicate-free map, exactly the key's pair is taken out with the others in their old order |
| `OrderedMap.SetPresent` | TimeLess3/background.js:64-67 | storing the value a key already holds leaves the map identical, order included |
| `OrderedMap.SetTwice` | TimeLess3/background.js:64-67 | `Map.set` is idempotent |
| `OrderedMap.GetMember` | TimeLess3/background.js:206 | in a duplicate-free map, each pair visited by `forEach` is what `get` returns for its key |
| `Text.StartsWith` | TimeLess3/background.js:16 | `startsWith` holds exactly when the prefix is no longer than the string and agrees with it character by character |
| `Text.IndexOf` | TimeLess3/background.js:17 | the index found is an occurrence of the pattern and no earlier index is one; -1 only when no occurrence exists |
| `Text.ReplaceFirst` | TimeLess3/background.js:17 | `replace` with a string pattern leaves a string without the pattern as it is, changes the length by the replacement's excess over the pattern, and on a string starting with the pattern swaps exactly that prefix |
| `Text.ReplacePrefix` | TimeLess3/background.js:17 | `replace(p, '')` on a string starting with `p` yields exactly the rest of the string |
| `Text.Split` | TimeLess3/background.js:120-121 | `split(':')` yields at least one piece, no piece contains ':', and joining the pieces with ':' restores the string |
| `Text.SplitJoin` | TimeLess3/background.js:120-121 | splitting a ':'-join of colon-free pieces returns those pieces |
| `Text.DecimalValue` | TimeLess3/background.js:120-121 | `Number` on the piece is defined exactly when every character is a decimal digit |
| `Text.TwoDigitsRoundTrip` | TimeLess3/popup.js:89 | reading back a two-digit zero-padded field gives the number |
| `Names.AlarmName` | TimeLess3/background.js:40 | `timelessAlarm${id}` starts with `timelessAlarm`, and what follows the prefix is exactly `id` |
| `Names.IdOfAlarmName` | TimeLess3/background.js:209 | `replace('timelessAlarm', '')` strips the prefix from a name that starts with it and leaves a name without it as it is |
| `Names.ConfigKey` | TimeLess3/background.js:16-17 | `config${id}` starts with `config`, and what follows the prefix is exactly `id` |
| `Names.IdOfConfigKey` | TimeLess3/background.js:17 | `replace('config', '')` strips the prefix from a key that starts with it and leaves a key without it as it is |
| `Names.AlarmNameRoundTrip` | TimeLess3/background.js:209 | stripping `timelessAlarm` from `timelessAlarm${id}` gives back `id`, for every id |
| `Names.AlarmNameOfId` | TimeLess3/background.js:209-210 | the name the sweep re-creates equals the name it found missing exactly when that name starts with `timelessAlarm` |
| `Names.AlarmNameInjective` | TimeLess3/background.js:40 | different rule ids get different alarm names |
| `Names.ConfigKeyRoundTrip` | TimeLess3/background.js:16-17 | a `config${id}` key passes the `startsWith('config')` filter and yields `id` |
| `Names.ConfigKeyOfId` | TimeLess3/background.js:16-17 | every key that passes the filter is the `config` key of the id extracted from it |
| `Names.PrefixedIsNotSweep` | TimeLess3/background.js:203-205 | no `timelessAlarm…` name equals `verifyAlarms` |
| `Links.NormalizeUrl` | TimeLess3/background.js:154-156 | the URL always starts with `http://` or `https://`; it equals the link iff the link already does; otherwise it is exactly `https://` followed by the link |
| `Links.NormalizeUrlIdempotent` | TimeLess3/background.js:154-156 | normalising twice is normalising once |
| `Links.SchemeIsCaseSensitive` | TimeLess3/background.js:154 | `HTTP://…` is not recognised and gets `https://` in front |
| `Links.OpenLink` | TimeLess3/background.js:148-156 | an empty link opens nothing; any other link opens exactly its normalised URL |
| `Schedule.NormalizeInterval` | TimeLess3/background.js:43-47 | the validated period is at least 1 and at least the requested minutes (`interval*60` for `'hours'`, else `interval`), and equals the request unless the request is below 1 |
| `Schedule.NormalizeIdempotent` | TimeLess3/background.js:43-47 | validating a validated period again, in minutes, changes nothing |
| `Schedule.HoursAreSixtyMinutes` | TimeLess3/background.js:44 | n hours validate as 60·n minutes, and as 60 times n minutes when n ≥ 1 |
| `Schedule.DayString` | TimeLess3/background.js:116 | `getDay().toString()` is one decimal digit |
| `Schedule.DayStringRoundTrip` | TimeLess3/background.js:116 | the day string reads back as its weekday, so distinct weekdays have distinct strings |
| `Schedule.ParseFormattedTime` | TimeLess3/background.js:120-123 | a time input's `HH:MM` parses to `HH*60 + MM` |
| `Schedule.ParseTime` | TimeLess3/background.js:120-123 | a time without ':' (the empty string, say) gives no number, so no window matches; a number it gives is never negative |
| `Schedule.SecondsOfDay` | TimeLess3/background.js:119 | the current time of day lies in [0, 86400) seconds |
| `Schedule.SecondsDecideAsMinutes` | TimeLess3/background.js:119-131 | the window test in whole seconds against bounds times 60 agrees with the source's fractional-minute test |
| `Schedule.InWindow` | TimeLess3/background.js:125-131 | a window whose end is before its start holds everywhere except strictly between end and start; a window with equal bounds holds only at that instant; an ordinary window holds exactly between its bounds, both included |
| `Schedule.WindowIsArc` | TimeLess3/background.js:125-131 | for times within a day, the two-branch window test is exactly the clockwise arc from start to end, both for windows that cross midnight and for those that do not |
| `Schedule.WrappedWindowEdges` | TimeLess3/background.js:126-128 | a window crossing midnight holds at its start and at its end and fails strictly between end and start |
| `Schedule.MatchesWindow` | TimeLess3/background.js:119-131 | a rule's window matches only when both its times parse; when they parse to times within a day, it matches exactly when the time of day lies on the clockwise arc from start to end |
| `Schedule.CheckTimeAndOpenLink` | TimeLess3/background.js:113-146 | a link opens iff today's day string is in `days`, both times parse and the time is in the window, and the link is non-empty; then the URL opened is exactly the normalised link |
| `Schedule.NoPreviousDayAllowance` | TimeLess3/background.js:142-145 | on a day not listed nothing opens, even inside a window that began the previous evening |
| `Scheduler.Loaded` | TimeLess3/background.js:202-203 | each run of the top level starts with an empty registry and debounce map, keeps the surviving alarms, and arms `verifyAlarms` every minute |
| `Scheduler.Boot` | TimeLess3/background.js:1-2 | on first load the registry and debounce map are empty and `verifyAlarms` is the only alarm |
| `Scheduler.LastProcessedOr0` | TimeLess3/background.js:93 | the last processed time read for the gate is the recorded time when there is one and 0 otherwise |
| `Scheduler.DebounceAllows` | TimeLess3/background.js:90-103 | the gate passes only for a registered name, and then exactly when its last processed time plus its validated interval in milliseconds is at most `now` |
| `Scheduler.UpdateAlarm` | TimeLess3/background.js:39-72 | when the clear fails nothing changes and nothing opens. Otherwise: the alarm is armed with the validated period, the entry is stored, other entries are unchanged, and the debounce map is untouched. The URLs opened are those of the immediate check, which depends on no debounce state |
| `Scheduler.StopAlarm` | TimeLess3/background.js:74-83 | when the clear fails nothing changes. Otherwise only this rule's alarm and entry go, and the debounce map is kept |
| `Scheduler.OnAlarmFire` | TimeLess3/background.js:88-111 | registry and alarms never change. A fire that is unregistered or too soon changes nothing and opens nothing. A fire the gate admits (`now - (last or 0) >= validatedInterval*60000`, equality passing) records `now` and opens what the window check opens |
| `Scheduler.RepairEntry` | TimeLess3/background.js:207-211 | visiting one entry keeps the debounce map and removes no alarm; an entry whose alarm exists or whose rule is inactive is left alone |
| `Scheduler.SweepFrom` | TimeLess3/background.js:204-214 | the sweep never touches the debounce map and never removes an alarm |
| `Scheduler.VerifySweep` | TimeLess3/background.js:204-214 | a `verifyAlarms` fire's sweep over the whole registry keeps the debounce map and removes no alarm |
| `Scheduler.ArmItem` | TimeLess3/background.js:16-19 | visiting one stored item keeps the debounce map, removes no alarm, adds only `timelessAlarm…` alarms, and skips items that are not active `config…` rules |
| `Scheduler.ArmStored` | TimeLess3/background.js:15-20 | startup's arming keeps the debounce map, removes no alarm, and adds only `timelessAlarm…` alarms |
| `Scheduler.InitializeAlarms` | TimeLess3/background.js:12-23 | startup keeps the debounce map and leaves only `timelessAlarm…` alarms; `verifyAlarms` is gone |
| `Scheduler.OnMessage` | TimeLess3/background.js:25-37 | `{success: true}` is sent exactly for `updateAlarm`, `stopAlarm` and `test`; each of those runs its handler, and any other action changes nothing and opens nothing |
| `Scheduler.OnAlarm` | TimeLess3/background.js:88-111 | a fire can move only its own alarm's debounce time, to `now`, and never removes an alarm; a fire of a rule alarm (anything but `verifyAlarms`) leaves the registry and the alarms as they were |
| `Scheduler.Step` | TimeLess3/background.js:4-215 | only an alarm fire moves a debounce time, and only its own, to `now`, unless the script is loaded again; a rule-alarm fire leaves the registry and alarms alone; a reload or a lost alarm opens nothing |
| `Scheduler.Run` | TimeLess3/background.js:1-215 | an empty run changes nothing and opens nothing; a run of rule-alarm fires alone leaves the registry and the alarms as they were |
| `Invariants.RegisteredIntervalsPositive` | TimeLess3/background.js:64-67 | in a well-formed state every registered period is at least one minute |
| `Invariants.UpdatePreservesWellFormed` | TimeLess3/background.js:39-72 | `updateAlarm` keeps registry keys distinct and prefixed, and keeps stored intervals validated |
| `Invariants.StopPreservesWellFormed` | TimeLess3/background.js:74-83 | `stopAlarm` keeps the state well-formed |
| `Invariants.SweepFireIgnoredByRuleListener` | TimeLess3/background.js:88-92 | the `verifyAlarms` fire finds no registered rule, so the rule listener changes nothing |
| `Invariants.UpdateAlarmIdempotent` | TimeLess3/background.js:51-67 | two `updateAlarm` calls with the same rule leave the same single alarm, the same entry and the same check as one |
| `Invariants.StaleFireAfterStop` | TimeLess3/background.js:81-92 | after a successful stop, a fire of the stopped alarm opens nothing and changes nothing |
| `Invariants.AcknowledgementIgnoresHost` | TimeLess3/background.js:25-37 | whether `{success: true}` is sent depends on the action alone, not on the state or on what the host reports |
| `Invariants.FailedClearStillAcknowledged` | TimeLess3/background.js:26-31 | an update or stop whose clear fails changes nothing and is still answered with `{success: true}` |
| `Invariants.FiresOnEmptyRegistry` | TimeLess3/background.js:88-92 | with no rule registered, any run of alarm fires, `verifyAlarms` included, changes nothing and opens nothing |
| `Invariants.ReloadSilencesFires` | TimeLess3/background.js:202-206 | after the script is loaded again, any run of alarm fires, `verifyAlarms` included, changes nothing and opens nothing, whatever alarms survived |
| `Invariants.RepairEntryEffect` | TimeLess3/background.js:207-210 | one repair of a registered entry keeps the state well-formed, leaves the registry as it was, and arms the name only if it needs repair, with the entry's period; it then opens what the window check opens for the entry's rule, and otherwise nothing |
| `Invariants.RepairUrlsFrame` | TimeLess3/background.js:207-210 | arming one name leaves the links the other pending rules would open unchanged |
| `Invariants.SweepFromUrls` | TimeLess3/background.js:204-214 | a sweep over distinct registered entries opens, in order, what the window check opens for each pending rule that needs repair in the starting state (`RepairUrls`), with no debounce gate |
| `Invariants.SweepFromKeeps` | TimeLess3/background.js:204-214 | a sweep over registered entries leaves the registry as it was and keeps every existing alarm with its period |
| `Invariants.SweepFromAdds` | TimeLess3/background.js:204-214 | a sweep over distinct registered entries adds exactly the alarms of the pending rules that need repair, each with its validated period |
| `Invariants.SweepFromRepairs` | TimeLess3/background.js:204-214 | over part of the registry: registry and debounce map unchanged, existing alarms keep their periods, and the alarms added are exactly the pending active registered rules whose alarm is missing and whose clear succeeds, each with its validated period; the links opened are exactly `RepairUrls` |
| `Invariants.VerifySweepRepairs` | TimeLess3/background.js:204-214 | over the whole registry: registry and debounce map unchanged, existing alarms keep their periods, the alarms added are exactly those of the active registered rules whose alarm is missing and whose clear succeeds, each with its registered period, and the links opened are the window checks of those rules, ungated |
| `Invariants.SweepConverges` | TimeLess3/background.js:206-211 | after one sweep whose clears succeed, every active registered rule has an alarm |
| `Invariants.LostAlarmRestored` | TimeLess3/background.js:204-211 | an active rule's alarm dropped by the host comes back with its registered period at the next `verifyAlarms` fire whose clear succeeds; other alarms keep their periods |
| `Invariants.SweepFromIdle` | TimeLess3/background.js:206-211 | when every active rule already has its alarm, the sweep changes nothing and opens nothing |
| `Invariants.ArmItemAlarms` | TimeLess3/background.js:16-18 | visiting one stored item arms exactly the alarm of that item when it is an active `config…` rule whose clear succeeds |
| `Invariants.ArmItemAgrees` | TimeLess3/background.js:16-18 | visiting one stored item keeps the state well-formed and every alarm's period equal to its entry's |
| `Invariants.ArmStoredAgrees` | TimeLess3/background.js:15-20 | arming the stored items keeps the state well-formed and every alarm's period equal to its entry's |
| `Invariants.ArmStoredAlarms` | TimeLess3/background.js:15-20 | arming keeps the alarms already there and adds exactly those of active `config…` items whose clear succeeds |
| `Invariants.ArmStoredArms` | TimeLess3/background.js:15-20 | arming keeps the state well-formed and every alarm matched to its entry's period, and arms exactly the alarms of active `config…` items whose clear succeeds |
| `Invariants.LastArming` | TimeLess3/background.js:15-18 | the position of the last stored item that arms a given alarm: that item arms it, no later item does, and -1 means none does |
| `Invariants.LastArmingCons` | TimeLess3/background.js:15-18 | the last arming item of a list is the last one of its tail, or else its head when the head arms the alarm |
| `Invariants.ArmItemRegistry` | TimeLess3/background.js:16-18 | visiting one stored item stores its rule, with the validated interval, under the alarm it arms and leaves every other entry |
| `Invariants.ArmStoredRegistry` | TimeLess3/background.js:15-20 | arming the stored items leaves under each armed alarm the rule of the last item arming it, and every other entry as it was |
| `Invariants.InitializeArmsActiveRules` | TimeLess3/background.js:12-23 | after startup the alarms are exactly those of the active stored rules, each with its registered period, and no sweep alarm remains; each armed alarm's entry holds the rule of the last stored item arming it with its validated interval, and every other entry is kept |
| `Invariants.StepPreservesWellFormed` | TimeLess3/background.js:4-215 | every handler keeps the state well-formed |
| `Invariants.RunPreservesWellFormed` | TimeLess3/background.js:4-215 | any run of events keeps the state well-formed |
| `Invariants.ReachableWellFormed` | TimeLess3/background.js:1-215 | every state reachable from first loading the script, through any events including later reloads, is well-formed |
| `Traces.StepLastProcessed` | TimeLess3/background.js:103-105 | within one script lifetime, only a fire that passes the gate moves an alarm's last processed time, and it moves it to that fire's `now` |
| `Traces.ReloadForgetsDebounce` | TimeLess3/background.js:86 | loading the script again forgets every last processed time |
| `Traces.DebounceSpacing` | TimeLess3/background.js:93-106 | in any run within one script lifetime, consecutive processed fires of one alarm are at least the interval then in force apart, and so is the first one from the time recorded before the run |
| `Traces.ProcessedIntervalsPositive` | TimeLess3/background.js:47 | every interval that gates a fire in a run from a well-formed state is at least one minute |
| `Traces.ProcessedFiresAMinuteApart` | TimeLess3/background.js:103-105 | from any reachable state and until the script is next loaded, processed fires of one alarm are strictly increasing and at least 60000 ms apart |
| `Scenarios.LinkNormalized` | TimeLess3/background.js:154-156 | `example.com` opens as `https://example.com` |
| `Scenarios.TimesParse` | TimeLess3/background.js:120-123 | `09:00`, `17:00`, `22:00` and `02:00` parse to 540, 1020, 1320 and 120 minutes |
| `Scenarios.DaytimeOpensMondayMorning` | TimeLess3/background.js:113-146 | a Monday 09:00–17:00 rule opens its link at any time from 09:00 until before 17:00 on a Monday |
| `Scenarios.ActivationOpens` | TimeLess3/background.js:51-70 | activating that rule at Monday 10:00, from any state, opens the link, registers a 30-minute period and leaves the debounce time as it was |
| `Scenarios.RuleFireStep` | TimeLess3/background.js:204-205 | a fire of any alarm other than `verifyAlarms` is handled by the rule listener alone |
| `Scenarios.GatedFireOpens` | TimeLess3/background.js:103-106 | a fire the gate admits inside the window opens the link and records its time |
| `Scenarios.GatedFireSkipped` | TimeLess3/background.js:107-108 | a fire the gate refuses changes nothing |
| `Scenarios.ActivationThenFires` | TimeLess3/background.js:51-111 | for a rule with no processed fire yet, activation at 10:00 and fires at 10:00:01, 10:10:01 and 10:31:01 open the link three times: at activation, at the first fire and at 10:31 |
| `Scenarios.OvernightWindowParsed` | TimeLess3/background.js:120-131 | the 22:00–02:00 rule's window is the wrapped test on 79200 and 7200 seconds |
| `Scenarios.OvernightTuesdayLate` | TimeLess3/background.js:126-145 | the Tuesday 22:00–02:00 rule opens on Tuesday at 23:30 |
| `Scenarios.OvernightWednesdayEarly` | TimeLess3/background.js:126-145 | at Wednesday 01:30 the time is in the window but nothing opens |
| `Scenarios.OvernightChecksTodayOnly` | TimeLess3/background.js:142-145 | the day test uses today only, with no allowance for a window that began the day before |
| `Scenarios.DebounceBoundary` | TimeLess3/background.js:103 | the gate admits a fire exactly one interval after the last processed one and refuses one a millisecond earlier |

## Left out

- Host plumbing is not modelled. This covers `chrome.tabs` and `chrome.windows` (creating, focusing and restoring the tab, lines 160-190), the badge (lines 193-200) and console logging. Opening a link is modelled as the URL it would open.
- Storage callbacks and `runtime.lastError` become inputs: the stored items, and the set of names whose clear fails. The `clearAll` callback does not check for errors, and the model takes every alarm as cleared.
- `Date` and time zones are not modelled. The weekday, hour, minute and second, and `Date.now()`, are event inputs and are not tied to each other.
- The first-fire delay of 0.017 minutes is left out. An armed alarm is just its name and period, and when it fires is up to the events supplied.
- Asynchronous interleaving between callbacks is not modelled; each handler is atomic. In the sweep all `alarms.get` callbacks run before any repair's clear completes. Each repair touches only its own name, so this is equivalent to the sequential fold used.
- `Schedule.NormalizeInterval`: the interval is an integer. JavaScript string-to-number coercion, `parseInt` of non-numeric text, fractional hours and `NaN` are not modelled. `Math.max(1, NaN)` is `NaN`, so the one-minute floor only holds for numeric intervals.
- `Schedule.ParseTime`: a piece made of anything but ASCII digits gives no number. JavaScript's `Number` also accepts surrounding whitespace, a sign, decimals, exponents and hexadecimal. Time inputs never produce these.
- Rules whose `days` is missing are not modelled; the source throws on them. `days` is always a sequence of strings.
- Any message field other than those of the three known actions is not modelled. A message is one of the four request shapes.
- The options page (`TimeLess3/popup.js`) is not modelled. Its saved record shapes `Schedule.Config`, and its time-input format shapes `Schedule.FormatTime`.
