/**
 Worked runs of the scheduler on concrete rules: a daytime rule activated inside
 its window, and a rule whose window crosses midnight.
 */
module Scenarios {
  import opened Wrappers
  import opened Text
  import opened OrderedMap
  import opened Names
  import opened Links
  import opened Schedule
  import opened Scheduler

  const Link := "example.com"
  const Opened := "https://example.com"

  /** Monday, 09:00 to 17:00, every 30 minutes. */
  const Daytime := Config(["1"], "09:00", "17:00", 30, "minutes", Link, true)
  /** Tuesday, 22:00 to 02:00, every 30 minutes. */
  const Overnight := Config(["2"], "22:00", "02:00", 30, "minutes", Link, true)

  /** An arbitrary `Date.now()` for Monday 10:00:00. */
  const T0 := 1_700_000_000_000

  function Monday(h: Hour, m: Minute, sec: Minute): Env
  {
    Env(Clock(1, h, m, sec), {})
  }

  lemma LinkNormalized()
    ensures NormalizeUrl(Link) == Opened
  {
    assert Link[0] == 'e';
    assert !HasScheme(Link);
  }

  lemma TimesParse()
    ensures ParseTime("09:00") == Some(540) && ParseTime("17:00") == Some(1020)
    ensures ParseTime("22:00") == Some(1320) && ParseTime("02:00") == Some(120)
  {
    assert "09:00" == FormatTime(9, 0);
    assert "17:00" == FormatTime(17, 0);
    assert "22:00" == FormatTime(22, 0);
    assert "02:00" == FormatTime(2, 0);
    ParseFormattedTime(9, 0);
    ParseFormattedTime(17, 0);
    ParseFormattedTime(22, 0);
    ParseFormattedTime(2, 0);
  }

  /** Inside its window on a Monday morning, the daytime rule opens its link. */
  lemma DaytimeOpensMondayMorning(h: Hour, m: Minute, sec: Minute)
    requires 9 <= h < 17
    ensures CheckTimeAndOpenLink(Daytime, Clock(1, h, m, sec)) == [Opened]
  {
    var clock := Clock(1, h, m, sec);
    TimesParse();
    assert MatchesWindow(Daytime, clock) by {
      assert ParseTime(Daytime.startTime) == Some(540);
      assert ParseTime(Daytime.endTime) == Some(1020);
      assert InWindow(SecondsOfDay(clock), 540 * 60, 1020 * 60);
    }
    assert DayString(1) in Daytime.days by {
      assert DayString(1) == "1" == Daytime.days[0];
    }
    LinkNormalized();
  }

  const Name := "timelessAlarm1"
  const Activate := Message(UpdateAlarmRequest(Daytime, "1"), Monday(10, 0, 0))
  const FireA := AlarmFired(Name, T0 + 1000, Monday(10, 0, 1))
  const FireB := AlarmFired(Name, T0 + 601000, Monday(10, 10, 1))
  const FireC := AlarmFired(Name, T0 + 1861000, Monday(10, 31, 1))

  /** The daytime rule is registered under `Name` with a 30-minute period. */
  predicate Registered(s: State)
  {
    Get(s.registry, Name) == Some(Entry(Daytime, 30))
  }

  /** Activating the daytime rule on Monday at 10:00 registers it and opens its link
      at once, leaving its last processed time as it was. */
  lemma ActivationOpens(s: State)
    ensures Step(s, Activate).urls == [Opened]
    ensures Registered(Step(s, Activate).state)
    ensures LastProcessedOr0(Step(s, Activate).state, Name) == LastProcessedOr0(s, Name)
  {
    assert AlarmName("1") == Name;
    assert ValidatedInterval(Daytime) == 30;
    DaytimeOpensMondayMorning(10, 0, 0);
  }

  /** A fire of a rule alarm only reaches the rule listener. */
  lemma RuleFireStep(s: State, name: string, now: int, env: Env)
    requires name != SweepAlarmName
    ensures Step(s, AlarmFired(name, now, env)) == OnAlarmFire(s, name, now, env.clock)
  {
    var a := OnAlarmFire(s, name, now, env.clock);
    assert a.urls + [] == a.urls;
  }

  /** A fire on Monday morning that the gate lets through. */
  lemma GatedFireOpens(s: State, e: Event, h: Hour, m: Minute, sec: Minute)
    requires Registered(s)
    requires e.AlarmFired? && e == AlarmFired(Name, e.now, Monday(h, m, sec)) && 9 <= h < 17
    requires e.now - LastProcessedOr0(s, Name) >= 30 * MillisPerMinute
    ensures Step(s, e).urls == [Opened]
    ensures Registered(Step(s, e).state)
    ensures LastProcessedOr0(Step(s, e).state, Name) == e.now
  {
    RuleFireStep(s, Name, e.now, e.env);
    assert DebounceAllows(s, Name, e.now);
    DaytimeOpensMondayMorning(h, m, sec);
  }

  /** A fire the gate stops. */
  lemma GatedFireSkipped(s: State, e: Event)
    requires Registered(s)
    requires e.AlarmFired? && e.name == Name
    requires e.now - LastProcessedOr0(s, Name) < 30 * MillisPerMinute
    ensures Step(s, e) == Outcome(s, [])
  {
    RuleFireStep(s, Name, e.now, e.env);
    assert !DebounceAllows(s, Name, e.now);
  }

  /** The URLs of a run are those of its first step followed by those of the rest. */
  lemma RunCons(s: State, e: Event, evs: seq<Event>)
    ensures Run(s, [e] + evs).urls == Step(s, e).urls + Run(Step(s, e).state, evs).urls
  {
    assert ([e] + evs)[1..] == evs;
  }

  /** The URLs of a four-event run are those of its steps, in order. */
  lemma RunFour(s: State, e1: Event, e2: Event, e3: Event, e4: Event)
    ensures var s1 := Step(s, e1).state;
            var s2 := Step(s1, e2).state;
            var s3 := Step(s2, e3).state;
            Run(s, [e1, e2, e3, e4]).urls
              == Step(s, e1).urls + (Step(s1, e2).urls + (Step(s2, e3).urls + Step(s3, e4).urls))
  {
    var s1 := Step(s, e1).state;
    var s2 := Step(s1, e2).state;
    var s3 := Step(s2, e3).state;
    RunCons(s3, e4, []);
    assert [e4] + [] == [e4];
    assert Step(s3, e4).urls + [] == Step(s3, e4).urls;
    RunCons(s2, e3, [e4]);
    assert [e3] + [e4] == [e3, e4];
    RunCons(s1, e2, [e3, e4]);
    assert [e2] + [e3, e4] == [e2, e3, e4];
    RunCons(s, e1, [e2, e3, e4]);
    assert [e1] + [e2, e3, e4] == [e1, e2, e3, e4];
  }

  /** A rule whose alarm has never had a processed fire (as after the script is
      loaded), activated at Monday 10:00:00, opens the link at once. The first
      periodic fire finds no recorded time and opens it again; a fire at 10:10 is
      debounced; one at 10:31 is processed. */
  lemma ActivationThenFires(s: State)
    requires LastProcessedOr0(s, Name) == 0
    ensures Run(s, [Activate, FireA, FireB, FireC]).urls == [Opened, Opened, Opened]
  {
    ActivationOpens(s);
    var s1 := Step(s, Activate).state;
    GatedFireOpens(s1, FireA, 10, 0, 1);
    var s2 := Step(s1, FireA).state;
    GatedFireSkipped(s2, FireB);
    GatedFireOpens(s2, FireC, 10, 31, 1);
    RunFour(s, Activate, FireA, FireB, FireC);
  }

  lemma OvernightWindowParsed(clock: Clock)
    ensures MatchesWindow(Overnight, clock) <==> InWindow(SecondsOfDay(clock), 1320 * 60, 120 * 60)
  {
    TimesParse();
  }

  /** The overnight rule opens on Tuesday at 23:30, but not at 01:30 the next
      morning: the time lies in the window, but the day is a Wednesday, which the
      rule does not list. */
  lemma OvernightChecksTodayOnly()
    ensures CheckTimeAndOpenLink(Overnight, Clock(2, 23, 30, 0)) == [Opened]
    ensures MatchesWindow(Overnight, Clock(3, 1, 30, 0))
    ensures CheckTimeAndOpenLink(Overnight, Clock(3, 1, 30, 0)) == []
  {
    OvernightTuesdayLate();
    OvernightWednesdayEarly();
  }

  lemma OvernightTuesdayLate()
    ensures CheckTimeAndOpenLink(Overnight, Clock(2, 23, 30, 0)) == [Opened]
  {
    var late := Clock(2, 23, 30, 0);
    OvernightWindowParsed(late);
    assert SecondsOfDay(late) == 84600;
    assert DayString(2) in Overnight.days by {
      assert DayString(2) == "2" == Overnight.days[0];
    }
    LinkNormalized();
  }

  lemma OvernightWednesdayEarly()
    ensures MatchesWindow(Overnight, Clock(3, 1, 30, 0))
    ensures CheckTimeAndOpenLink(Overnight, Clock(3, 1, 30, 0)) == []
  {
    var early := Clock(3, 1, 30, 0);
    OvernightWindowParsed(early);
    assert SecondsOfDay(early) == 5400;
    assert DayString(3) !in Overnight.days by {
      assert |Overnight.days| == 1 && DayString(3)[0] != Overnight.days[0][0];
    }
  }

  /** The gate admits a fire exactly one interval after the last processed one and
      refuses one a millisecond earlier. */
  lemma DebounceBoundary(s: State, name: string, e: Entry)
    requires Get(s.registry, name) == Some(e)
    ensures DebounceAllows(s, name, LastProcessedOr0(s, name) + e.validatedInterval * MillisPerMinute)
    ensures !DebounceAllows(s, name, LastProcessedOr0(s, name) + e.validatedInterval * MillisPerMinute - 1)
  {
  }
}
