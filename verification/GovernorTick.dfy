/** What one tick of the governor achieves when nothing else happens between its awaits. */
module GovernorTick {
  import opened Base
  import opened Pressure
  import opened Governor

  // `ok` says for which sessions the hibernate port succeeds in this pass of the tick.
  ghost function ShedAll(c: Config, acct: Id -> bool, s: State, ok: Id -> bool): State
    requires s.phase.Shedding?
    decreases |s.phase.plan|
  {
    if s.phase.plan == [] then s
    else ShedAll(c, acct, Next(c, acct, s, ShedNext(ok(s.phase.plan[0].target.GetOr("")))), ok)
  }

  ghost function HibernateAll(c: Config, acct: Id -> bool, s: State, ok: Id -> bool): State
    requires s.phase.Hibernating?
    decreases |s.phase.candidates|
  {
    if s.phase.candidates == [] then s
    else HibernateAll(c, acct, Next(c, acct, s, HibernateNext(ok(s.phase.candidates[0].id))), ok)
  }

  ghost function Sampled(c: Config, acct: Id -> bool, s: State, live: seq<Session>, now: int, reading: Option<Reading>, resident: bool): State
    requires Enabled(acct, s, TickStart(live, now))
  {
    Next(c, acct, Next(c, acct, s, TickStart(live, now)), Sample(reading, resident))
  }

  // What the two passes of a tick leave alone.
  ghost predicate Frame(s: State, t: State) {
    t.sessions == s.sessions && t.lastActivity == s.lastActivity && t.lastPressure == s.lastPressure
    && t.redTicks == s.redTicks && t.derived == s.derived && t.log == s.log
  }

  ghost predicate Planned(plan: seq<ShedStep>, id: Id) {
    exists k :: 0 <= k < |plan| && plan[k].action == HibernateNonAccount && plan[k].target == Some(id)
  }

  lemma {:induction false} ShedAllIs(c: Config, acct: Id -> bool, s: State, ok: Id -> bool, id: Id)
    requires s.phase.Shedding?
    ensures var t := ShedAll(c, acct, s, ok);
      && Frame(s, t) && t.phase == Shedding(s.phase.live, s.phase.now, [])
      && (id in t.hibernated <==> id in s.hibernated || (ok(id) && Planned(s.phase.plan, id)))
    decreases |s.phase.plan|
  {
    var plan := s.phase.plan;
    if plan != [] {
      var s1 := Next(c, acct, s, ShedNext(ok(plan[0].target.GetOr(""))));
      ShedAllIs(c, acct, s1, ok, id);
      PlannedHead(plan, id);
    }
  }

  lemma PlannedHead(plan: seq<ShedStep>, id: Id)
    requires plan != []
    ensures Planned(plan, id) <==> (plan[0].action == HibernateNonAccount && plan[0].target == Some(id)) || Planned(plan[1..], id)
  {
    if k :| 0 <= k < |plan[1..]| && plan[1..][k].action == HibernateNonAccount && plan[1..][k].target == Some(id) {
      assert plan[k + 1] == plan[1..][k];
    }
    if k :| 0 < k < |plan| && plan[k].action == HibernateNonAccount && plan[k].target == Some(id) {
      assert plan[1..][k - 1] == plan[k];
    }
  }

  lemma {:induction false} HibernateAllIs(c: Config, acct: Id -> bool, s: State, ok: Id -> bool, id: Id)
    requires s.phase.Hibernating?
    ensures var t := HibernateAll(c, acct, s, ok);
      && Frame(s, t) && t.phase == Hibernating([], s.phase.now, s.phase.planAt)
      && (id in t.hibernated <==> id in s.hibernated || (ok(id) && exists cand <- s.phase.candidates :: cand.id == id))
    decreases |s.phase.candidates|
  {
    var cands := s.phase.candidates;
    if cands != [] {
      HibernateAllIs(c, acct, Next(c, acct, s, HibernateNext(ok(cands[0].id))), ok, id);
      assert cands == [cands[0]] + cands[1..];
    }
  }

  // Whether the shed pass, and the idle pass, want this session hibernated, from what the tick sampled.
  ghost predicate ShedWanted(s: State, x: Session) { s.lastPressure.Red? && !x.isAccount }

  ghost predicate IdleWanted(c: Config, s: State, x: Session, now: int) {
    && IdleMs(s.lastActivity, x.id, now) >= c.idleWindowMs
    && (x.isAccount ==> c.redTicksForAccounts > 0 && s.lastPressure.Red? && s.redTicks >= c.redTicksForAccounts && c.hasHibernatePort)
  }

  lemma PlanIs(p: PressureState, live: seq<Session>, resident: bool, already: set<Id>, id: Id)
    requires forall a, b | a in live && b in live && a.id == b.id :: a == b
    ensures Planned(ShedPlan(p, live, resident, already), id) <==> p.Red? && exists x <- live :: x.id == id && !x.isAccount && id !in already
  {
    hide ShedPlan;
    var plan := ShedPlan(p, live, resident, already);
    ShedPlanTargets(p, live, resident, already, id);
    if k :| 0 <= k < |plan| && plan[k].action == HibernateNonAccount && plan[k].target == Some(id) {
      assert plan[k] in plan;
    }
    if step :| step in plan && step.target == Some(id) {
      var k :| 0 <= k < |plan| && plan[k] == step;
      assert Planned(plan, id);
    }
  }

  lemma IdlePlanIs(live: seq<Session>, lastActivity: map<Id, int>, now: int, already: set<Id>, windowMs: int, allow: bool, id: Id)
    ensures (exists cand <- IdlePlan(live, lastActivity, now, already, windowMs, allow) :: cand.id == id)
      <==> exists x <- live :: x.id == id && (x.isAccount ==> allow) && id !in already && IdleMs(lastActivity, id, now) >= windowMs
  {
    hide IdleCandidates, Sort, IdleMs;
    var sorted := Sort(live, true);
    var plan := IdleCandidates(sorted, lastActivity, now, already, windowMs, allow);
    if x :| x in live && x.id == id && (x.isAccount ==> allow) && id !in already && IdleMs(lastActivity, id, now) >= windowMs {
      assert x in sorted;
      assert Candidate(x.id, IdleMs(lastActivity, x.id, now), x.isAccount) in plan;
    }
    if cand :| cand in plan && cand.id == id {
      var x :| x in sorted && cand == Candidate(x.id, IdleMs(lastActivity, x.id, now), x.isAccount)
        && (x.isAccount ==> allow) && x.id !in already && cand.idleMs >= windowMs;
      assert x in live;
    }
  }

  ghost function Tick(c: Config, acct: Id -> bool, s: State, live: seq<Session>, now: int, reading: Option<Reading>, resident: bool,
                      shedOk: Id -> bool, idleOk: Id -> bool): State
    requires Enabled(acct, s, TickStart(live, now))
  {
    var shed := ShedAll(c, acct, Sampled(c, acct, s, live, now, reading, resident), shedOk);
    if !shed.phase.Shedding? || shed.phase.plan != [] then s
    else
      var done := HibernateAll(c, acct, Next(c, acct, shed, PlanIdle), idleOk);
      if !done.phase.Hibernating? || done.phase.candidates != [] then s else Next(c, acct, done, TickEnd)
  }

  /** A tick that nothing interrupts adds to the hibernated set exactly the sessions it wants and
      whose port call succeeds in the pass that wants them: in the shed pass at red every non-account
      session, in the idle pass at any pressure the sessions idle for the window, account sessions
      among them only past the threshold of red ticks. */
  lemma TickIsExact(c: Config, acct: Id -> bool, s: State, live: seq<Session>, now: int, reading: Option<Reading>, resident: bool,
                    shedOk: Id -> bool, idleOk: Id -> bool, id: Id)
    requires Inv(c, acct, s) && Enabled(acct, s, TickStart(live, now))
    ensures var s1 := Sampled(c, acct, s, live, now, reading, resident);
      var t := Tick(c, acct, s, live, now, reading, resident, shedOk, idleOk);
      && t.phase.Idle? && Frame(s1, t)
      && s1.lastPressure == Evaluate(c.pressure, s.lastPressure, reading)
      && (id in t.hibernated <==>
            || id in s.hibernated
            || exists x <- live :: x.id == id && ((shedOk(id) && ShedWanted(s1, x)) || (idleOk(id) && IdleWanted(c, s1, x, now))))
  {
    hide ShedAll, HibernateAll, ShedPlan, IdlePlan, Evaluate, IdleMs, Inv, Planned;
    var s1 := Sampled(c, acct, s, live, now, reading, resident);
    DistinctLive(c, acct, s, live, now);
    var shed := ShedAll(c, acct, s1, shedOk);
    ShedAllIs(c, acct, s1, shedOk, id);
    PlanIs(s1.lastPressure, live, resident, s.hibernated, id);
    var idle := Next(c, acct, shed, PlanIdle);
    HibernateAllIs(c, acct, idle, idleOk, id);
    var allow := c.redTicksForAccounts > 0 && s1.lastPressure.Red? && s1.redTicks >= c.redTicksForAccounts && c.hasHibernatePort;
    IdlePlanIs(live, s.lastActivity, now, shed.hibernated, c.idleWindowMs, allow, id);
  }

  lemma DistinctLive(c: Config, acct: Id -> bool, s: State, live: seq<Session>, now: int)
    requires Inv(c, acct, s) && Enabled(acct, s, TickStart(live, now))
    ensures forall a, b | a in live && b in live && a.id == b.id :: a == b
  {
  }

  // ---- the pressure of every tick -----------------------------------------------------------------------

  // What the probe said, tick by tick.
  ghost function Readings(events: seq<Event>): seq<Option<Reading>>
    decreases |events|
  {
    if events == [] then [] else (if events[0].Sample? then [events[0].reading] else []) + Readings(events[1..])
  }

  // The pressures are those of the monitor over the readings.
  ghost predicate Monitored(m: Settings, last: PressureState, derived: seq<PressureState>, readings: seq<Option<Reading>>) {
    && last == Run(m, Normal, readings) && |derived| == |readings|
    && forall k: nat | k < |readings| :: derived[k] == Run(m, Normal, readings[..k + 1])
  }

  // The red ticks at the end, all of them.
  ghost predicate RedAtEnd(derived: seq<PressureState>, n: nat) {
    RedRun(derived, |derived|, n) && (n < |derived| ==> !derived[|derived| - 1 - n].Red?)
  }

  ghost predicate Watched(c: Config, s: State, readings: seq<Option<Reading>>) {
    Monitored(c.pressure, s.lastPressure, s.derived, readings) && RedAtEnd(s.derived, s.redTicks)
  }

  lemma MonitoredMore(m: Settings, last: PressureState, derived: seq<PressureState>, readings: seq<Option<Reading>>, reading: Option<Reading>)
    requires Monitored(m, last, derived, readings)
    ensures var p := Evaluate(m, last, reading); Monitored(m, p, derived + [p], readings + [reading])
  {
    hide Evaluate;
    var more := readings + [reading];
    assert more[..|readings|] == readings && more[..|more|] == more;
    forall k: nat | k < |readings| ensures derived[k] == Run(m, Normal, more[..k + 1]) {
      assert more[..k + 1] == readings[..k + 1];
    }
  }

  lemma RedMore(derived: seq<PressureState>, n: nat, p: PressureState)
    requires RedAtEnd(derived, n)
    ensures RedAtEnd(derived + [p], if p.Red? then n + 1 else 0)
  {
  }

  lemma NextPressure(c: Config, acct: Id -> bool, s: State, e: Event)
    requires Enabled(acct, s, e)
    ensures var t := Next(c, acct, s, e);
      if e.Sample? then
        && t.lastPressure == Evaluate(c.pressure, s.lastPressure, e.reading) && t.derived == s.derived + [t.lastPressure]
        && t.redTicks == if t.lastPressure.Red? then s.redTicks + 1 else 0
      else t.lastPressure == s.lastPressure && t.derived == s.derived && t.redTicks == s.redTicks
  {
    hide ShedPlan, IdlePlan, Evaluate;
  }

  lemma StepWatched(c: Config, acct: Id -> bool, s: State, e: Event, readings: seq<Option<Reading>>)
    requires Watched(c, s, readings) && Enabled(acct, s, e)
    ensures Watched(c, Next(c, acct, s, e), readings + if e.Sample? then [e.reading] else [])
  {
    NextPressure(c, acct, s, e);
    hide Next, Evaluate, Enabled, Monitored, RedAtEnd;
    if e.Sample? {
      MonitoredMore(c.pressure, s.lastPressure, s.derived, readings, e.reading);
      RedMore(s.derived, s.redTicks, Evaluate(c.pressure, s.lastPressure, e.reading));
    } else {
      assert readings + [] == readings;
    }
  }

  lemma {:induction false} RunWatched(c: Config, acct: Id -> bool, s: State, events: seq<Event>, s': State, readings: seq<Option<Reading>>)
    requires Watched(c, s, readings) && Runs(c, acct, s, events, s')
    ensures Watched(c, s', readings + Readings(events))
    decreases |events|
  {
    hide Watched, Next, Enabled;
    if events == [] {
      assert readings + [] == readings;
    } else {
      var first := if events[0].Sample? then [events[0].reading] else [];
      StepWatched(c, acct, s, events[0], readings);
      RunWatched(c, acct, Next(c, acct, s, events[0]), events[1..], s', readings + first);
      assert readings + first + Readings(events[1..]) == readings + Readings(events);
    }
  }

  /** Over every run from the start: the pressure of each tick is the monitor's state after the readings up to
      that tick, and the count of red ticks is exactly the length of the red run at the end. */
  lemma PressureIsMonitored(c: Config, acct: Id -> bool, events: seq<Event>, s: State)
    requires Runs(c, acct, START, events, s)
    ensures var readings := Readings(events);
      && s.lastPressure == Run(c.pressure, Normal, readings) && |s.derived| == |readings|
      && forall k: nat | k < |readings| :: s.derived[k] == Run(c.pressure, Normal, readings[..k + 1])
    ensures s.redTicks <= |s.derived| && forall k | |s.derived| - s.redTicks <= k < |s.derived| :: s.derived[k].Red?
    ensures s.redTicks < |s.derived| ==> !s.derived[|s.derived| - s.redTicks - 1].Red?
  {
    hide Runs;
    assert Watched(c, START, []);
    RunWatched(c, acct, START, events, s, []);
    assert [] + Readings(events) == Readings(events);
  }

  // ---- what a tick announces -------------------------------------------------------------------------------

  // A lever is announced by itself; a hibernation that succeeds names its session.
  ghost function ShedNotice(step: ShedStep, sessions: map<Id, Session>, ok: Id -> bool): seq<Notice> {
    if step.action != HibernateNonAccount then [Notice(step.action, None)]
    else if step.target.None? || !ok(step.target.value) then []
    else [Notice(HibernateNonAccount, if step.target.value in sessions then Some(sessions[step.target.value]) else None)]
  }

  // So is one of the idle plan, unless the session is an account session.
  ghost function IdleNotice(cand: Candidate, sessions: map<Id, Session>, ok: Id -> bool): seq<Notice> {
    if cand.isAccount || !ok(cand.id) then []
    else [Notice(HibernateNonAccount, if cand.id in sessions then Some(sessions[cand.id]) else None)]
  }

  ghost function ShedNotices(plan: seq<ShedStep>, sessions: map<Id, Session>, ok: Id -> bool): seq<Notice> {
    if plan == [] then [] else ShedNotice(plan[0], sessions, ok) + ShedNotices(plan[1..], sessions, ok)
  }

  ghost function IdleNotices(cands: seq<Candidate>, sessions: map<Id, Session>, ok: Id -> bool): seq<Notice> {
    if cands == [] then [] else IdleNotice(cands[0], sessions, ok) + IdleNotices(cands[1..], sessions, ok)
  }

  lemma Noted(notices: seq<Notice>, one: seq<Notice>, rest: seq<Notice>)
    ensures notices + one + rest == notices + (one + rest) && notices + [] == notices
  {
  }

  lemma ShedNextNotes(c: Config, acct: Id -> bool, s: State, ok: Id -> bool)
    requires s.phase.Shedding? && s.phase.plan != []
    ensures var t := Next(c, acct, s, ShedNext(ok(s.phase.plan[0].target.GetOr(""))));
      && t.sessions == s.sessions && t.phase == s.phase.(plan := s.phase.plan[1..])
      && t.notices == s.notices + ShedNotice(s.phase.plan[0], s.sessions, ok)
  {
    Noted(s.notices, [], []);
  }

  lemma HibernateNextNotes(c: Config, acct: Id -> bool, s: State, ok: Id -> bool)
    requires s.phase.Hibernating? && s.phase.candidates != []
    ensures var t := Next(c, acct, s, HibernateNext(ok(s.phase.candidates[0].id)));
      && t.sessions == s.sessions && t.phase == s.phase.(candidates := s.phase.candidates[1..])
      && t.notices == s.notices + IdleNotice(s.phase.candidates[0], s.sessions, ok)
  {
    Noted(s.notices, [], []);
  }

  lemma {:induction false} ShedAllNotices(c: Config, acct: Id -> bool, s: State, ok: Id -> bool)
    requires s.phase.Shedding?
    ensures ShedAll(c, acct, s, ok).notices == s.notices + ShedNotices(s.phase.plan, s.sessions, ok)
    decreases |s.phase.plan|
  {
    if s.phase.plan == [] {
      Noted(s.notices, [], []);
    } else {
      ShedNextNotes(c, acct, s, ok);
      hide Next, ShedNotice;
      ShedAllNotices(c, acct, Next(c, acct, s, ShedNext(ok(s.phase.plan[0].target.GetOr("")))), ok);
      Noted(s.notices, ShedNotice(s.phase.plan[0], s.sessions, ok), ShedNotices(s.phase.plan[1..], s.sessions, ok));
    }
  }

  lemma {:induction false} HibernateAllNotices(c: Config, acct: Id -> bool, s: State, ok: Id -> bool)
    requires s.phase.Hibernating?
    ensures HibernateAll(c, acct, s, ok).notices == s.notices + IdleNotices(s.phase.candidates, s.sessions, ok)
    decreases |s.phase.candidates|
  {
    if s.phase.candidates == [] {
      Noted(s.notices, [], []);
    } else {
      HibernateNextNotes(c, acct, s, ok);
      hide Next, IdleNotice;
      HibernateAllNotices(c, acct, Next(c, acct, s, HibernateNext(ok(s.phase.candidates[0].id))), ok);
      Noted(s.notices, IdleNotice(s.phase.candidates[0], s.sessions, ok), IdleNotices(s.phase.candidates[1..], s.sessions, ok));
    }
  }

  /** A tick that nothing interrupts announces its shed plan in order, then its idle plan in order: each lever,
      and each hibernation that succeeded and is not of an account session. */
  lemma TickAnnounces(c: Config, acct: Id -> bool, s: State, live: seq<Session>, now: int, reading: Option<Reading>, resident: bool,
                      shedOk: Id -> bool, idleOk: Id -> bool)
    requires Enabled(acct, s, TickStart(live, now))
    ensures var p := Evaluate(c.pressure, s.lastPressure, reading);
      var redTicks := if p.Red? then s.redTicks + 1 else 0;
      var allow := c.redTicksForAccounts > 0 && p.Red? && redTicks >= c.redTicksForAccounts && c.hasHibernatePort;
      exists asleep: set<Id> ::
        && (forall id :: id in asleep <==> id in s.hibernated || (shedOk(id) && Planned(ShedPlan(p, live, resident, s.hibernated), id)))
        && Tick(c, acct, s, live, now, reading, resident, shedOk, idleOk).notices
          == s.notices + ShedNotices(ShedPlan(p, live, resident, s.hibernated), s.sessions, shedOk)
             + IdleNotices(IdlePlan(live, s.lastActivity, now, asleep, c.idleWindowMs, allow), s.sessions, idleOk)
  {
    hide ShedAll, HibernateAll, ShedPlan, IdlePlan, Evaluate, Planned, ShedNotices, IdleNotices;
    var s1 := Sampled(c, acct, s, live, now, reading, resident);
    var shed := ShedAll(c, acct, s1, shedOk);
    forall id ensures id in shed.hibernated <==> id in s.hibernated || (shedOk(id) && Planned(s1.phase.plan, id)) {
      ShedAllIs(c, acct, s1, shedOk, id);
    }
    ShedAllIs(c, acct, s1, shedOk, "");
    ShedAllNotices(c, acct, s1, shedOk);
    var idle := Next(c, acct, shed, PlanIdle);
    HibernateAllIs(c, acct, idle, idleOk, "");
    HibernateAllNotices(c, acct, idle, idleOk);
  }
}
