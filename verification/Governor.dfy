/** The supervision governor (core/src/supervision/governor.ts, scheduler.ts, hibernation.ts).

A tick awaits its ports, so register, deregister and activity can happen between its steps;
each event below is one stretch of code between awaits.  Ticks do not overlap.
`acct` says which session ids are account sessions; an id keeps its flag.
*/
module Governor {
  import opened Base
  import opened Sorting
  import opened Pressure

  type Id = string
  datatype Session = Session(id: Id, account: string, backend: string, slot: int, isAccount: bool)

  datatype Action = ShedLocalModel | ShedModelContext | ShedFrontendWeight | HibernateNonAccount | TrimScrollback
  datatype ShedStep = ShedStep(action: Action, target: Option<Id>)

  const SACRIFICE_ORDER: seq<Action> :=
    [ShedLocalModel, ShedModelContext, ShedFrontendWeight, HibernateNonAccount, TrimScrollback]

  // ---- planning --------------------------------------------------------------------------------------

  // Slot order; the idle plan puts account sessions last.
  predicate Precedes(a: Session, b: Session, accountsLast: bool) {
    if accountsLast && a.isAccount != b.isAccount then b.isAccount else a.slot <= b.slot
  }

  function BySlot(accountsLast: bool): (Session, Session) -> bool { (a, b) => Precedes(a, b, accountsLast) }

  function Sort(ss: seq<Session>, accountsLast: bool): (r: seq<Session>)
    ensures forall x :: x in r <==> x in ss
  {
    SortBy(ss, BySlot(accountsLast))
  }

  // Both plans go by slot; the idle plan does so within the account sessions and within the others, which come first.
  ghost predicate InOrder(a: Session, b: Session, accountsLast: bool) {
    && (!accountsLast ==> a.slot <= b.slot)
    && (accountsLast && a.isAccount ==> b.isAccount)
    && (accountsLast && a.isAccount == b.isAccount ==> a.slot <= b.slot)
  }

  /** The order of both plans: a permutation of the sessions in slot order, and in the idle plan
      every account session after every other one. */
  lemma SortIsOrdered(ss: seq<Session>, accountsLast: bool)
    ensures multiset(Sort(ss, accountsLast)) == multiset(ss)
    ensures var r := Sort(ss, accountsLast);
      forall i, j | 0 <= i < j < |r| :: InOrder(r[i], r[j], accountsLast)
  {
    SortSorts(ss, BySlot(accountsLast));
    forall i, j | 0 <= i < j < |Sort(ss, accountsLast)|
      ensures InOrder(Sort(ss, accountsLast)[i], Sort(ss, accountsLast)[j], accountsLast)
    {
      assert BySlot(accountsLast)(Sort(ss, accountsLast)[i], Sort(ss, accountsLast)[j]);
    }
  }

  function Victims(sessions: seq<Session>, already: set<Id>): (r: seq<Session>)
    ensures forall s :: s in r <==> s in sessions && !s.isAccount && s.id !in already
  {
    if sessions == [] then []
    else
      assert sessions == [sessions[0]] + sessions[1..];
      (if !sessions[0].isAccount && sessions[0].id !in already then [sessions[0]] else []) + Victims(sessions[1..], already)
  }

  predicate Eligible(pressure: PressureState, action: Action) {
    pressure.Red? || (pressure.Amber? && (action == ShedModelContext || action == ShedFrontendWeight))
  }

  // The steps one action of the sacrifice order contributes.
  function ActionSteps(action: Action, pressure: PressureState, victims: seq<Session>, localModelResident: bool): seq<ShedStep> {
    if !Eligible(pressure, action) then []
    else match action
      case ShedLocalModel => if localModelResident then [ShedStep(action, None)] else []
      case HibernateNonAccount => Targets(victims)
      case _ => [ShedStep(action, None)]
  }

  function StepsUpTo(n: nat, pressure: PressureState, victims: seq<Session>, localModelResident: bool): seq<ShedStep>
    requires n <= |SACRIFICE_ORDER|
  {
    if n == 0 then []
    else StepsUpTo(n - 1, pressure, victims, localModelResident) + ActionSteps(SACRIFICE_ORDER[n - 1], pressure, victims, localModelResident)
  }

  predicate Passes(sessions: seq<Session>, step: ShedStep) {
    step.target.None? || !NamesAccount(sessions, step.target.value)
  }

  // The final guard: no step whose target is an account session.
  function Guarded(steps: seq<ShedStep>, sessions: seq<Session>): (r: seq<ShedStep>)
    ensures forall step :: step in r <==> step in steps && Passes(sessions, step)
  {
    if steps == [] then []
    else
      var n := |steps| - 1;
      assert steps == steps[..n] + [steps[n]];
      Guarded(steps[..n], sessions) + (if Passes(sessions, steps[n]) then [steps[n]] else [])
  }

  function ShedPlan(pressure: PressureState, sessions: seq<Session>, localModelResident: bool, already: set<Id>): seq<ShedStep> {
    if pressure.Normal? then []
    else Guarded(StepsUpTo(5, pressure, Sort(Victims(sessions, already), false), localModelResident), sessions)
  }

  lemma StepsFromNone(pressure: PressureState, victims: seq<Session>, localModelResident: bool)
    ensures StepsUpTo(0, pressure, victims, localModelResident) == []
  {
  }

  lemma StepsOneMore(i: nat, pressure: PressureState, victims: seq<Session>, localModelResident: bool)
    requires i < |SACRIFICE_ORDER|
    ensures StepsUpTo(i + 1, pressure, victims, localModelResident)
      == StepsUpTo(i, pressure, victims, localModelResident) + ActionSteps(SACRIFICE_ORDER[i], pressure, victims, localModelResident)
  {
    hide ActionSteps;
  }

  /** planShed as its two loops. */
  method PlanShed(pressure: PressureState, sessions: seq<Session>, localModelResident: bool, already: set<Id>)
      returns (plan: seq<ShedStep>)
    ensures plan == ShedPlan(pressure, sessions, localModelResident, already)
  {
    hide StepsUpTo, ActionSteps, Sort, Victims, Guarded;
    if pressure.Normal? {
      return [];
    }
    var victims := Sort(Victims(sessions, already), false);
    var steps: seq<ShedStep> := [];
    var i := 0;
    StepsFromNone(pressure, victims, localModelResident);
    while i < |SACRIFICE_ORDER|
      invariant 0 <= i <= |SACRIFICE_ORDER|
      invariant steps == StepsUpTo(i, pressure, victims, localModelResident)
    {
      StepsOneMore(i, pressure, victims, localModelResident);
      steps := steps + ActionSteps(SACRIFICE_ORDER[i], pressure, victims, localModelResident);
      i := i + 1;
    }
    plan := ApplyGuard(steps, sessions);
  }

  method ApplyGuard(steps: seq<ShedStep>, sessions: seq<Session>) returns (plan: seq<ShedStep>)
    ensures plan == Guarded(steps, sessions)
  {
    plan := [];
    var k := 0;
    while k < |steps|
      invariant 0 <= k <= |steps|
      invariant plan == Guarded(steps[..k], sessions)
    {
      assert steps[..k + 1][..k] == steps[..k];
      if Passes(sessions, steps[k]) {
        plan := plan + [steps[k]];
      }
      k := k + 1;
    }
    assert steps[..k] == steps;
  }

  lemma {:induction false} StepsTargets(n: nat, pressure: PressureState, victims: seq<Session>, resident: bool, id: Id)
    requires n <= |SACRIFICE_ORDER|
    ensures (forall step <- StepsUpTo(n, pressure, victims, resident) :: step.target == Some(id) ==> step.action == HibernateNonAccount)
    ensures ShedStep(HibernateNonAccount, Some(id)) in StepsUpTo(n, pressure, victims, resident)
      <==> n > 3 && pressure.Red? && exists s <- victims :: s.id == id
  {
    if n > 0 {
      StepsTargets(n - 1, pressure, victims, resident, id);
      assert SACRIFICE_ORDER[n - 1] == HibernateNonAccount <==> n == 4;
    }
  }

  /** Who a shed plan hibernates: at red exactly the live non-account sessions that are not
      hibernated yet, below red nobody. */
  lemma ShedPlanTargets(pressure: PressureState, sessions: seq<Session>, resident: bool, already: set<Id>, id: Id)
    requires forall a, b | a in sessions && b in sessions && a.id == b.id :: a == b
    ensures (exists step <- ShedPlan(pressure, sessions, resident, already) :: step.target == Some(id))
      <==> pressure.Red? && exists s <- sessions :: s.id == id && !s.isAccount && id !in already
    ensures forall step <- ShedPlan(pressure, sessions, resident, already) :: step.target == Some(id) ==> step.action == HibernateNonAccount
  {
    hide StepsUpTo, Sort, Victims, Guarded;
    var victims := Sort(Victims(sessions, already), false);
    StepsTargets(5, pressure, victims, resident, id);
    var step := ShedStep(HibernateNonAccount, Some(id));
    if s :| s in sessions && s.id == id && !s.isAccount && id !in already {
      assert Passes(sessions, step);
    }
    if s :| s in victims && s.id == id {
    }
  }

  function Targets(victims: seq<Session>): (r: seq<ShedStep>)
    ensures forall step <- r :: exists s <- victims :: step == ShedStep(HibernateNonAccount, Some(s.id))
    ensures forall s <- victims :: ShedStep(HibernateNonAccount, Some(s.id)) in r
  {
    if victims == [] then []
    else
      assert victims == [victims[0]] + victims[1..];
      [ShedStep(HibernateNonAccount, Some(victims[0].id))] + Targets(victims[1..])
  }

  // The first session with this id is an account session.
  function NamesAccount(sessions: seq<Session>, id: Id): (r: bool)
    ensures r ==> exists s <- sessions :: s.id == id && s.isAccount
  {
    sessions != [] && if sessions[0].id == id then sessions[0].isAccount else NamesAccount(sessions[1..], id)
  }

  datatype Candidate = Candidate(id: Id, idleMs: int, isAccount: bool)

  function IdleMs(lastActivity: map<Id, int>, id: Id, now: int): int {
    if id !in lastActivity then 0 else if now - lastActivity[id] < 0 then 0 else now - lastActivity[id]
  }

  // planIdleHibernation; a stable sort before the filters gives the order it gives after them.
  function IdlePlan(sessions: seq<Session>, lastActivity: map<Id, int>, now: int, already: set<Id>, windowMs: int,
                    allowAccount: bool): seq<Candidate> {
    IdleCandidates(Sort(sessions, true), lastActivity, now, already, windowMs, allowAccount)
  }

  function IdleCandidates(sessions: seq<Session>, lastActivity: map<Id, int>, now: int, already: set<Id>, windowMs: int,
                          allowAccount: bool): (r: seq<Candidate>)
    ensures forall c <- r :: exists s <- sessions ::
      && c == Candidate(s.id, IdleMs(lastActivity, s.id, now), s.isAccount)
      && (s.isAccount ==> allowAccount) && s.id !in already && c.idleMs >= windowMs
    ensures forall s <- sessions | (s.isAccount ==> allowAccount) && s.id !in already && IdleMs(lastActivity, s.id, now) >= windowMs ::
      Candidate(s.id, IdleMs(lastActivity, s.id, now), s.isAccount) in r
  {
    if sessions == [] then []
    else
      assert sessions == [sessions[0]] + sessions[1..];
      var s := sessions[0];
      var c := Candidate(s.id, IdleMs(lastActivity, s.id, now), s.isAccount);
      (if (s.isAccount ==> allowAccount) && s.id !in already && c.idleMs >= windowMs then [c] else [])
        + IdleCandidates(sessions[1..], lastActivity, now, already, windowMs, allowAccount)
  }

  // ---- the machine ------------------------------------------------------------------------------------

  datatype Notice = Notice(action: Action, target: Option<Session>)

  // What the governor was told about a session's activity.
  datatype Seen = Noted(id: Id, at: int) | Forgotten(id: Id)

  // When the session was last active, after these reports.
  function LastNoted(log: seq<Seen>, id: Id): Option<int> {
    if log == [] then None
    else
      var last := log[|log| - 1];
      if last.id != id then LastNoted(log[..|log| - 1], id) else if last.Noted? then Some(last.at) else None
  }

  // An id entering the hibernated set: in which tick, at what time of that tick, after how many
  // reports the tick chose it, and whether for its idleness.
  datatype Entry = Entry(id: Id, tick: nat, now: int, planAt: nat, byIdleness: bool)

  datatype Phase =
    | Idle
    | Sampling(live: seq<Session>, now: int)
    | Shedding(live: seq<Session>, now: int, plan: seq<ShedStep>)
    | Hibernating(candidates: seq<Candidate>, now: int, planAt: nat)

  datatype Config = Config(redTicksForAccounts: nat, hasHibernatePort: bool, idleWindowMs: int, pressure: Settings)

  datatype State = State(
    sessions: map<Id, Session>,
    lastActivity: map<Id, int>,
    hibernated: set<Id>,
    lastPressure: PressureState,
    redTicks: nat,
    phase: Phase,
    log: seq<Seen>,               // every report of activity and every deregistration so far
    derived: seq<PressureState>,  // the pressure of every tick so far
    notices: seq<Notice>,
    entries: seq<Entry>)

  datatype Event =
    | Register(session: Session)
    | Deregister(id: Id)
    | NoteActivity(id: Id, at: int)
    | TickStart(live: seq<Session>, now: int)
    | Sample(reading: Option<Reading>, localModelResident: bool)
    | ShedNext(ok: bool)         // the port call of the next shed step succeeds or fails
    | PlanIdle
    | HibernateNext(ok: bool)
    | TickEnd

  // Every id keeps its account flag; a tick's snapshot lists the registered sessions once each.
  ghost predicate Enabled(acct: Id -> bool, s: State, e: Event) {
    match e
    case Register(session) => session.isAccount == acct(session.id)
    case Deregister(_) => true
    case NoteActivity(_, _) => true
    case TickStart(live, _) =>
      && s.phase.Idle?
      && (forall x <- live :: x.id in s.sessions && s.sessions[x.id] == x)
      && (forall id <- s.sessions :: s.sessions[id] in live)
    case Sample(_, _) => s.phase.Sampling?
    case ShedNext(_) => s.phase.Shedding? && s.phase.plan != []
    case PlanIdle => s.phase.Shedding? && s.phase.plan == []
    case HibernateNext(_) => s.phase.Hibernating? && s.phase.candidates != []
    case TickEnd => s.phase.Hibernating? && s.phase.candidates == []
  }

  function TargetOf(s: State, id: Id): Option<Session> {
    if id in s.sessions then Some(s.sessions[id]) else None
  }

  function Next(c: Config, acct: Id -> bool, s: State, e: Event): State
    requires Enabled(acct, s, e)
  {
    match e
    case Register(session) => s.(sessions := s.sessions[session.id := session])
    case Deregister(id) =>
      s.(sessions := s.sessions - {id}, lastActivity := s.lastActivity - {id}, hibernated := s.hibernated - {id},
         log := s.log + [Forgotten(id)])
    case NoteActivity(id, at) =>
      s.(lastActivity := s.lastActivity[id := at], hibernated := s.hibernated - {id}, log := s.log + [Noted(id, at)])
    case TickStart(live, now) => s.(phase := Sampling(live, now))
    case Sample(reading, localModelResident) =>
      var p := Evaluate(c.pressure, s.lastPressure, reading);
      s.(lastPressure := p, redTicks := if p.Red? then s.redTicks + 1 else 0, derived := s.derived + [p],
         phase := Shedding(s.phase.live, s.phase.now, ShedPlan(p, s.phase.live, localModelResident, s.hibernated)))
    case ShedNext(ok) =>
      var step := s.phase.plan[0];
      var s := s.(phase := s.phase.(plan := s.phase.plan[1..]));
      if step.action != HibernateNonAccount then s.(notices := s.notices + [Notice(step.action, None)])
      else if step.target.None? || !ok then s
      else Admit(s, step.target.value, s.phase.now, |s.log|, false, true)
    case PlanIdle =>
      var allow := c.redTicksForAccounts > 0 && s.lastPressure.Red? && s.redTicks >= c.redTicksForAccounts && c.hasHibernatePort;
      s.(phase := Hibernating(IdlePlan(s.phase.live, s.lastActivity, s.phase.now, s.hibernated, c.idleWindowMs, allow),
                              s.phase.now, |s.log|))
    case HibernateNext(ok) =>
      var cand := s.phase.candidates[0];
      var s := s.(phase := s.phase.(candidates := s.phase.candidates[1..]));
      if !ok then s else Admit(s, cand.id, s.phase.now, s.phase.planAt, true, !cand.isAccount)
    case TickEnd => s.(phase := Idle)
  }

  function Admit(s: State, id: Id, now: int, planAt: nat, byIdleness: bool, notify: bool): State {
    s.(hibernated := s.hibernated + {id},
       entries := s.entries + [Entry(id, |s.derived|, now, planAt, byIdleness)],
       notices := if notify then s.notices + [Notice(HibernateNonAccount, TargetOf(s, id))] else s.notices)
  }

  ghost predicate Runs(c: Config, acct: Id -> bool, s: State, events: seq<Event>, s': State)
    decreases |events|
  {
    if events == [] then s == s'
    else Enabled(acct, s, events[0]) && Runs(c, acct, Next(c, acct, s, events[0]), events[1..], s')
  }

  const START: State := State(map[], map[], {}, Normal, 0, Idle, [], [], [], [])

  // ---- safety -------------------------------------------------------------------------------------------

  // The last n ticks up to tick t all derived red.
  ghost predicate RedRun(derived: seq<PressureState>, t: nat, n: nat) {
    n <= t <= |derived| && forall k | t - n <= k < t :: derived[k].Red?
  }

  // When an account session may be hibernated.
  ghost predicate Allowed(c: Config, s: State, id: Id, tick: nat, now: int, planAt: nat) {
    && c.redTicksForAccounts > 0 && c.hasHibernatePort && RedRun(s.derived, tick, c.redTicksForAccounts)
    && planAt <= |s.log| && IdleFor(s.log[..planAt], id, now) >= c.idleWindowMs
  }

  // How long the session had been idle, by the reports of its activity.
  ghost function IdleFor(log: seq<Seen>, id: Id, now: int): int {
    if LastNoted(log, id).None? then 0 else Max(0, now - LastNoted(log, id).value)
  }

  // The governor remembers exactly the last report about each session.
  ghost predicate Remembers(lastActivity: map<Id, int>, log: seq<Seen>) {
    forall id :: LastNoted(log, id) == if id in lastActivity then Some(lastActivity[id]) else None
  }

  ghost predicate PhaseOk(c: Config, acct: Id -> bool, s: State) {
    match s.phase
    case Idle => true
    case Sampling(live, _) => Flagged(acct, live)
    case Shedding(live, _, plan) =>
      Flagged(acct, live) && forall step <- plan :: step.target.Some? ==> step.action == HibernateNonAccount && !acct(step.target.value)
    case Hibernating(candidates, now, planAt) =>
      forall cand <- candidates :: cand.isAccount == acct(cand.id) && (cand.isAccount ==> Allowed(c, s, cand.id, |s.derived|, now, planAt))
  }

  ghost predicate Flagged(acct: Id -> bool, live: seq<Session>) {
    && (forall x <- live :: x.isAccount == acct(x.id))
    && forall a, b | a in live && b in live && a.id == b.id :: a == b
  }

  ghost predicate Inv(c: Config, acct: Id -> bool, s: State) {
    && (forall id <- s.sessions :: s.sessions[id].id == id && s.sessions[id].isAccount == acct(id))
    && RedRun(s.derived, |s.derived|, s.redTicks) && Remembers(s.lastActivity, s.log)
    && PhaseOk(c, acct, s)
    && (forall id <- s.hibernated :: exists e <- s.entries :: e.id == id)
    && (forall e <- s.entries :: acct(e.id) ==> e.byIdleness && Allowed(c, s, e.id, e.tick, e.now, e.planAt))
    && (forall n <- s.notices :: n.action == HibernateNonAccount && n.target.Some? ==> !acct(n.target.value.id) && !n.target.value.isAccount)
  }

  lemma RedRunGrows(derived: seq<PressureState>, p: PressureState, t: nat, n: nat)
    requires RedRun(derived, t, n)
    ensures RedRun(derived + [p], t, n)
    ensures p.Red? && t == |derived| ==> RedRun(derived + [p], t + 1, n + 1)
  {
  }

  lemma RemembersMore(lastActivity: map<Id, int>, log: seq<Seen>, x: Seen)
    requires Remembers(lastActivity, log)
    ensures Remembers(if x.Noted? then lastActivity[x.id := x.at] else lastActivity - {x.id}, log + [x])
  {
    assert (log + [x])[..|log|] == log;
  }

  // What was allowed stays allowed: reports and ticks are only added.
  lemma StillAllowed(c: Config, s: State, s': State, id: Id, tick: nat, now: int, planAt: nat)
    requires Allowed(c, s, id, tick, now, planAt) && s'.derived == s.derived && s.log <= s'.log
    ensures Allowed(c, s', id, tick, now, planAt)
  {
    assert s'.log[..planAt] == s.log[..planAt];
  }

  lemma RegistryKeeps(c: Config, acct: Id -> bool, s: State, e: Event)
    requires Inv(c, acct, s) && Enabled(acct, s, e)
    requires e.Register? || e.Deregister? || e.NoteActivity? || e.TickEnd?
    ensures Inv(c, acct, Next(c, acct, s, e))
  {
    hide RedRun, Flagged, Allowed, Remembers;
    var s' := Next(c, acct, s, e);
    if e.Deregister? || e.NoteActivity? {
      RemembersMore(s.lastActivity, s.log, if e.NoteActivity? then Noted(e.id, e.at) else Forgotten(e.id));
    }
    forall x <- s.entries | acct(x.id) ensures Allowed(c, s', x.id, x.tick, x.now, x.planAt) {
      StillAllowed(c, s, s', x.id, x.tick, x.now, x.planAt);
    }
    if s.phase.Hibernating? {
      forall cand <- s.phase.candidates | cand.isAccount ensures Allowed(c, s', cand.id, |s.derived|, s.phase.now, s.phase.planAt) {
        StillAllowed(c, s, s', cand.id, |s.derived|, s.phase.now, s.phase.planAt);
      }
    }
  }

  lemma TickStartKeeps(c: Config, acct: Id -> bool, s: State, e: Event)
    requires Inv(c, acct, s) && Enabled(acct, s, e) && e.TickStart?
    ensures Inv(c, acct, Next(c, acct, s, e))
  {
    hide RedRun;
    assert Flagged(acct, e.live);
  }

  lemma SampleKeeps(c: Config, acct: Id -> bool, s: State, e: Event)
    requires Inv(c, acct, s) && Enabled(acct, s, e) && e.Sample?
    ensures Inv(c, acct, Next(c, acct, s, e))
  {
    hide RedRun, ShedPlan, Evaluate;
    var s' := Next(c, acct, s, e);
    var p := s'.lastPressure;
    RedRunGrows(s.derived, p, |s.derived|, s.redTicks);
    assert RedRun(s'.derived, |s'.derived|, 0) by { NoRun(s'.derived); }
    forall entry | entry in s.entries && acct(entry.id) ensures Allowed(c, s', entry.id, entry.tick, entry.now, entry.planAt) {
      RedRunGrows(s.derived, p, entry.tick, c.redTicksForAccounts);
    }
    forall step | step in s'.phase.plan && step.target.Some?
      ensures step.action == HibernateNonAccount && !acct(step.target.value)
    {
      ShedPlanTargets(p, s.phase.live, e.localModelResident, s.hibernated, step.target.value);
    }
  }

  lemma NoRun(derived: seq<PressureState>)
    ensures RedRun(derived, |derived|, 0)
  {
  }

  lemma RunSuffix(derived: seq<PressureState>, n: nat, m: nat)
    requires RedRun(derived, |derived|, n) && m <= n
    ensures RedRun(derived, |derived|, m)
  {
  }

  lemma ShedKeeps(c: Config, acct: Id -> bool, s: State, e: Event)
    requires Inv(c, acct, s) && Enabled(acct, s, e) && e.ShedNext?
    ensures Inv(c, acct, Next(c, acct, s, e))
  {
    hide RedRun, Flagged;
    var plan := s.phase.plan;
    assert plan[0] in plan;
    forall step | step in plan[1..] ensures step in plan { }
    AdmitKept(c, acct, s.(phase := s.phase.(plan := plan[1..])), plan[0].target.GetOr(""), s.phase.now, |s.log|, false, true);
  }

  // Admitting an id keeps the invariant when the id may be admitted that way.
  lemma AdmitKept(c: Config, acct: Id -> bool, s: State, id: Id, now: int, planAt: nat, byIdleness: bool, notify: bool)
    requires Inv(c, acct, s)
    ensures (acct(id) ==> byIdleness && !notify && Allowed(c, s, id, |s.derived|, now, planAt))
      ==> Inv(c, acct, Admit(s, id, now, planAt, byIdleness, notify))
  {
    hide RedRun, Flagged, Remembers;
    var s' := Admit(s, id, now, planAt, byIdleness, notify);
    assert Entry(id, |s.derived|, now, planAt, byIdleness) in s'.entries;
    forall x | x in s'.hibernated ensures exists e <- s'.entries :: e.id == x {
      if x in s.hibernated {
        var e :| e in s.entries && e.id == x;
        assert e in s'.entries;
      }
    }
  }

  lemma PlanIdleKeeps(c: Config, acct: Id -> bool, s: State, e: Event)
    requires Inv(c, acct, s) && Enabled(acct, s, e) && e.PlanIdle?
    ensures Inv(c, acct, Next(c, acct, s, e))
  {
    hide RedRun, IdleCandidates, Sort;
    if c.redTicksForAccounts <= s.redTicks {
      RunSuffix(s.derived, s.redTicks, c.redTicksForAccounts);
    }
    assert s.log[..|s.log|] == s.log;
    forall id ensures IdleFor(s.log, id, s.phase.now) == IdleMs(s.lastActivity, id, s.phase.now) {
      assert LastNoted(s.log, id) == if id in s.lastActivity then Some(s.lastActivity[id]) else None;
    }
  }

  lemma HibernateKeeps(c: Config, acct: Id -> bool, s: State, e: Event)
    requires Inv(c, acct, s) && Enabled(acct, s, e) && e.HibernateNext?
    ensures Inv(c, acct, Next(c, acct, s, e))
  {
    hide RedRun, Flagged;
    var cands := s.phase.candidates;
    assert cands[0] in cands;
    forall cand | cand in cands[1..] ensures cand in cands { }
    AdmitKept(c, acct, s.(phase := s.phase.(candidates := cands[1..])), cands[0].id, s.phase.now, s.phase.planAt, true, !cands[0].isAccount);
  }

  lemma StepKeepsInv(c: Config, acct: Id -> bool, s: State, e: Event)
    requires Inv(c, acct, s) && Enabled(acct, s, e)
    ensures Inv(c, acct, Next(c, acct, s, e))
  {
    hide Inv, Enabled, Next;
    match e
    case Sample(_, _) => SampleKeeps(c, acct, s, e);
    case ShedNext(_) => ShedKeeps(c, acct, s, e);
    case PlanIdle => PlanIdleKeeps(c, acct, s, e);
    case HibernateNext(_) => HibernateKeeps(c, acct, s, e);
    case TickStart(_, _) => TickStartKeeps(c, acct, s, e);
    case _ => RegistryKeeps(c, acct, s, e);
  }

  lemma {:induction false} RunKeepsInv(c: Config, acct: Id -> bool, s: State, events: seq<Event>, s': State)
    requires Inv(c, acct, s) && Runs(c, acct, s, events, s')
    ensures Inv(c, acct, s')
    decreases |events|
  {
    hide Inv, Enabled, Next;
    if events != [] {
      StepKeepsInv(c, acct, s, events[0]);
      RunKeepsInv(c, acct, Next(c, acct, s, events[0]), events[1..], s');
    }
  }

  /** Governor safety, over every run from the start and every interleaving inside a tick.
      With account hibernation off no account session is ever in the hibernated set.  With it on
      an account session in the set got there through the idle plan of a tick whose last N ticks
      all derived red, with a hibernate port, and when that plan was made the last report of its
      activity lay at least the window back.  No hibernate-non-account notice names an account session. */
  lemma AccountsAreSafe(c: Config, acct: Id -> bool, events: seq<Event>, s: State)
    requires Runs(c, acct, START, events, s)
    ensures c.redTicksForAccounts == 0 ==> forall id <- s.hibernated :: !acct(id)
    ensures forall id <- s.hibernated | acct(id) :: exists e <- s.entries :: e.id == id
    ensures forall e <- s.entries | acct(e.id) ::
      && c.redTicksForAccounts > 0 && c.hasHibernatePort && e.byIdleness && e.planAt <= |s.log|
      && (c.idleWindowMs > 0 ==>
            var last := LastNoted(s.log[..e.planAt], e.id); last.Some? && e.now - last.value >= c.idleWindowMs)
      && c.redTicksForAccounts <= e.tick <= |s.derived|
      && forall k | e.tick - c.redTicksForAccounts <= k < e.tick :: s.derived[k].Red?
    ensures forall n <- s.notices :: n.action == HibernateNonAccount && n.target.Some? ==> !n.target.value.isAccount
  {
    hide Next, Enabled;
    NoRun(START.derived);
    RunKeepsInv(c, acct, START, events, s);
  }
}
