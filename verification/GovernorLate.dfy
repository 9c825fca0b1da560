/** A hibernation that lands after its session has gone.

A tick plans its hibernations before it awaits the port, and adds the id when the port answers.
Whatever happened to the session in between is not looked at again.
*/
module GovernorLate {
  import opened Base
  import opened Sorting
  import opened Pressure
  import opened Governor
  import opened GovernorTick

  // The id an event adds to the hibernated set.
  ghost function Admitted(s: State, e: Event): Option<Id> {
    match e
    case ShedNext(ok) =>
      if s.phase.Shedding? && s.phase.plan != [] && ok && s.phase.plan[0].action == HibernateNonAccount then s.phase.plan[0].target else None
    case HibernateNext(ok) =>
      if s.phase.Hibernating? && s.phase.candidates != [] && ok then Some(s.phase.candidates[0].id) else None
    case _ => None
  }

  ghost predicate Registered(s: State) { s.hibernated <= s.sessions.Keys }

  // Every state of the run has only registered sessions in the hibernated set.
  ghost predicate Throughout(c: Config, acct: Id -> bool, s: State, events: seq<Event>)
    decreases |events|
  {
    Registered(s) && (events != [] && Enabled(acct, s, events[0]) ==> Throughout(c, acct, Next(c, acct, s, events[0]), events[1..]))
  }

  // Whenever a port call succeeds, the session it was for is still registered.
  ghost predicate AdmitsRegistered(c: Config, acct: Id -> bool, s: State, events: seq<Event>)
    decreases |events|
  {
    events != [] && Enabled(acct, s, events[0]) ==>
      && (Admitted(s, events[0]).Some? ==> Admitted(s, events[0]).value in s.sessions)
      && AdmitsRegistered(c, acct, Next(c, acct, s, events[0]), events[1..])
  }

  lemma StepRegistered(c: Config, acct: Id -> bool, s: State, e: Event)
    requires Registered(s) && Enabled(acct, s, e)
    ensures Registered(Next(c, acct, s, e)) <==> (Admitted(s, e).Some? ==> Admitted(s, e).value in s.sessions)
  {
    hide ShedPlan, IdlePlan, Evaluate;
  }

  /** Every hibernated id is registered, at every moment of a run, if and only if every session is
      registered at the moment its port call is answered. */
  lemma {:induction false} RegisteredIff(c: Config, acct: Id -> bool, s: State, events: seq<Event>, s': State)
    requires Registered(s) && Runs(c, acct, s, events, s')
    ensures Throughout(c, acct, s, events) <==> AdmitsRegistered(c, acct, s, events)
    decreases |events|
  {
    hide Enabled, Next, Registered, Admitted;
    if events != [] {
      StepRegistered(c, acct, s, events[0]);
      var next := Next(c, acct, s, events[0]);
      if Registered(next) {
        RegisteredIff(c, acct, next, events[1..], s');
      }
    }
  }

  // ---- activity --------------------------------------------------------------------------------------------

  // Whether this event's plan chooses the session.
  ghost predicate Chooses(c: Config, acct: Id -> bool, s: State, e: Event, id: Id)
    requires Enabled(acct, s, e)
  {
    var s' := Next(c, acct, s, e);
    match e
    case Sample(_, _) => Planned(s'.phase.plan, id)
    case PlanIdle => exists cand <- s'.phase.candidates :: cand.id == id
    case _ => false
  }

  // The sessions that were active since a plan last chose them.
  ghost function Woken(c: Config, acct: Id -> bool, s: State, e: Event, woken: set<Id>): set<Id>
    requires Enabled(acct, s, e)
  {
    if e.NoteActivity? then woken + {e.id} else set id | id in woken && !Chooses(c, acct, s, e, id)
  }

  // At every moment of the run no hibernated session was active since a plan last chose it.
  ghost predicate AsleepThroughout(c: Config, acct: Id -> bool, s: State, events: seq<Event>, woken: set<Id>)
    decreases |events|
  {
    s.hibernated !! woken &&
    (events != [] && Enabled(acct, s, events[0]) ==>
       AsleepThroughout(c, acct, Next(c, acct, s, events[0]), events[1..], Woken(c, acct, s, events[0], woken)))
  }

  // Whenever a port call succeeds, its session was not active since the plan that chose it.
  ghost predicate AdmitsAsleep(c: Config, acct: Id -> bool, s: State, events: seq<Event>, woken: set<Id>)
    decreases |events|
  {
    events != [] && Enabled(acct, s, events[0]) ==>
      && (Admitted(s, events[0]).Some? ==> Admitted(s, events[0]).value !in woken)
      && AdmitsAsleep(c, acct, Next(c, acct, s, events[0]), events[1..], Woken(c, acct, s, events[0], woken))
  }

  lemma StepAsleep(c: Config, acct: Id -> bool, s: State, e: Event, woken: set<Id>)
    requires s.hibernated !! woken && Enabled(acct, s, e)
    ensures Next(c, acct, s, e).hibernated !! Woken(c, acct, s, e, woken) <==>
      (Admitted(s, e).Some? ==> Admitted(s, e).value !in woken)
  {
    hide ShedPlan, IdlePlan, Evaluate, Planned;
    var s' := Next(c, acct, s, e);
    if Admitted(s, e).Some? {
      assert s'.hibernated == s.hibernated + {Admitted(s, e).value};
      assert Woken(c, acct, s, e, woken) == woken;
    } else {
      assert s'.hibernated <= s.hibernated;
      assert e.NoteActivity? ==> e.id !in s'.hibernated;
    }
  }

  /** No hibernated session was active since a plan last chose it, at every moment of a run, if and
      only if none of them was when its port call was answered. */
  lemma {:induction false} AsleepIff(c: Config, acct: Id -> bool, s: State, events: seq<Event>, s': State, woken: set<Id>)
    requires s.hibernated !! woken && Runs(c, acct, s, events, s')
    ensures AsleepThroughout(c, acct, s, events, woken) <==> AdmitsAsleep(c, acct, s, events, woken)
    decreases |events|
  {
    hide Enabled, Next, Admitted, Woken;
    if events != [] {
      StepAsleep(c, acct, s, events[0], woken);
      var next, woken' := Next(c, acct, s, events[0]), Woken(c, acct, s, events[0], woken);
      if next.hibernated !! woken' {
        AsleepIff(c, acct, next, events[1..], s', woken');
      }
    }
  }

  /** A session in the hibernated set is passed over by both plans of every tick, whatever the
      pressure and however idle it is. */
  lemma HibernatedIsPassedOver(p: PressureState, live: seq<Session>, resident: bool, lastActivity: map<Id, int>, now: int,
                               already: set<Id>, windowMs: int, allow: bool, id: Id)
    requires id in already && forall a, b | a in live && b in live && a.id == b.id :: a == b
    ensures !Planned(ShedPlan(p, live, resident, already), id)
    ensures !exists cand <- IdlePlan(live, lastActivity, now, already, windowMs, allow) :: cand.id == id
  {
    hide ShedPlan, IdlePlan, Planned;
    PlanIs(p, live, resident, already, id);
    IdlePlanIs(live, lastActivity, now, already, windowMs, allow, id);
  }

  // ---- the run --------------------------------------------------------------------------------------------

  const X: Session := Session("x", "acct", "local", 0, false)
  const IDLE: Candidate := Candidate("x", 10, false)

  // Here no session is an account session.
  ghost function NoAccounts(id: Id): bool { false }

  // After the plan of a tick that found x idle.
  ghost function IdlePlanned(): State {
    START.(sessions := map["x" := X], lastActivity := map["x" := 0], phase := Hibernating([IDLE], 10, 1), log := [Noted("x", 0)], derived := [Normal])
  }

  const PREFIX: seq<Event> := [Register(X), NoteActivity("x", 0), TickStart([X], 10), Sample(None, false), PlanIdle]

  lemma PlansX(c: Config)
    requires c.idleWindowMs == 10
    ensures Runs(c, NoAccounts, START, PREFIX, IdlePlanned())
  {
    var s1 := START.(sessions := map["x" := X]);
    var s2 := s1.(lastActivity := map["x" := 0], log := [Noted("x", 0)]);
    var s3 := s2.(phase := Sampling([X], 10));
    var s4 := s2.(phase := Shedding([X], 10, []), derived := [Normal]);
    assert Next(c, NoAccounts, START, Register(X)) == s1;
    assert Next(c, NoAccounts, s1, NoteActivity("x", 0)) == s2;
    assert X in [X];
    assert Next(c, NoAccounts, s2, TickStart([X], 10)) == s3;
    assert Next(c, NoAccounts, s3, Sample(None, false)) == s4;
    IdleX();
    assert Next(c, NoAccounts, s4, PlanIdle) == IdlePlanned();
    RunFive(c, START, s1, s2, s3, s4, IdlePlanned());
  }

  lemma IdleX()
    ensures forall allow :: IdlePlan([X], map["x" := 0], 10, {}, 10, allow) == [IDLE]
  {
    assert [X][1..] == [];
    SortOne(X, BySlot(true));
    forall allow ensures IdleCandidates([X], map["x" := 0], 10, {}, 10, allow) == [IDLE] {
      assert IdleCandidates([], map["x" := 0], 10, {}, 10, allow) == [];
    }
  }

  lemma RunFive(c: Config, s0: State, s1: State, s2: State, s3: State, s4: State, s5: State)
    requires Enabled(NoAccounts, s0, PREFIX[0]) && Next(c, NoAccounts, s0, PREFIX[0]) == s1
    requires Enabled(NoAccounts, s1, PREFIX[1]) && Next(c, NoAccounts, s1, PREFIX[1]) == s2
    requires Enabled(NoAccounts, s2, PREFIX[2]) && Next(c, NoAccounts, s2, PREFIX[2]) == s3
    requires Enabled(NoAccounts, s3, PREFIX[3]) && Next(c, NoAccounts, s3, PREFIX[3]) == s4
    requires Enabled(NoAccounts, s4, PREFIX[4]) && Next(c, NoAccounts, s4, PREFIX[4]) == s5
    ensures Runs(c, NoAccounts, s0, PREFIX, s5)
  {
    hide Enabled, Next;
    assert Runs(c, NoAccounts, s5, PREFIX[5..], s5);
    assert PREFIX[4..][1..] == PREFIX[5..] && Runs(c, NoAccounts, s4, PREFIX[4..], s5);
    assert PREFIX[3..][1..] == PREFIX[4..] && Runs(c, NoAccounts, s3, PREFIX[3..], s5);
    assert PREFIX[2..][1..] == PREFIX[3..] && Runs(c, NoAccounts, s2, PREFIX[2..], s5);
    assert PREFIX[1..][1..] == PREFIX[2..] && Runs(c, NoAccounts, s1, PREFIX[1..], s5);
    assert PREFIX[0..] == PREFIX;
  }

  /** x is planned because it was idle.  Then it is deregistered, or shows activity, while the port
      call is in flight; the call succeeds and x is in the hibernated set all the same. */
  lemma LateAdmission(c: Config, between: Event)
    requires c.idleWindowMs == 10 && (between == Deregister("x") || (between.NoteActivity? && between.id == "x"))
    ensures var s := Next(c, NoAccounts, IdlePlanned(), between);
      && Runs(c, NoAccounts, START, PREFIX, IdlePlanned()) && Enabled(NoAccounts, IdlePlanned(), between) && Enabled(NoAccounts, s, HibernateNext(true))
      && var t := Next(c, NoAccounts, s, HibernateNext(true));
         "x" in t.hibernated && (between.Deregister? ==> !Registered(t)) && (between.NoteActivity? ==> IdleMs(t.lastActivity, "x", between.at) == 0)
  {
    PlansX(c);
  }
}
