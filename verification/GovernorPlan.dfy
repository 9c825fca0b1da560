/** What a shed plan and an idle plan are, step by step and in order. */
module GovernorPlan {
  import opened Base
  import opened Sorting
  import opened Pressure
  import opened Governor

  lemma Grouped<T>(a: seq<T>, b: seq<T>, c: seq<T>)
    ensures a + b + c == a + (b + c)
  {
  }

  lemma Nothing<T>(a: seq<T>)
    ensures a + [] == a && [] + a == a
  {
  }

  // ---- the guard ----------------------------------------------------------------------------------------

  /** The session the guard finds under an id is the first one listed. */
  lemma {:induction false} NamesAccountIff(sessions: seq<Session>, id: Id)
    ensures NamesAccount(sessions, id) <==>
      exists k: nat :: k < |sessions| && sessions[k].id == id && sessions[k].isAccount && forall j: nat | j < k :: sessions[j].id != id
  {
    if sessions != [] && sessions[0].id != id {
      var rest := sessions[1..];
      NamesAccountIff(rest, id);
      if k: nat :| k < |rest| && rest[k].id == id && rest[k].isAccount && forall j: nat | j < k :: rest[j].id != id {
        assert sessions[k + 1].id == id && forall j: nat | j < k + 1 :: sessions[j].id != id;
      }
      if k: nat :| k < |sessions| && sessions[k].id == id && sessions[k].isAccount && forall j: nat | j < k :: sessions[j].id != id {
        assert rest[k - 1].id == id && forall j: nat | j < k - 1 :: rest[j].id != id;
      }
    }
  }

  lemma GuardedLast(steps: seq<ShedStep>, step: ShedStep, sessions: seq<Session>)
    ensures Guarded(steps + [step], sessions) == Guarded(steps, sessions) + if Passes(sessions, step) then [step] else []
  {
    assert (steps + [step])[..|steps|] == steps;
  }

  lemma GuardedNone(sessions: seq<Session>)
    ensures Guarded([], sessions) == []
  {
  }

  function Passing(sessions: seq<Session>): Session -> bool { (s: Session) => !NamesAccount(sessions, s.id) }
  function Open(already: set<Id>): Session -> bool { (s: Session) => !s.isAccount && s.id !in already }

  // The victims the guard lets through.
  function Spared(victims: seq<Session>, sessions: seq<Session>): seq<Session> { Where(victims, Passing(sessions)) }

  lemma TargetsFirst(x: Session, xs: seq<Session>)
    ensures Targets([x] + xs) == [ShedStep(HibernateNonAccount, Some(x.id))] + Targets(xs)
  {
    assert ([x] + xs)[1..] == xs;
  }

  lemma SparedFirst(x: Session, xs: seq<Session>, sessions: seq<Session>)
    ensures Spared([x] + xs, sessions) == if NamesAccount(sessions, x.id) then Spared(xs, sessions) else [x] + Spared(xs, sessions)
  {
    WhereFirst(x, xs, Passing(sessions));
    assert [] + Spared(xs, sessions) == Spared(xs, sessions);
  }

  lemma SparedNone(sessions: seq<Session>)
    ensures Spared([], sessions) == []
  {
  }

  // After steps the guard keeps, the targets it keeps.
  lemma {:induction false} GuardedTargets(before: seq<ShedStep>, victims: seq<Session>, sessions: seq<Session>)
    ensures Guarded(before + Targets(victims), sessions) == Guarded(before, sessions) + Targets(Spared(victims, sessions))
    decreases |victims|
  {
    hide Guarded, Targets, Spared;
    if victims == [] {
      TargetsNone();
      SparedNone(sessions);
      Nothing(before);
      Nothing(Guarded(before, sessions));
    } else {
      var (x, xs) := (victims[0], victims[1..]);
      var step := ShedStep(HibernateNonAccount, Some(x.id));
      TargetsFirst(x, xs);
      Grouped(before, [step], Targets(xs));
      GuardedTargets(before + [step], xs, sessions);
      GuardedLast(before, step, sessions);
      SparedFirst(x, xs, sessions);
      TargetsFirst(x, Spared(xs, sessions));
      Nothing(Guarded(before, sessions));
      Grouped(Guarded(before, sessions), [step], Targets(Spared(xs, sessions)));
      assert victims == [x] + xs;
    }
  }

  lemma TargetsNone()
    ensures Targets([]) == []
  {
  }

  lemma {:induction false} TargetsAre(victims: seq<Session>)
    ensures |Targets(victims)| == |victims|
    ensures forall k: nat | k < |victims| :: Targets(victims)[k] == ShedStep(HibernateNonAccount, Some(victims[k].id))
  {
    if victims != [] {
      TargetsAre(victims[1..]);
    }
  }

  lemma {:induction false} VictimsAre(sessions: seq<Session>, already: set<Id>)
    ensures Victims(sessions, already) == Where(sessions, Open(already))
  {
    if sessions != [] {
      VictimsAre(sessions[1..], already);
    }
  }

  // ---- the shed plan --------------------------------------------------------------------------------------

  const LIGHT: seq<ShedStep> := [ShedStep(ShedModelContext, None), ShedStep(ShedFrontendWeight, None)]

  lemma AmberActions(victims: seq<Session>, resident: bool)
    ensures ActionSteps(ShedLocalModel, Amber, victims, resident) == []
    ensures ActionSteps(ShedModelContext, Amber, victims, resident) == [LIGHT[0]]
    ensures ActionSteps(ShedFrontendWeight, Amber, victims, resident) == [LIGHT[1]]
    ensures ActionSteps(HibernateNonAccount, Amber, victims, resident) == []
    ensures ActionSteps(TrimScrollback, Amber, victims, resident) == []
  {
  }

  lemma RedActions(victims: seq<Session>, resident: bool)
    ensures ActionSteps(ShedLocalModel, Red, victims, resident) == if resident then [ShedStep(ShedLocalModel, None)] else []
    ensures ActionSteps(ShedModelContext, Red, victims, resident) == [LIGHT[0]]
    ensures ActionSteps(ShedFrontendWeight, Red, victims, resident) == [LIGHT[1]]
    ensures ActionSteps(HibernateNonAccount, Red, victims, resident) == Targets(victims)
    ensures ActionSteps(TrimScrollback, Red, victims, resident) == [ShedStep(TrimScrollback, None)]
  {
    hide Targets;
  }

  lemma StepsAre(pressure: PressureState, victims: seq<Session>, resident: bool)
    ensures StepsUpTo(5, pressure, victims, resident)
      == ActionSteps(ShedLocalModel, pressure, victims, resident) + ActionSteps(ShedModelContext, pressure, victims, resident)
         + ActionSteps(ShedFrontendWeight, pressure, victims, resident) + ActionSteps(HibernateNonAccount, pressure, victims, resident)
         + ActionSteps(TrimScrollback, pressure, victims, resident)
  {
    hide StepsUpTo, ActionSteps;
    StepsFromNone(pressure, victims, resident);
    StepsOneMore(0, pressure, victims, resident);
    StepsOneMore(1, pressure, victims, resident);
    StepsOneMore(2, pressure, victims, resident);
    StepsOneMore(3, pressure, victims, resident);
    StepsOneMore(4, pressure, victims, resident);
    Nothing(ActionSteps(ShedLocalModel, pressure, victims, resident));
  }

  /** Below red a plan has no targets: nothing at normal, the two light steps in this order at amber. */
  lemma PlanBelowRed(sessions: seq<Session>, resident: bool, already: set<Id>)
    ensures ShedPlan(Normal, sessions, resident, already) == []
    ensures ShedPlan(Amber, sessions, resident, already) == [ShedStep(ShedModelContext, None), ShedStep(ShedFrontendWeight, None)]
  {
    hide StepsUpTo, Guarded, ActionSteps, Sort, Victims;
    var victims := Sort(Victims(sessions, already), false);
    StepsAre(Amber, victims, resident);
    AmberActions(victims, resident);
    assert StepsUpTo(5, Amber, victims, resident) == [] + [LIGHT[0]] + [LIGHT[1]];
    GuardedNone(sessions);
    GuardedLast([], LIGHT[0], sessions);
    GuardedLast([] + [LIGHT[0]], LIGHT[1], sessions);
  }

  function InSlot(slot: int): Session -> bool { (s: Session) => s.slot == slot }

  function Doomed(sessions: seq<Session>, already: set<Id>, slot: int): Session -> bool {
    (s: Session) => s.slot == slot && !s.isAccount && s.id !in already && !NamesAccount(sessions, s.id)
  }

  // The sessions in this slot, in their order.
  ghost function AtSlot(sessions: seq<Session>, slot: int): seq<Session> {
    Where(sessions, InSlot(slot))
  }

  // Those of them that red hibernates: no account session, none hibernated already, none whose id first
  // names an account session.
  ghost function Sacrificed(sessions: seq<Session>, already: set<Id>, slot: int): seq<Session> {
    Where(sessions, Doomed(sessions, already, slot))
  }

  lemma SparedAtSlot(sessions: seq<Session>, already: set<Id>, slot: int)
    ensures AtSlot(Spared(Sort(Victims(sessions, already), false), sessions), slot) == Sacrificed(sessions, already, slot)
  {
    hide Where, Victims, SortBy;
    var victims := Victims(sessions, already);
    var both := (s: Session) => s.slot == slot && !NamesAccount(sessions, s.id);
    WhereBoth(Sort(victims, false), Passing(sessions), InSlot(slot), both);
    SortStable(victims, BySlot(false), both);
    VictimsAre(sessions, already);
    WhereBoth(sessions, Open(already), both, Doomed(sessions, already, slot));
  }

  /** The plan at red: the local model if one is resident, the two light steps, one hibernation for each
      sacrificed session in slot order (and in list order within a slot), and the scrollback last. */
  lemma PlanAtRed(sessions: seq<Session>, resident: bool, already: set<Id>) returns (order: seq<Session>)
    ensures ShedPlan(Red, sessions, resident, already)
      == (if resident then [ShedStep(ShedLocalModel, None)] else [])
         + [ShedStep(ShedModelContext, None), ShedStep(ShedFrontendWeight, None)]
         + seq(|order|, k requires 0 <= k < |order| => ShedStep(HibernateNonAccount, Some(order[k].id)))
         + [ShedStep(TrimScrollback, None)]
    ensures forall i, j | 0 <= i < j < |order| :: order[i].slot <= order[j].slot
    ensures forall slot :: AtSlot(order, slot) == Sacrificed(sessions, already, slot)
  {
    hide StepsUpTo, Guarded, Victims, Sort, Spared, Targets, AtSlot, Sacrificed;
    var victims := Sort(Victims(sessions, already), false);
    order := Spared(victims, sessions);
    RedSteps(victims, sessions, resident);
    TargetsAre(order);
    assert Targets(order) == seq(|order|, k requires 0 <= k < |order| => ShedStep(HibernateNonAccount, Some(order[k].id)));
    forall i, j | 0 <= i < j < |order| ensures order[i].slot <= order[j].slot { SparedInOrder(Victims(sessions, already), sessions, i, j); }
    forall slot ensures AtSlot(order, slot) == Sacrificed(sessions, already, slot) { SparedAtSlot(sessions, already, slot); }
  }

  lemma RedSteps(victims: seq<Session>, sessions: seq<Session>, resident: bool)
    ensures Guarded(StepsUpTo(5, Red, victims, resident), sessions)
      == (if resident then [ShedStep(ShedLocalModel, None)] else []) + [ShedStep(ShedModelContext, None), ShedStep(ShedFrontendWeight, None)]
         + Targets(Spared(victims, sessions)) + [ShedStep(TrimScrollback, None)]
  {
    hide StepsUpTo, Guarded, ActionSteps, Spared, Targets;
    var model := ShedStep(ShedLocalModel, None);
    var first := if resident then [model] else [];
    StepsAre(Red, victims, resident);
    RedActions(victims, resident);
    GuardedNone(sessions);
    GuardedLast([], model, sessions);
    assert Guarded(first, sessions) == first by { assert [] + [model] == [model]; }
    GuardedLast(first, LIGHT[0], sessions);
    GuardedLast(first + [LIGHT[0]], LIGHT[1], sessions);
    GuardedTargets(first + [LIGHT[0]] + [LIGHT[1]], victims, sessions);
    GuardedLast(first + [LIGHT[0]] + [LIGHT[1]] + Targets(victims), ShedStep(TrimScrollback, None), sessions);
    assert first + [LIGHT[0]] + [LIGHT[1]] == first + [ShedStep(ShedModelContext, None), ShedStep(ShedFrontendWeight, None)];
  }

  lemma SparedInOrder(ss: seq<Session>, sessions: seq<Session>, i: nat, j: nat)
    requires i < j < |Spared(Sort(ss, false), sessions)|
    ensures Spared(Sort(ss, false), sessions)[i].slot <= Spared(Sort(ss, false), sessions)[j].slot
  {
    SortSorts(ss, BySlot(false));
    WhereSorted(Sort(ss, false), Passing(sessions), BySlot(false));
    assert BySlot(false)(Spared(Sort(ss, false), sessions)[i], Spared(Sort(ss, false), sessions)[j]);
  }

  // ---- the idle plan --------------------------------------------------------------------------------------

  function Due(lastActivity: map<Id, int>, now: int, already: set<Id>, windowMs: int, allowAccount: bool): Session -> bool {
    (s: Session) => (s.isAccount ==> allowAccount) && s.id !in already && IdleMs(lastActivity, s.id, now) >= windowMs
  }

  function CandidateOf(lastActivity: map<Id, int>, now: int, s: Session): Candidate {
    Candidate(s.id, IdleMs(lastActivity, s.id, now), s.isAccount)
  }

  lemma CandidatesFirst(ss: seq<Session>, lastActivity: map<Id, int>, now: int, already: set<Id>, windowMs: int, allow: bool)
    requires ss != []
    ensures IdleCandidates(ss, lastActivity, now, already, windowMs, allow)
      == (if Due(lastActivity, now, already, windowMs, allow)(ss[0]) then [CandidateOf(lastActivity, now, ss[0])] else [])
         + IdleCandidates(ss[1..], lastActivity, now, already, windowMs, allow)
  {
    hide IdleMs;
  }

  ghost predicate Matches(lastActivity: map<Id, int>, now: int, due: seq<Session>, found: seq<Candidate>) {
    |found| == |due| && forall k: nat | k < |due| :: found[k] == CandidateOf(lastActivity, now, due[k])
  }

  lemma MatchesMore(lastActivity: map<Id, int>, now: int, x: Session, due: seq<Session>, found: seq<Candidate>)
    requires Matches(lastActivity, now, due, found)
    ensures Matches(lastActivity, now, [x] + due, [CandidateOf(lastActivity, now, x)] + found)
  {
    hide CandidateOf;
  }

  lemma {:induction false} CandidatesAre(ss: seq<Session>, lastActivity: map<Id, int>, now: int, already: set<Id>, windowMs: int, allow: bool)
    ensures Matches(lastActivity, now, Where(ss, Due(lastActivity, now, already, windowMs, allow)),
                    IdleCandidates(ss, lastActivity, now, already, windowMs, allow))
  {
    hide Due, CandidateOf;
    if ss != [] {
      var due := Due(lastActivity, now, already, windowMs, allow);
      var rest := IdleCandidates(ss[1..], lastActivity, now, already, windowMs, allow);
      CandidatesFirst(ss, lastActivity, now, already, windowMs, allow);
      CandidatesAre(ss[1..], lastActivity, now, already, windowMs, allow);
      hide IdleCandidates, Matches;
      MatchesMore(lastActivity, now, ss[0], Where(ss[1..], due), rest);
      Nothing(Where(ss[1..], due));
      Nothing(rest);
    }
  }

  function InGroup(isAccount: bool, slot: int): Session -> bool { (s: Session) => s.isAccount == isAccount && s.slot == slot }

  // The sessions of one kind in one slot, in their order, and those of them that are due.
  ghost function Group(ss: seq<Session>, isAccount: bool, slot: int): seq<Session> { Where(ss, InGroup(isAccount, slot)) }

  lemma DueInOrder(ss: seq<Session>, due: Session -> bool, isAccount: bool, slot: int)
    ensures Group(Where(Sort(ss, true), due), isAccount, slot) == Group(Where(ss, due), isAccount, slot)
    ensures var order := Where(Sort(ss, true), due); forall i, j | 0 <= i < j < |order| :: InOrder(order[i], order[j], true)
  {
    hide Where, SortBy;
    var both := (s: Session) => due(s) && s.isAccount == isAccount && s.slot == slot;
    WhereBoth(Sort(ss, true), due, InGroup(isAccount, slot), both);
    WhereBoth(ss, due, InGroup(isAccount, slot), both);
    SortStable(ss, BySlot(true), both);
    SortSorts(ss, BySlot(true));
    WhereSorted(Sort(ss, true), due, BySlot(true));
    var order := Where(Sort(ss, true), due);
    forall i, j | 0 <= i < j < |order| ensures InOrder(order[i], order[j], true) {
      assert BySlot(true)(order[i], order[j]);
    }
  }

  /** The idle plan, in order: one candidate with its idle time for each session that is due, the account
      sessions last, by slot within each kind and in list order within a slot. */
  lemma IdlePlanInOrder(sessions: seq<Session>, lastActivity: map<Id, int>, now: int, already: set<Id>, windowMs: int, allow: bool)
      returns (order: seq<Session>)
    ensures var plan := IdlePlan(sessions, lastActivity, now, already, windowMs, allow);
      && |plan| == |order|
      && forall k: nat | k < |plan| ::
          && plan[k].id == order[k].id && plan[k].isAccount == order[k].isAccount
          && plan[k].idleMs == if order[k].id in lastActivity then Max(0, now - lastActivity[order[k].id]) else 0
    ensures forall i, j | 0 <= i < j < |order| :: InOrder(order[i], order[j], true)
    ensures var due := Where(sessions, Due(lastActivity, now, already, windowMs, allow));
      forall isAccount, slot :: Group(order, isAccount, slot) == Group(due, isAccount, slot)
  {
    hide Where, Sort, IdleCandidates, Group;
    var due := Due(lastActivity, now, already, windowMs, allow);
    order := Where(Sort(sessions, true), due);
    CandidatesAre(Sort(sessions, true), lastActivity, now, already, windowMs, allow);
    DueInOrder(sessions, due, false, 0);
    forall isAccount, slot ensures Group(order, isAccount, slot) == Group(Where(sessions, due), isAccount, slot) {
      DueInOrder(sessions, due, isAccount, slot);
    }
  }
}
