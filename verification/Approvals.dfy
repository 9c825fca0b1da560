/** The approval broker and its tool bridge (core/src/kernel/approvals.ts).

Timers, the id factory, the clock and the account registry are inputs.  `log` is the sequence of
messages fanned out, each resolution together with what it handed to the waiting caller.
Listeners do not call back.
*/
module Approvals {
  import opened Base

  type Id = string

  datatype Source = CanUseTool | HookFloor | WorkflowGate
  datatype Ttl = Default | Never | Ms(ms: int)

  datatype Input = Input(
    source: Source, summary: string, account: string, sessionId: Option<string>, toolName: Option<string>,
    toolUseId: Option<string>, runId: Option<string>, stepId: Option<string>, ttl: Ttl)

  datatype Request = Request(id: Id, input: Input, expiresAt: Option<int>)

  datatype Outcome = Allowed | Denied | Expired | Superseded
  datatype Resolution = Resolution(outcome: Outcome, updatedInput: Option<string>, note: Option<string>)
  datatype Decision = Decision(id: Id, allow: bool, updatedInput: Option<string>, note: Option<string>)

  datatype Message = Announced(request: Request) | Resolved(resolvedId: Id, resolution: Resolution)

  datatype Fault = BrokerClosed | InvalidRequest | InvalidId | BadRequest | NotPending
  datatype Reply<T> = Ok(value: T) | Refused(fault: Fault)

  datatype Config = Config(accounts: set<string>, defaultTtl: Option<int>)
  datatype State = State(pending: seq<Request>, closed: bool, log: seq<Message>)

  // ---- one call --------------------------------------------------------------------------------------

  // The per-source field matrix.
  predicate MatrixOk(c: Config, input: Input) {
    && input.summary != "" && input.account in c.accounts
    && if input.source.WorkflowGate? then input.runId.Some? && input.stepId.Some? && input.toolName.None? && input.toolUseId.None?
       else input.sessionId.Some? && input.toolName.Some? && input.runId.None? && input.stepId.None?
  }

  function NewRequest(c: Config, input: Input, id: Id, now: int): Request {
    var ttl := match input.ttl case Default => c.defaultTtl case Never => None case Ms(ms) => Some(ms);
    Request(id, input, if ttl.Some? then Some(now + ttl.value) else None)
  }

  // Which fields each source must and must not carry.
  ghost predicate Complete(c: Config, input: Input) {
    && input.summary != "" && input.account in c.accounts
    && (input.source == WorkflowGate ==> input.runId.Some? && input.stepId.Some? && input.toolName.None? && input.toolUseId.None?)
    && (input.source == CanUseTool || input.source == HookFloor ==>
          input.sessionId.Some? && input.toolName.Some? && input.runId.None? && input.stepId.None?)
  }

  ghost function Deadline(c: Config, input: Input, now: int): Option<int> {
    if input.ttl.Ms? then Some(now + input.ttl.ms)
    else if input.ttl.Default? && c.defaultTtl.Some? then Some(now + c.defaultTtl.value)
    else None
  }

  function RequestFault(c: Config, s: State, input: Input, idOk: bool): Option<Fault> {
    if s.closed then Some(BrokerClosed)
    else if !MatrixOk(c, input) then Some(InvalidRequest)
    else if !idOk then Some(InvalidId)
    else None
  }

  function DecideFault(s: State, d: Decision): Option<Fault> {
    if !d.allow && d.updatedInput.Some? then Some(BadRequest)
    else if !IsPending(s.pending, d.id) then Some(NotPending)
    else None
  }

  predicate IsPending(pending: seq<Request>, id: Id) {
    pending != [] && (pending[0].id == id || IsPending(pending[1..], id))
  }

  // A timer is armed for the pending request with this id.
  predicate IsArmed(pending: seq<Request>, id: Id) {
    pending != [] && if pending[0].id == id then pending[0].expiresAt.Some? else IsArmed(pending[1..], id)
  }

  // Map.set: an id that is present keeps its place.
  function Put(pending: seq<Request>, r: Request): seq<Request> {
    if pending == [] then [r] else if pending[0].id == r.id then [r] + pending[1..] else [pending[0]] + Put(pending[1..], r)
  }

  function Without(pending: seq<Request>, id: Id): seq<Request> {
    if pending == [] then []
    else if pending[|pending| - 1].id == id then Without(pending[..|pending| - 1], id)
    else Without(pending[..|pending| - 1], id) + [pending[|pending| - 1]]
  }

  function Announce(s: State, r: Request): State {
    s.(pending := Put(s.pending, r), log := s.log + [Announced(r)])
  }

  function Resolve(s: State, id: Id, resolution: Resolution): State {
    s.(pending := Without(s.pending, id), log := s.log + [Resolved(id, resolution)])
  }

  const EXPIRED := Resolution(Expired, None, None)
  const SUPERSEDED := Resolution(Superseded, None, None)

  function SupersedeAll(s: State, victims: seq<Request>): State {
    if victims == [] then s
    else Resolve(SupersedeAll(s, victims[..|victims| - 1]), victims[|victims| - 1].id, SUPERSEDED)
  }

  function OfSession(pending: seq<Request>, session: string): seq<Request> {
    if pending == [] then []
    else
      var r := pending[|pending| - 1];
      OfSession(pending[..|pending| - 1], session) + if r.input.sessionId == Some(session) then [r] else []
  }

  function Verdict(d: Decision): Resolution {
    Resolution(if d.allow then Allowed else Denied, d.updatedInput, d.note)
  }

  datatype Call =
    | Ask(input: Input, id: Id, idOk: bool, now: int)
    | Decide(decision: Decision)
    | Expire(id: Id)             // the timer fires, if one was armed and not cleared
    | Supersede(id: Id)
    | EndSession(session: string)
    | Close

  function Apply(c: Config, s: State, call: Call): State {
    match call
    case Ask(input, id, idOk, now) =>
      if RequestFault(c, s, input, idOk).Some? then s else Announce(s, NewRequest(c, input, id, now))
    case Decide(d) => if DecideFault(s, d).Some? then s else Resolve(s, d.id, Verdict(d))
    case Expire(id) => if IsArmed(s.pending, id) then Resolve(s, id, EXPIRED) else s
    case Supersede(id) => if IsPending(s.pending, id) then Resolve(s, id, SUPERSEDED) else s
    case EndSession(session) => SupersedeAll(s, OfSession(s.pending, session))
    case Close => if s.closed then s else SupersedeAll(s.(closed := true), s.pending)
  }

  // ---- the broker --------------------------------------------------------------------------------------

  class ApprovalBroker {
    const config: Config
    var pending: seq<Request>
    var closed: bool
    ghost var log: seq<Message>

    ghost function Abs(): State reads this { State(pending, closed, log) }

    constructor (config: Config)
      ensures this.config == config && Abs() == State([], false, [])
    {
      this.config := config;
      pending, closed, log := [], false, [];
    }

    method ResolveEntry(id: Id, resolution: Resolution)
      modifies this
      ensures Abs() == Resolve(old(Abs()), id, resolution)
    {
      pending := Without(pending, id);
      log := log + [Resolved(id, resolution)];
    }

    method Ask(input: Input, id: Id, idOk: bool, now: int) returns (reply: Reply<Request>)
      modifies this
      ensures Abs() == Apply(config, old(Abs()), Call.Ask(input, id, idOk, now))
      ensures reply == (if old(closed) then Refused(BrokerClosed)
                        else if !Complete(config, input) then Refused(InvalidRequest)
                        else if !idOk then Refused(InvalidId)
                        else Ok(Request(id, input, Deadline(config, input, now))))
    {
      if closed {
        return Refused(BrokerClosed);
      }
      if !MatrixOk(config, input) {
        return Refused(InvalidRequest);
      }
      if !idOk {
        return Refused(InvalidId);
      }
      var request := NewRequest(config, input, id, now);
      pending := Put(pending, request);
      log := log + [Announced(request)];
      return Ok(request);
    }

    method Decide(d: Decision) returns (reply: Reply<Outcome>)
      modifies this
      ensures Abs() == Apply(config, old(Abs()), Call.Decide(d))
      ensures reply == (if !d.allow && d.updatedInput.Some? then Refused(BadRequest)
                        else if !exists r <- old(pending) :: r.id == d.id then Refused(NotPending)
                        else Ok(if d.allow then Allowed else Denied))
    {
      PendingHas(pending, d.id);
      if !d.allow && d.updatedInput.Some? {
        return Refused(BadRequest);
      }
      if !IsPending(pending, d.id) {
        return Refused(NotPending);
      }
      ResolveEntry(d.id, Verdict(d));
      return Ok(if d.allow then Allowed else Denied);
    }

    method FireTimer(id: Id)
      modifies this
      ensures Abs() == Apply(config, old(Abs()), Expire(id))
    {
      if IsArmed(pending, id) {
        ResolveEntry(id, EXPIRED);
      }
    }

    method Supersede(id: Id) returns (found: bool)
      modifies this
      ensures Abs() == Apply(config, old(Abs()), Call.Supersede(id))
      ensures found <==> exists r <- old(pending) :: r.id == id
    {
      PendingHas(pending, id);
      found := IsPending(pending, id);
      if found {
        ResolveEntry(id, SUPERSEDED);
      }
    }

    method SupersedeSession(session: string) returns (count: nat)
      modifies this
      ensures Abs() == Apply(config, old(Abs()), EndSession(session))
      ensures count == |OfSession(old(pending), session)|
    {
      hide Without;
      var snapshot := pending;
      count := 0;
      var i := 0;
      while i < |snapshot|
        invariant 0 <= i <= |snapshot|
        invariant Abs() == SupersedeAll(old(Abs()), OfSession(snapshot[..i], session))
        invariant count == |OfSession(snapshot[..i], session)|
      {
        ghost var done := OfSession(snapshot[..i], session);
        assert snapshot[..i + 1][..i] == snapshot[..i];
        if snapshot[i].input.sessionId == Some(session) {
          assert (done + [snapshot[i]])[..|done|] == done;
          ResolveEntry(snapshot[i].id, SUPERSEDED);
          count := count + 1;
        } else {
          assert done + [] == done;
        }
        i := i + 1;
      }
      assert snapshot[..i] == snapshot;
    }

    method Close()
      modifies this
      ensures Abs() == Apply(config, old(Abs()), Call.Close)
    {
      if closed {
        return;
      }
      closed := true;
      ghost var start := Abs();
      var snapshot := pending;
      var i := 0;
      while i < |snapshot|
        invariant 0 <= i <= |snapshot|
        invariant Abs() == SupersedeAll(start, snapshot[..i])
      {
        assert snapshot[..i + 1][..i] == snapshot[..i];
        ResolveEntry(snapshot[i].id, SUPERSEDED);
        i := i + 1;
      }
      assert snapshot[..i] == snapshot;
    }
  }

  // ---- whole runs ----------------------------------------------------------------------------------------

  function Run(c: Config, calls: seq<Call>): State {
    if calls == [] then State([], false, []) else Apply(c, Run(c, calls[..|calls| - 1]), calls[|calls| - 1])
  }

  predicate Names(m: Message, id: Id) { if m.Announced? then m.request.id == id else m.resolvedId == id }

  // The id factory never repeats an id.
  ghost predicate Fresh(c: Config, calls: seq<Call>) {
    calls == [] ||
    (var before := calls[..|calls| - 1]; var call := calls[|calls| - 1];
     Fresh(c, before) && (call.Ask? ==> forall m <- Run(c, before).log :: !Names(m, call.id)))
  }

  ghost predicate AnnouncedIn(log: seq<Message>, id: Id) { exists m <- log :: m.Announced? && m.request.id == id }
  ghost predicate ResolvedIn(log: seq<Message>, id: Id) { exists m <- log :: m.Resolved? && m.resolvedId == id }

  // Every message is legal after those before it: an announcement names a new id, a resolution one
  // that was announced and not yet resolved.
  ghost predicate Legal(log: seq<Message>) {
    log == [] ||
    (var before := log[..|log| - 1]; var m := log[|log| - 1];
     Legal(before) &&
     if m.Announced? then forall x <- before :: !Names(x, m.request.id)
     else AnnouncedIn(before, m.resolvedId) && !ResolvedIn(before, m.resolvedId))
  }

  // The requests of `log` that nothing in `all` resolves, in the order announced.
  ghost function Unresolved(log: seq<Message>, all: seq<Message>): seq<Request> {
    if log == [] then []
    else
      var m := log[|log| - 1];
      Unresolved(log[..|log| - 1], all) + if m.Announced? && !ResolvedIn(all, m.request.id) then [m.request] else []
  }

  ghost predicate Inv(s: State) {
    Legal(s.log) && s.pending == Unresolved(s.log, s.log) && Distinct(s.pending)
  }

  ghost predicate Distinct(rs: seq<Request>) {
    rs == [] || (Distinct(rs[..|rs| - 1]) && forall r <- rs[..|rs| - 1] :: r.id != rs[|rs| - 1].id)
  }

  lemma {:induction false} PendingHas(pending: seq<Request>, id: Id)
    ensures IsPending(pending, id) <==> exists r <- pending :: r.id == id
  {
    if pending != [] {
      assert pending == [pending[0]] + pending[1..];
      PendingHas(pending[1..], id);
    }
  }

  lemma {:induction false} ArmedHas(pending: seq<Request>, id: Id)
    ensures IsArmed(pending, id) ==> exists r <- pending :: r.id == id && r.expiresAt.Some?
    ensures Distinct(pending) && (exists r <- pending :: r.id == id && r.expiresAt.Some?) ==> IsArmed(pending, id)
  {
    if pending != [] {
      assert pending == [pending[0]] + pending[1..];
      ArmedHas(pending[1..], id);
      if r :| r in pending && r.id == id && r.expiresAt.Some? && Distinct(pending) {
        DistinctTail(pending);
        if pending[0].id == id {
          SameRequest(pending, pending[0], r);
        }
      }
    }
  }

  lemma {:induction false} DistinctTail(rs: seq<Request>)
    requires rs != [] && Distinct(rs)
    ensures Distinct(rs[1..])
  {
    if |rs| > 1 {
      var n := |rs| - 1;
      DistinctTail(rs[..n]);
      assert rs[..n][1..] == rs[1..][..n - 1];
    }
  }

  lemma {:induction false} PutNew(pending: seq<Request>, r: Request)
    requires forall x <- pending :: x.id != r.id
    ensures Put(pending, r) == pending + [r]
  {
    if pending != [] {
      assert pending[0] in pending;
      PutNew(pending[1..], r);
    }
  }

  lemma {:induction false} WithoutIs(pending: seq<Request>, id: Id, r: Request)
    ensures r in Without(pending, id) <==> r in pending && r.id != id
  {
    if pending != [] {
      var n := |pending| - 1;
      assert pending == pending[..n] + [pending[n]];
      WithoutIs(pending[..n], id, r);
    }
  }

  lemma {:induction false} WithoutDistinct(pending: seq<Request>, id: Id)
    requires Distinct(pending)
    ensures Distinct(Without(pending, id))
  {
    if pending != [] {
      var n := |pending| - 1;
      WithoutDistinct(pending[..n], id);
      var rest := Without(pending[..n], id);
      assert (rest + [pending[n]])[..|rest|] == rest;
      forall r | r in rest ensures r in pending[..n] { WithoutIs(pending[..n], id, r); }
    }
  }

  lemma {:induction false} UnresolvedIs(log: seq<Message>, all: seq<Message>, r: Request)
    ensures r in Unresolved(log, all) <==> Announced(r) in log && !ResolvedIn(all, r.id)
  {
    if log != [] {
      var n := |log| - 1;
      assert log == log[..n] + [log[n]];
      UnresolvedIs(log[..n], all, r);
    }
  }

  lemma ResolvedMore(log: seq<Message>, m: Message, id: Id)
    ensures ResolvedIn(log + [m], id) <==> ResolvedIn(log, id) || (m.Resolved? && m.resolvedId == id)
    ensures AnnouncedIn(log + [m], id) <==> AnnouncedIn(log, id) || (m.Announced? && m.request.id == id)
  {
    assert m in log + [m];
    if x :| x in log && x.Resolved? && x.resolvedId == id { assert x in log + [m]; }
    if x :| x in log && x.Announced? && x.request.id == id { assert x in log + [m]; }
  }

  lemma {:induction false} UnresolvedStill(log: seq<Message>, all: seq<Message>, r: Request)
    ensures Unresolved(log, all + [Announced(r)]) == Unresolved(log, all)
  {
    hide ResolvedIn;
    if log != [] {
      var n := |log| - 1;
      UnresolvedStill(log[..n], all, r);
      if log[n].Announced? { ResolvedMore(all, Announced(r), log[n].request.id); }
    }
  }

  lemma {:induction false} UnresolvedLess(log: seq<Message>, all: seq<Message>, id: Id, resolution: Resolution)
    ensures Unresolved(log, all + [Resolved(id, resolution)]) == Without(Unresolved(log, all), id)
  {
    hide ResolvedIn;
    if log != [] {
      var n := |log| - 1;
      UnresolvedLess(log[..n], all, id, resolution);
      var rest := Unresolved(log[..n], all);
      if log[n].Announced? {
        var r := log[n].request;
        ResolvedMore(all, Resolved(id, resolution), r.id);
        assert (rest + [r])[..|rest|] == rest;
      }
      assert rest + [] == rest;
    }
  }

  lemma AnnounceKeeps(s: State, r: Request)
    requires Inv(s) && forall m <- s.log :: !Names(m, r.id)
    ensures Inv(Announce(s, r))
    ensures Announce(s, r).pending == s.pending + [r]
  {
    hide ResolvedIn, Unresolved, Put;
    var log := s.log + [Announced(r)];
    assert log[..|log| - 1] == s.log;
    forall x | x in s.pending ensures x.id != r.id {
      UnresolvedIs(s.log, s.log, x);
      assert Names(Announced(x), x.id);
    }
    PutNew(s.pending, r);
    assert (s.pending + [r])[..|s.pending|] == s.pending;
    UnresolvedStill(s.log, s.log, r);
    UnresolvedLast(s.log, log, Announced(r));
    NotResolved(s.log, r);
  }

  lemma NotResolved(log: seq<Message>, r: Request)
    requires forall m <- log :: !Names(m, r.id)
    ensures !ResolvedIn(log + [Announced(r)], r.id)
  {
  }

  lemma UnresolvedLast(log: seq<Message>, all: seq<Message>, m: Message)
    ensures Unresolved(log + [m], all)
      == Unresolved(log, all) + if m.Announced? && !ResolvedIn(all, m.request.id) then [m.request] else []
  {
    assert (log + [m])[..|log|] == log;
  }

  lemma ResolveKeeps(s: State, id: Id, resolution: Resolution)
    requires Inv(s) && exists r <- s.pending :: r.id == id
    ensures Inv(Resolve(s, id, resolution))
  {
    hide ResolvedIn, Unresolved, Without;
    var m := Resolved(id, resolution);
    var log := s.log + [m];
    assert log[..|log| - 1] == s.log;
    var r :| r in s.pending && r.id == id;
    UnresolvedIs(s.log, s.log, r);
    assert AnnouncedIn(s.log, id);
    UnresolvedLess(s.log, s.log, id, resolution);
    UnresolvedLast(s.log, log, m);
    assert Unresolved(log, log) == Without(s.pending, id);
    WithoutDistinct(s.pending, id);
  }

  lemma {:induction false} SupersedeAllKeeps(s: State, victims: seq<Request>)
    requires Inv(s) && Distinct(victims) && forall v <- victims :: v in s.pending
    ensures Inv(SupersedeAll(s, victims))
    ensures forall r :: r in SupersedeAll(s, victims).pending <==> r in s.pending && forall v <- victims :: v.id != r.id
  {
    hide Inv, Without;
    if victims != [] {
      var n := |victims| - 1;
      var v := victims[n];
      assert v in victims && victims == victims[..n] + [v];
      SupersedeAllKeeps(s, victims[..n]);
      var t := SupersedeAll(s, victims[..n]);
      assert v in t.pending;
      ResolveKeeps(t, v.id, SUPERSEDED);
      forall r ensures r in SupersedeAll(s, victims).pending <==> r in s.pending && forall v <- victims :: v.id != r.id {
        WithoutIs(t.pending, v.id, r);
      }
    }
  }

  lemma {:induction false} OfSessionIs(pending: seq<Request>, session: string, r: Request)
    ensures r in OfSession(pending, session) <==> r in pending && r.input.sessionId == Some(session)
  {
    if pending != [] {
      var n := |pending| - 1;
      assert pending == pending[..n] + [pending[n]];
      OfSessionIs(pending[..n], session, r);
    }
  }

  lemma {:induction false} OfSessionDistinct(pending: seq<Request>, session: string)
    requires Distinct(pending)
    ensures Distinct(OfSession(pending, session))
  {
    if pending != [] {
      var n := |pending| - 1;
      OfSessionDistinct(pending[..n], session);
      var rest := OfSession(pending[..n], session);
      assert (rest + [pending[n]])[..|rest|] == rest;
      assert rest + [] == rest;
      forall r | r in rest ensures r in pending[..n] { OfSessionIs(pending[..n], session, r); }
    }
  }

  lemma {:induction false} RunKeepsInv(c: Config, calls: seq<Call>)
    requires Fresh(c, calls)
    ensures Inv(Run(c, calls))
  {
    hide Legal, Distinct, Unresolved;
    if calls == [] {
      InvAtStart();
    } else {
      var s, call := Run(c, calls[..|calls| - 1]), calls[|calls| - 1];
      RunKeepsInv(c, calls[..|calls| - 1]);
      ApplyKeepsInv(c, s, call);
    }
  }

  lemma InvAtStart()
    ensures Inv(State([], false, []))
  {
  }

  lemma ApplyKeepsInv(c: Config, s: State, call: Call)
    requires Inv(s) && (call.Ask? ==> forall m <- s.log :: !Names(m, call.id))
    ensures Inv(Apply(c, s, call))
  {
    hide Legal, Unresolved, IsPending, IsArmed, Without, Put;
    match call
    case Ask(input, id, idOk, now) => AnnounceKeeps(s, NewRequest(c, input, id, now));
    case Decide(d) =>
      PendingHas(s.pending, d.id);
      if DecideFault(s, d).None? { ResolveKeeps(s, d.id, Verdict(d)); }
    case Expire(id) =>
      ArmedHas(s.pending, id);
      if IsArmed(s.pending, id) { ResolveKeeps(s, id, EXPIRED); }
    case Supersede(id) =>
      PendingHas(s.pending, id);
      if IsPending(s.pending, id) { ResolveKeeps(s, id, SUPERSEDED); }
    case EndSession(session) =>
      OfSessionDistinct(s.pending, session);
      forall r | r in OfSession(s.pending, session) ensures r in s.pending { OfSessionIs(s.pending, session, r); }
      SupersedeAllKeeps(s, OfSession(s.pending, session));
    case Close =>
      if !s.closed { SupersedeAllKeeps(s.(closed := true), s.pending); }
  }

  // ---- exactly once ----------------------------------------------------------------------------------------

  lemma {:induction false} LegalPrefix(log: seq<Message>, n: nat)
    requires Legal(log) && n <= |log|
    ensures Legal(log[..n])
  {
    if n < |log| {
      LegalPrefix(log[..|log| - 1], n);
      assert log[..|log| - 1][..n] == log[..n];
    } else {
      assert log[..n] == log;
    }
  }

  lemma ResolvedHere(log: seq<Message>, i: nat, id: Id)
    requires i < |log|
    ensures log[i].Resolved? && Names(log[i], id) ==> ResolvedIn(log, id)
  {
    assert log[i] in log;
  }

  // Two messages of a legal log about the same id: an announcement and later its resolution.
  lemma LegalPair(log: seq<Message>, i: nat, j: nat, id: Id)
    requires Legal(log) && i < j < |log| && Names(log[i], id) && Names(log[j], id)
    ensures log[i].Announced? && log[j].Resolved?
  {
    hide AnnouncedIn;
    LegalPrefix(log, j + 1);
    var upto := log[..j + 1];
    assert upto[..|upto| - 1] == log[..j] && upto[j] == log[j];
    assert log[..j][i] == log[i] && log[i] in log[..j];
    ResolvedHere(log[..j], i, id);
  }

  /** In every run with fresh ids: an id has at most one announcement and at most one resolution, the
      resolution comes after the announcement, and the inbox is exactly the announced requests that
      are not resolved, in arrival order. */
  lemma ExactlyOnce(c: Config, calls: seq<Call>)
    requires Fresh(c, calls)
    ensures var log := Run(c, calls).log; forall i, j, id | 0 <= i < j < |log| && Names(log[i], id) && Names(log[j], id) ::
      log[i].Announced? && log[j].Resolved?
    ensures var log := Run(c, calls).log; forall j | 0 <= j < |log| && log[j].Resolved? :: AnnouncedIn(log[..j], log[j].resolvedId)
    ensures Run(c, calls).pending == Unresolved(Run(c, calls).log, Run(c, calls).log)
  {
    hide Run, Fresh, Unresolved, AnnouncedIn, ResolvedIn;
    RunKeepsInv(c, calls);
    var log := Run(c, calls).log;
    forall i, j, id | 0 <= i < j < |log| && Names(log[i], id) && Names(log[j], id) ensures log[i].Announced? && log[j].Resolved? {
      LegalPair(log, i, j, id);
    }
    forall j | 0 <= j < |log| && log[j].Resolved? ensures AnnouncedIn(log[..j], log[j].resolvedId) {
      LegalPrefix(log, j + 1);
      assert log[..j + 1][..j] == log[..j];
    }
  }

  lemma ClosedKeeps(c: Config, s: State, call: Call)
    requires s.closed && s.pending == []
    ensures Apply(c, s, call) == s
  {
  }

  lemma {:induction false} SupersedeAllFields(s: State, victims: seq<Request>)
    ensures SupersedeAll(s, victims).closed == s.closed
  {
    if victims != [] {
      SupersedeAllFields(s, victims[..|victims| - 1]);
    }
  }

  lemma CloseEmpties(s: State, c: Config)
    requires Inv(s) && !s.closed
    ensures Apply(c, s, Close).pending == [] && Apply(c, s, Close).closed
  {
    hide Legal, Unresolved, Distinct, SupersedeAll;
    SupersedeAllKeeps(s.(closed := true), s.pending);
    SupersedeAllFields(s.(closed := true), s.pending);
    var p := SupersedeAll(s.(closed := true), s.pending).pending;
    if p != [] {
      HasMember(p);
    }
  }

  lemma HasMember(rs: seq<Request>)
    requires rs != []
    ensures exists r :: r in rs
  {
    assert rs[0] in rs;
  }

  lemma {:induction false} ClosedIsEmpty(c: Config, calls: seq<Call>)
    requires Fresh(c, calls) && Run(c, calls).closed
    ensures Run(c, calls).pending == []
  {
    hide Inv, Put, Without;
    var n := |calls| - 1;
    var s, call := Run(c, calls[..n]), calls[n];
    if s.closed {
      ClosedIsEmpty(c, calls[..n]);
      ClosedKeeps(c, s, call);
    } else {
      RunKeepsInv(c, calls[..n]);
      if call.Close? {
        CloseEmpties(s, c);
      } else {
        if call.EndSession? { SupersedeAllFields(s, OfSession(s.pending, call.session)); }
        assert false;
      }
    }
  }

  /** Close leaves nothing pending, resolves everything ever announced, and nothing is sent after it. */
  lemma CloseIsFinal(c: Config, calls: seq<Call>, call: Call)
    requires Fresh(c, calls) && Run(c, calls).closed
    ensures Run(c, calls).pending == [] && Apply(c, Run(c, calls), call) == Run(c, calls)
    ensures forall m <- Run(c, calls).log :: m.Announced? ==> ResolvedIn(Run(c, calls).log, m.request.id)
  {
    hide Run, Fresh, Apply, ResolvedIn, Unresolved, Legal;
    ClosedIsEmpty(c, calls);
    var s := Run(c, calls);
    ClosedKeeps(c, s, call);
    RunKeepsInv(c, calls);
    forall m | m in s.log && m.Announced? ensures ResolvedIn(s.log, m.request.id) {
      UnresolvedIs(s.log, s.log, m.request);
    }
  }

  /** A session's end clears its requests and only those. */
  lemma SessionEnds(c: Config, calls: seq<Call>, session: string, r: Request)
    requires Fresh(c, calls)
    ensures r in Apply(c, Run(c, calls), EndSession(session)).pending
      <==> r in Run(c, calls).pending && r.input.sessionId != Some(session)
  {
    hide Legal, Unresolved, Run, Fresh;
    RunKeepsInv(c, calls);
    var s := Run(c, calls);
    var victims := OfSession(s.pending, session);
    OfSessionDistinct(s.pending, session);
    forall x ensures x in victims <==> x in s.pending && x.input.sessionId == Some(session) { OfSessionIs(s.pending, session, x); }
    SupersedeAllKeeps(s, victims);
    if r in s.pending {
      forall v | v in victims && v.id == r.id ensures v == r { SameRequest(s.pending, v, r); }
    }
  }

  lemma {:induction false} SameRequest(rs: seq<Request>, a: Request, b: Request)
    requires Distinct(rs) && a in rs && b in rs && a.id == b.id
    ensures a == b
  {
    var n := |rs| - 1;
    assert rs == rs[..n] + [rs[n]];
    if a in rs[..n] && b in rs[..n] {
      SameRequest(rs[..n], a, b);
    }
  }

  // ---- the tool bridge ----------------------------------------------------------------------------------------

  datatype Answer = AllowTool(input: string) | DenyTool(message: string)

  function BridgeAnswer(resolution: Resolution, input: string): Answer {
    match resolution.outcome
    case Allowed => AllowTool(resolution.updatedInput.GetOr(input))
    case Denied => DenyTool(resolution.note.GetOr("denied from the approval inbox"))
    case Expired => DenyTool("approval expired with no decision")
    case Superseded => DenyTool("approval superseded (session or run ended)")
  }

  // This call, made in state s, resolves the id this way.
  ghost predicate Causes(s: State, call: Call, id: Id, r: Resolution) {
    match call
    case Ask(_, _, _, _) => false
    case Decide(d) =>
      && d.id == id && IsPending(s.pending, id) && (d.allow || d.updatedInput.None?)
      && r == Resolution(if d.allow then Allowed else Denied, d.updatedInput, d.note)
    case Expire(x) => x == id && IsArmed(s.pending, id) && r == Resolution(Expired, None, None)
    case Supersede(x) => x == id && IsPending(s.pending, id) && r == Resolution(Superseded, None, None)
    case EndSession(session) =>
      (exists p <- s.pending :: p.id == id && p.input.sessionId == Some(session)) && r == Resolution(Superseded, None, None)
    case Close => !s.closed && IsPending(s.pending, id) && r == Resolution(Superseded, None, None)
  }

  lemma {:induction false} SupersedeAllLog(s: State, victims: seq<Request>, id: Id, r: Resolution)
    ensures Resolved(id, r) in SupersedeAll(s, victims).log <==>
      Resolved(id, r) in s.log || (r == Resolution(Superseded, None, None) && exists v <- victims :: v.id == id)
  {
    if victims != [] {
      var n := |victims| - 1;
      assert victims == victims[..n] + [victims[n]];
      SupersedeAllLog(s, victims[..n], id, r);
    }
  }

  lemma Sends(c: Config, s: State, call: Call, id: Id, r: Resolution)
    ensures Resolved(id, r) in Apply(c, s, call).log <==> Resolved(id, r) in s.log || Causes(s, call, id, r)
  {
    hide Put, Without, IsPending, IsArmed, SupersedeAll, RequestFault, OfSession;
    match call
    case EndSession(session) =>
      SupersedeAllLog(s, OfSession(s.pending, session), id, r);
      forall x ensures x in OfSession(s.pending, session) <==> x in s.pending && x.input.sessionId == Some(session) {
        OfSessionIs(s.pending, session, x);
      }
    case Close =>
      SupersedeAllLog(s.(closed := true), s.pending, id, r);
      PendingHas(s.pending, id);
    case _ =>
  }

  ghost predicate CausedAt(c: Config, calls: seq<Call>, i: nat, id: Id, r: Resolution) {
    i < |calls| && Causes(Run(c, calls[..i]), calls[i], id, r)
  }

  /** Every resolution has a cause, and every cause its resolution: an id was resolved with r if and
      only if some call decided, expired or superseded it so while it was pending. */
  lemma {:induction false} ResolvedByCause(c: Config, calls: seq<Call>, id: Id, r: Resolution)
    ensures Resolved(id, r) in Run(c, calls).log <==> exists i: nat :: CausedAt(c, calls, i, id, r)
  {
    hide Apply, Causes;
    if calls != [] {
      var n := |calls| - 1;
      var before := calls[..n];
      ResolvedByCause(c, before, id, r);
      Sends(c, Run(c, before), calls[n], id, r);
      forall i: nat | i < n ensures CausedAt(c, calls, i, id, r) <==> CausedAt(c, before, i, id, r) {
        assert before[..i] == calls[..i] && before[i] == calls[i];
      }
      assert CausedAt(c, calls, n, id, r) <==> Causes(Run(c, before), calls[n], id, r);
      assert forall i: nat :: CausedAt(c, calls, i, id, r) ==> i <= n;
      assert forall i: nat :: CausedAt(c, before, i, id, r) ==> i < n;
    }
  }

  // Call i asked for this request, complete and with a good id, before any close.
  ghost predicate AskedAt(c: Config, calls: seq<Call>, i: nat, r: Request) {
    && i < |calls| && calls[i].Ask? && calls[i].idOk && Complete(c, calls[i].input)
    && r == Request(calls[i].id, calls[i].input, Deadline(c, calls[i].input, calls[i].now))
    && forall k: nat | k < i :: !calls[k].Close?
  }

  lemma {:induction false} ClosedIff(c: Config, calls: seq<Call>)
    ensures Run(c, calls).closed <==> exists k: nat :: k < |calls| && calls[k].Close?
  {
    hide Put, Without;
    if calls != [] {
      var n := |calls| - 1;
      ClosedIff(c, calls[..n]);
      if calls[n].EndSession? {
        SupersedeAllFields(Run(c, calls[..n]), OfSession(Run(c, calls[..n]).pending, calls[n].session));
      } else if calls[n].Close? {
        SupersedeAllFields(Run(c, calls[..n]).(closed := true), Run(c, calls[..n]).pending);
      }
      assert forall k: nat | k < n :: calls[..n][k] == calls[k];
    }
  }

  lemma {:induction false} SupersedeAllAnnounces(s: State, victims: seq<Request>, r: Request)
    ensures Announced(r) in SupersedeAll(s, victims).log <==> Announced(r) in s.log
  {
    if victims != [] {
      SupersedeAllAnnounces(s, victims[..|victims| - 1], r);
    }
  }

  lemma Announces(c: Config, s: State, call: Call, r: Request)
    ensures Announced(r) in Apply(c, s, call).log <==>
      Announced(r) in s.log || (&& call.Ask? && !s.closed && call.idOk && Complete(c, call.input)
                                && r == Request(call.id, call.input, Deadline(c, call.input, call.now)))
  {
    hide Put, Without, IsPending, IsArmed, SupersedeAll, OfSession;
    match call
    case EndSession(session) => SupersedeAllAnnounces(s, OfSession(s.pending, session), r);
    case Close => SupersedeAllAnnounces(s.(closed := true), s.pending, r);
    case _ =>
  }

  /** Every announcement was asked for, and every good ask announced: a request was fanned out if and only if some
      call before any close asked for it with the fields its source must carry, and its deadline is the call's
      time plus its own or the default allowance. */
  lemma {:induction false} AnnouncedByAsk(c: Config, calls: seq<Call>, r: Request)
    ensures Announced(r) in Run(c, calls).log <==> exists i: nat :: AskedAt(c, calls, i, r)
  {
    hide Apply, Complete, Deadline;
    if calls != [] {
      var n := |calls| - 1;
      var before := calls[..n];
      AnnouncedByAsk(c, before, r);
      Announces(c, Run(c, before), calls[n], r);
      ClosedIff(c, before);
      forall i: nat | i < n ensures AskedAt(c, calls, i, r) <==> AskedAt(c, before, i, r) {
        assert forall k: nat | k <= i :: before[k] == calls[k];
      }
      assert forall k: nat | k < n :: before[k] == calls[k];
      assert AskedAt(c, calls, n, r) <==> (&& calls[n].Ask? && !Run(c, before).closed && calls[n].idOk && Complete(c, calls[n].input)
                                           && r == Request(calls[n].id, calls[n].input, Deadline(c, calls[n].input, calls[n].now)));
      assert forall i: nat :: AskedAt(c, calls, i, r) ==> i <= n;
      assert forall i: nat :: AskedAt(c, before, i, r) ==> i < n;
    }
  }

  // Call i was a decision that allowed this id while it was pending.
  ghost predicate AllowedAt(c: Config, calls: seq<Call>, i: nat, id: Id) {
    && i < |calls| && calls[i].Decide? && calls[i].decision.allow && calls[i].decision.id == id
    && IsPending(Run(c, calls[..i]).pending, id)
  }

  lemma AllowCause(c: Config, calls: seq<Call>, i: nat, id: Id, r: Resolution)
    ensures CausedAt(c, calls, i, id, r) && r.outcome.Allowed? ==> AllowedAt(c, calls, i, id) && calls[i].decision.updatedInput == r.updatedInput
    ensures AllowedAt(c, calls, i, id) ==> CausedAt(c, calls, i, id, Resolution(Allowed, calls[i].decision.updatedInput, calls[i].decision.note))
  {
    hide Run, IsPending, IsArmed;
  }

  /** The bridge answers allow exactly when an allow decision was applied while the id was pending,
      and then with that decision's replacement input, or the original where it had none. */
  lemma BridgeAllowsIff(c: Config, calls: seq<Call>, id: Id, r: Resolution, input: string)
    requires Fresh(c, calls) && Resolved(id, r) in Run(c, calls).log
    ensures BridgeAnswer(r, input).AllowTool? <==> exists i: nat :: AllowedAt(c, calls, i, id)
    ensures BridgeAnswer(r, input).AllowTool? ==>
      exists i: nat :: AllowedAt(c, calls, i, id) && BridgeAnswer(r, input).input == calls[i].decision.updatedInput.GetOr(input)
  {
    hide Run, Fresh, AllowedAt, AnnouncedIn, CausedAt;
    ResolvedByCause(c, calls, id, r);
    var i: nat :| CausedAt(c, calls, i, id, r);
    AllowCause(c, calls, i, id, r);
    if k: nat :| AllowedAt(c, calls, k, id) {
      AllowCause(c, calls, k, id, r);
      assert k < |calls| && calls[k].Decide? by { AllowedIsDecision(c, calls, k, id); }
      var allowed := Resolution(Allowed, calls[k].decision.updatedInput, calls[k].decision.note);
      ResolvedByCause(c, calls, id, allowed);
      OneResolution(c, calls, id, r, allowed);
    }
  }

  /** Where the bridge does not allow, it says why: the note of the deny decision that was applied or a standard
      text, that the request expired, or that its session or run ended. */
  lemma BridgeDenies(c: Config, calls: seq<Call>, id: Id, r: Resolution, input: string)
    requires Fresh(c, calls) && Resolved(id, r) in Run(c, calls).log && BridgeAnswer(r, input).DenyTool?
    ensures exists i: nat ::
      && CausedAt(c, calls, i, id, r) && !calls[i].Ask? && !(calls[i].Decide? && calls[i].decision.allow)
      && BridgeAnswer(r, input).message ==
           (if calls[i].Decide? then calls[i].decision.note.GetOr("denied from the approval inbox")
            else if calls[i].Expire? then "approval expired with no decision"
            else "approval superseded (session or run ended)")
  {
    hide Run, Fresh, IsPending, IsArmed;
    ResolvedByCause(c, calls, id, r);
    var i: nat :| CausedAt(c, calls, i, id, r);
    assert !calls[i].Ask? && !(calls[i].Decide? && calls[i].decision.allow);
  }

  lemma AllowedIsDecision(c: Config, calls: seq<Call>, k: nat, id: Id)
    requires AllowedAt(c, calls, k, id)
    ensures k < |calls| && calls[k].Decide?
  {
  }

  /** A request without a deadline never expires. */
  lemma NeverExpires(c: Config, calls: seq<Call>, r: Request)
    requires Fresh(c, calls) && Announced(r) in Run(c, calls).log && r.expiresAt.None?
    ensures Resolved(r.id, EXPIRED) !in Run(c, calls).log
  {
    hide Run, Fresh, CausedAt, AnnouncedIn;
    ResolvedByCause(c, calls, r.id, EXPIRED);
    if i: nat :| CausedAt(c, calls, i, r.id, EXPIRED) {
      var x := ExpiredRequest(c, calls, i, r.id);
      RunKeepsInv(c, calls);
      var log := Run(c, calls).log;
      var k :| 0 <= k < |log| && log[k] == Announced(r);
      var l :| 0 <= l < |log| && log[l] == Announced(x);
      if k < l { LegalPair(log, k, l, r.id); } else if l < k { LegalPair(log, l, k, r.id); }
    }
  }

  lemma ExpiredRequest(c: Config, calls: seq<Call>, i: nat, id: Id) returns (x: Request)
    requires Fresh(c, calls) && CausedAt(c, calls, i, id, EXPIRED)
    ensures x.id == id && x.expiresAt.Some? && Announced(x) in Run(c, calls).log
  {
    hide Run, Fresh, IsArmed, IsPending;
    var s := Run(c, calls[..i]);
    FreshPrefix(c, calls, i);
    RunKeepsInv(c, calls[..i]);
    ArmedHas(s.pending, id);
    x :| x in s.pending && x.id == id && x.expiresAt.Some?;
    UnresolvedIs(s.log, s.log, x);
    LogGrows(c, calls, i);
  }

  lemma {:induction false} FreshPrefix(c: Config, calls: seq<Call>, i: nat)
    requires Fresh(c, calls) && i <= |calls|
    ensures Fresh(c, calls[..i])
  {
    hide Run;
    if i < |calls| {
      FreshPrefix(c, calls[..|calls| - 1], i);
      assert calls[..|calls| - 1][..i] == calls[..i];
    } else {
      assert calls[..i] == calls;
    }
  }

  lemma {:induction false} SupersedeAllGrows(s: State, victims: seq<Request>)
    ensures s.log <= SupersedeAll(s, victims).log
  {
    hide Without;
    if victims != [] {
      SupersedeAllGrows(s, victims[..|victims| - 1]);
    }
  }

  lemma ApplyGrows(c: Config, s: State, call: Call)
    ensures s.log <= Apply(c, s, call).log
  {
    hide Without, Put, SupersedeAll, IsPending, IsArmed, OfSession;
    match call
    case EndSession(session) => SupersedeAllGrows(s, OfSession(s.pending, session));
    case Close => SupersedeAllGrows(s.(closed := true), s.pending);
    case _ =>
  }

  lemma {:induction false} LogGrows(c: Config, calls: seq<Call>, i: nat)
    requires i <= |calls|
    ensures Run(c, calls[..i]).log <= Run(c, calls).log
  {
    hide Apply;
    if i < |calls| {
      var before := calls[..|calls| - 1];
      LogGrows(c, before, i);
      assert before[..i] == calls[..i];
      ApplyGrows(c, Run(c, before), calls[|calls| - 1]);
    } else {
      assert calls[..i] == calls;
    }
  }

  lemma OneResolution(c: Config, calls: seq<Call>, id: Id, a: Resolution, b: Resolution)
    requires Fresh(c, calls) && Resolved(id, a) in Run(c, calls).log && Resolved(id, b) in Run(c, calls).log
    ensures a == b
  {
    hide Run, Fresh, AnnouncedIn;
    ExactlyOnce(c, calls);
    var log := Run(c, calls).log;
    var i :| 0 <= i < |log| && log[i] == Resolved(id, a);
    var j :| 0 <= j < |log| && log[j] == Resolved(id, b);
    assert Names(log[i], id) && Names(log[j], id);
  }
}
