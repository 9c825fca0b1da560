/** The DAG runner as a machine of atomic steps (core/src/pipelines/runner.ts).

`Walk` is the runner's memory plus the durable journal.  Each `Event` is a stretch of
code between two awaits, so a sequence of events is one interleaving of the
concurrent steps.  The items of one step run one after another; PipelineFanOut has
several of them in flight.  A crash, or a restart after pause or cancel, keeps the journal
and forgets everything else.  Executor verdicts, rendering, conditions and gate
decisions are the functions in `World`; rendering sees the outputs of a step's
ancestors and its own.
*/
module Pipeline {
  import opened Base

  type StepId = string
  type Value = string  // a step output, as the JSON text kept in the journal
  type Item = string   // one forEach element
  type Input = string  // the canonical resolved input that the journal key digests
  type Scope = map<StepId, Value>

  datatype Kind =
    | Gate(continueOnTimeout: bool)
    | Work(forEach: bool, loop: Option<nat>, retryMax: nat, retryOn: set<string>)

  datatype Step = Step(needs: seq<StepId>, conditional: bool, continueOnError: bool, kind: Kind)

  datatype ExecResult = ExecResult(ok: bool, schemaFailed: bool, errorKind: string, output: Option<Value>)
  datatype GateOutcome = Allowed | Denied | Expired | Superseded
  datatype Disposition = Completed | Failed | Skipped | Cancelled

  datatype World = World(
    when: (StepId, Scope) -> bool,
    items: (StepId, Scope) -> seq<Item>,
    resolve: (StepId, Scope, Option<Item>) -> Input,
    until: (StepId, Scope, Option<Item>) -> bool,
    execute: (StepId, nat, Input, nat) -> ExecResult,  // the slot, its input, and which try of the walk it is
    gate: StepId -> Option<GateOutcome>)  // None: no gate is wired

  // A document with a rank that witnesses its acyclicity.
  datatype Config = Config(doc: map<StepId, Step>, rank: map<StepId, nat>, world: World, drifted: set<StepId>)

  ghost predicate WellFormed(c: Config) {
    && c.rank.Keys == c.doc.Keys
    && (forall id <- c.doc :: forall n <- c.doc[id].needs :: n in c.doc && c.rank[n] < c.rank[id])
    && (forall id <- c.doc :: c.doc[id].kind.Work? && c.doc[id].kind.loop.Some? ==> c.doc[id].kind.loop.value <= 1000)
  }

  // ---- the journal -------------------------------------------------------------------

  datatype Status = Running | RowCompleted | RowFailed | Memoized | RowCancelled | AwaitingApproval
  datatype Row = Row(attempt: nat, input: Input, status: Status, output: Option<Value>)
  type Journal = map<(StepId, nat), seq<Row>>

  function Rows(j: Journal, id: StepId, slot: nat): seq<Row> {
    if (id, slot) in j then j[(id, slot)] else []
  }

  predicate Hit(row: Row, input: Input) {
    row.input == input && (row.status.RowCompleted? || row.status.Memoized?)
  }

  // findMemoized: the completed or memoized row with the largest attempt number.
  function FindMemo(rows: seq<Row>, input: Input): (r: Option<Row>)
    ensures r.Some? ==> r.value in rows && Hit(r.value, input)
    ensures r.None? ==> forall row <- rows :: !Hit(row, input)
  {
    if rows == [] then None
    else
      var last := rows[|rows| - 1];
      var best := FindMemo(rows[..|rows| - 1], input);
      if Hit(last, input) && (best.None? || best.value.attempt <= last.attempt) then Some(last) else best
  }

  // latestAttemptNumber: the largest attempt number, or -1.
  function Latest(rows: seq<Row>): (n: int)
    ensures -1 <= n
    ensures forall row <- rows :: row.attempt <= n
  {
    if rows == [] then -1
    else
      var best := Latest(rows[..|rows| - 1]);
      if best < rows[|rows| - 1].attempt then rows[|rows| - 1].attempt else best
  }

  function Appended(rows: seq<Row>, input: Input, status: Status): seq<Row> {
    rows + [Row(Latest(rows) + 1, input, status, None)]
  }

  function Finished(rows: seq<Row>, status: Status, output: Option<Value>): seq<Row>
    requires rows != []
  {
    rows[|rows| - 1 := rows[|rows| - 1].(status := status, output := output)]
  }

  function SlotOf(step: Step, i: nat, l: nat): nat {
    if step.kind.Work? && step.kind.loop.Some? then i * 1000 + l else i
  }

  // ---- the walk ------------------------------------------------------------------------

  // What one journaled slot did: its input, whether it succeeded, the output it contributed.
  datatype Visit = Visit(slot: nat, input: Input, ok: bool, output: Option<Value>)

  datatype Pc =
    | Begin
    | AtGate
    | AtSlot(items: seq<Option<Item>>, i: nat, l: nat, allOk: bool)
    | InFlight(items: seq<Option<Item>>, i: nat, l: nat, allOk: bool, input: Input, tries: nat)
    | Backoff(items: seq<Option<Item>>, i: nat, l: nat, allOk: bool, input: Input, tries: nat)

  // Waiting steps are `remaining`; settled ones carry their disposition; `own` is the
  // step's entry in stepOutputs.  A refused gate's promise rejected: it never gets a disposition.
  datatype Cell =
    | Waiting
    | Active(pc: Pc, own: Option<Value>, trace: seq<Visit>)
    | Settled(disp: Disposition, own: Option<Value>, trace: seq<Visit>)
    | Refused

  function Own(cell: Cell): Option<Value> { if cell.Waiting? || cell.Refused? then None else cell.own }
  function Trace(cell: Cell): seq<Visit> { if cell.Waiting? || cell.Refused? then [] else cell.trace }

  // `thrown`: a step's promise rejected, so no generation follows and the walk no longer listens
  // to signals, but the other steps of the generation run on.  `aborting`: the cancel signal was
  // raised, which each executor call listens to by itself.
  datatype Walk = Walk(journal: Journal, cells: map<StepId, Cell>, paused: bool, cancelled: bool, aborting: bool, thrown: bool)

  datatype Event =
    | Generation
    | Advance(id: StepId, aborted: bool)  // `aborted`: the executor gives up because of the cancel signal
    | PauseSignal
    | CancelSignal

  function Start(c: Config, j: Journal): Walk {
    Walk(j, map id | id in c.doc :: Waiting, false, false, false, false)
  }

  function Ancestors(c: Config, id: StepId): (r: set<StepId>)
    requires WellFormed(c) && id in c.doc
    ensures forall a <- r :: a in c.doc && c.rank[a] < c.rank[id]
    ensures forall n <- c.doc[id].needs :: n in r
    decreases c.rank[id]
  {
    (set n | n in c.doc[id].needs) + (set n, a | n in c.doc[id].needs && a in Ancestors(c, n) :: a)
  }

  function View(anc: Scope, id: StepId, own: Option<Value>): Scope {
    if own.Some? then anc[id := own.value] else anc
  }

  function AncestorScope(c: Config, st: Walk, id: StepId): Scope
    requires WellFormed(c) && id in c.doc && st.cells.Keys == c.doc.Keys
  {
    map a | a in Ancestors(c, id) && Own(st.cells[a]).Some? :: Own(st.cells[a]).value
  }

  predicate NeedsSettled(c: Config, cells: map<StepId, Cell>, id: StepId)
    requires id in c.doc
  {
    forall n <- c.doc[id].needs :: n in cells && cells[n].Settled?
  }

  function Ready(c: Config, st: Walk): set<StepId>
    requires st.cells.Keys == c.doc.Keys
  {
    set id | id in c.doc && st.cells[id].Waiting? && NeedsSettled(c, st.cells, id)
  }

  // skipByUpstream: some need did not complete, unless it failed under onError:continue.
  predicate Blocks(need: Step, d: Disposition) {
    match d
    case Completed => false
    case Failed => !(need.kind.Work? && need.continueOnError)
    case _ => true
  }

  function GateDisposition(outcome: Option<GateOutcome>, continueOnTimeout: bool): Disposition {
    match outcome
    case None => if continueOnTimeout then Completed else Failed
    case Some(Allowed) => Completed
    case Some(Expired) => if continueOnTimeout then Completed else Failed
    case Some(Superseded) => Disposition.Cancelled
    case Some(Denied) => Failed
  }

  function GateStatus(d: Disposition): Status {
    match d
    case Completed => RowCompleted
    case Cancelled => RowCancelled
    case _ => RowFailed
  }

  predicate Succeeded(r: ExecResult) { r.ok && !r.schemaFailed }

  predicate Retryable(step: Step, r: ExecResult)
    requires step.kind.Work?
  {
    r.schemaFailed || r.errorKind in step.kind.retryOn
  }

  // The try at which the retry loop stops, from try t on: the first success, the first failure that
  // may not be retried, or the last try.
  function LastTry(c: Config, id: StepId, slot: nat, input: Input, t: nat): (n: nat)
    requires id in c.doc && c.doc[id].kind.Work? && t <= 1 + c.doc[id].kind.retryMax
    ensures t <= n <= 1 + c.doc[id].kind.retryMax
    decreases 1 + c.doc[id].kind.retryMax - t
  {
    var r := c.world.execute(id, slot, input, t);
    if Succeeded(r) || t == 1 + c.doc[id].kind.retryMax || !Retryable(c.doc[id], r) then t
    else LastTry(c, id, slot, input, t + 1)
  }

  // What a slot that is executed comes to.
  function Answer(c: Config, id: StepId, slot: nat, input: Input): ExecResult
    requires id in c.doc && c.doc[id].kind.Work?
  {
    c.world.execute(id, slot, input, LastTry(c, id, slot, input, 1))
  }

  function MaxLoops(step: Step): nat
    requires step.kind.Work?
  {
    if step.kind.loop.Some? then step.kind.loop.value else 1
  }

  function ItemsOf(c: Config, id: StepId, anc: Scope): seq<Option<Item>>
    requires id in c.doc && c.doc[id].kind.Work?
  {
    if c.doc[id].kind.forEach then
      var found := c.world.items(id, anc);
      seq(|found|, k requires 0 <= k < |found| => Some(found[k]))
    else [None]
  }

  // Where the step goes after a slot succeeded: next item, or next loop pass.
  function AfterSuccess(c: Config, id: StepId, anc: Scope, own: Option<Value>,
                        items: seq<Option<Item>>, i: nat, l: nat, allOk: bool): Pc
    requires id in c.doc && c.doc[id].kind.Work? && i < |items|
  {
    if c.doc[id].kind.loop.None? || c.world.until(id, View(anc, id, own), items[i])
    then AtSlot(items, i + 1, 0, allOk)
    else AtSlot(items, i, l + 1, allOk)
  }

  // The journal slot a step is working on.
  function CurrentSlot(step: Step, pc: Pc): nat {
    match pc
    case Begin => 0
    case AtGate => 0
    case AtSlot(_, i, l, _) => SlotOf(step, i, l)
    case InFlight(_, i, l, _, _, _) => SlotOf(step, i, l)
    case Backoff(_, i, l, _, _, _) => SlotOf(step, i, l)
  }

  ghost predicate PcShape(step: Step, pc: Pc, rows: seq<Row>) {
    match pc
    case Begin => true
    case AtGate => step.kind.Gate? && rows != []
    case AtSlot(items, i, l, _) => step.kind.Work? && i <= |items|
    case InFlight(items, i, l, _, input, tries) =>
      && step.kind.Work? && i < |items| && l < MaxLoops(step) && 1 <= tries <= 1 + step.kind.retryMax
      && rows != [] && rows[|rows| - 1].status.Running? && rows[|rows| - 1].input == input
    case Backoff(items, i, l, _, input, tries) =>
      step.kind.Work? && i < |items| && l < MaxLoops(step) && 1 <= tries <= step.kind.retryMax
  }

  // What one advance of a step does: the new rows of its current slot and its new cell.
  datatype Effect = Effect(rows: seq<Row>, cell: Cell) | Throw

  function Settle(rows: seq<Row>, cell: Cell, d: Disposition): Effect
    requires cell.Active?
  {
    Effect(rows, Settled(d, cell.own, cell.trace))
  }

  // runStep up to its first await.
  function BeginEffect(c: Config, id: StepId, blocked: bool, anc: Scope, cell: Cell, rows: seq<Row>): Effect
    requires id in c.doc && cell.Active?
  {
    var step := c.doc[id];
    var scope := View(anc, id, cell.own);
    if blocked || (step.conditional && !c.world.when(id, scope)) then Settle(rows, cell, Skipped)
    else if step.kind.Gate? then
      if exists row <- rows :: row.attempt == 0 then Throw  // the journal refuses attempt 0 twice
      else Effect(rows + [Row(0, "gate:" + id, AwaitingApproval, None)], cell.(pc := AtGate))
    else if ItemsOf(c, id, scope) == [] then Settle(rows, cell, Skipped)
    else Effect(rows, cell.(pc := AtSlot(ItemsOf(c, id, scope), 0, 0, true)))
  }

  function GateEffect(c: Config, id: StepId, cell: Cell, rows: seq<Row>): Effect
    requires id in c.doc && c.doc[id].kind.Gate? && cell.Active? && rows != []
  {
    var d := GateDisposition(c.world.gate(id), c.doc[id].kind.continueOnTimeout);
    Settle(Finished(rows, GateStatus(d), None), cell, d)
  }

  // The head of the loop in runIterations, then runOneAttempt up to its first await.
  function SlotEffect(c: Config, id: StepId, anc: Scope, cell: Cell, rows: seq<Row>, stopping: bool): Effect
    requires id in c.doc && cell.Active? && cell.pc.AtSlot? && PcShape(c.doc[id], cell.pc, rows)
  {
    var AtSlot(items, i, l, allOk) := cell.pc;
    if i == |items| then Settle(rows, cell, if allOk then Completed else Failed)
    else if l >= MaxLoops(c.doc[id]) || stopping then
      Effect(rows, cell.(pc := AtSlot(items, i + 1, 0, allOk && l > 0)))
    else
      var slot := SlotOf(c.doc[id], i, l);
      var input := c.world.resolve(id, View(anc, id, cell.own), items[i]);
      match if id in c.drifted then None else FindMemo(rows, input)
      case Some(memo) =>
        var own := memo.output.OrElse(cell.own);
        Effect(Appended(rows, input, Memoized),
               Active(AfterSuccess(c, id, anc, own, items, i, l, allOk), own,
                      cell.trace + [Visit(slot, input, true, memo.output)]))
      case None =>
        Effect(Appended(rows, input, Running), cell.(pc := InFlight(items, i, l, allOk, input, 1)))
  }

  // The executor's promise settles: journal the terminal state and decide about a retry.
  function ResultEffect(c: Config, id: StepId, anc: Scope, cell: Cell, rows: seq<Row>, cancelled: bool, aborted: bool): Effect
    requires id in c.doc && cell.Active? && cell.pc.InFlight? && PcShape(c.doc[id], cell.pc, rows)
  {
    var step := c.doc[id];
    var InFlight(items, i, l, allOk, input, tries) := cell.pc;
    var slot := SlotOf(step, i, l);
    var r := if aborted then ExecResult(false, false, "error", None) else c.world.execute(id, slot, input, tries);
    var rows' := Finished(rows, if Succeeded(r) then RowCompleted else RowFailed, r.output);
    if Succeeded(r) then
      var own := r.output.OrElse(cell.own);
      Effect(rows', Active(AfterSuccess(c, id, anc, own, items, i, l, allOk), own,
                           cell.trace + [Visit(slot, input, true, r.output)]))
    else if tries >= 1 + step.kind.retryMax || !Retryable(step, r) || cancelled then
      Effect(rows', Active(AtSlot(items, i + 1, 0, false), cell.own, cell.trace + [Visit(slot, input, false, None)]))
    else
      Effect(rows', cell.(pc := Backoff(items, i, l, allOk, input, tries)))
  }

  // The top of the attempt loop after a backoff.
  function RetryEffect(c: Config, id: StepId, cell: Cell, rows: seq<Row>, cancelled: bool): Effect
    requires id in c.doc && cell.Active? && cell.pc.Backoff? && PcShape(c.doc[id], cell.pc, rows)
  {
    var Backoff(items, i, l, allOk, input, tries) := cell.pc;
    if cancelled then
      Effect(Appended(rows, input, RowCancelled),
             Active(AtSlot(items, i + 1, 0, false), cell.own,
                    cell.trace + [Visit(SlotOf(c.doc[id], i, l), input, false, None)]))
    else
      Effect(Appended(rows, input, Running), cell.(pc := InFlight(items, i, l, allOk, input, tries + 1)))
  }

  // One advance of a step, given what it can see of the rest of the walk.
  function StepEffect(c: Config, id: StepId, blocked: bool, anc: Scope, cell: Cell, rows: seq<Row>,
                      paused: bool, cancelled: bool, aborted: bool): Effect
    requires id in c.doc && cell.Active? && PcShape(c.doc[id], cell.pc, rows)
  {
    match cell.pc
    case Begin => BeginEffect(c, id, blocked, anc, cell, rows)
    case AtGate => GateEffect(c, id, cell, rows)
    case AtSlot(_, _, _, _) => SlotEffect(c, id, anc, cell, rows, paused || cancelled)
    case InFlight(_, _, _, _, _, _) => ResultEffect(c, id, anc, cell, rows, cancelled, aborted)
    case Backoff(_, _, _, _, _, _) => RetryEffect(c, id, cell, rows, cancelled)
  }

  // ---- the machine -------------------------------------------------------------------------

  function CurrentRows(c: Config, st: Walk, id: StepId): seq<Row>
    requires id in c.doc && id in st.cells && st.cells[id].Active?
  {
    Rows(st.journal, id, CurrentSlot(c.doc[id], st.cells[id].pc))
  }

  ghost predicate Shape(c: Config, st: Walk) {
    && WellFormed(c)
    && st.cells.Keys == c.doc.Keys
    && (forall id <- c.doc :: !st.cells[id].Waiting? ==> NeedsSettled(c, st.cells, id))
    && (forall id <- c.doc :: st.cells[id].Active? ==> PcShape(c.doc[id], st.cells[id].pc, CurrentRows(c, st, id)))
  }

  predicate Enabled(c: Config, st: Walk, e: Event)
    requires st.cells.Keys == c.doc.Keys
  {
    match e
    case Generation =>
      (forall id <- st.cells :: !st.cells[id].Active?) && !st.paused && !st.cancelled && !st.thrown && Ready(c, st) != {}
    case Advance(id, _) => id in st.cells && st.cells[id].Active?
    case _ => true
  }

  // skipByUpstream, over the dispositions settled so far.
  predicate SkipByUpstream(c: Config, st: Walk, id: StepId)
    requires Shape(c, st) && id in c.doc && st.cells[id].Active?
  {
    exists n <- c.doc[id].needs :: Blocks(c.doc[n], st.cells[n].disp)
  }

  function EffectOf(c: Config, st: Walk, id: StepId, aborted: bool): Effect
    requires Shape(c, st) && id in c.doc && st.cells[id].Active?
  {
    StepEffect(c, id, SkipByUpstream(c, st, id), AncestorScope(c, st, id), st.cells[id], CurrentRows(c, st, id),
               st.paused, st.cancelled, aborted && st.aborting)
  }

  function Next(c: Config, st: Walk, e: Event): Walk
    requires Shape(c, st) && Enabled(c, st, e)
  {
    match e
    case PauseSignal => st.(paused := st.paused || !st.thrown)
    case CancelSignal => st.(cancelled := st.cancelled || !st.thrown, aborting := true)
    case Generation =>
      var ready := Ready(c, st);
      st.(cells := map id | id in st.cells :: if id in ready then Active(Begin, None, []) else st.cells[id])
    case Advance(id, aborted) =>
      match EffectOf(c, st, id, aborted)
      case Throw => st.(thrown := true, cells := st.cells[id := Refused])
      case Effect(rows, cell) => Put(st, id, CurrentSlot(c.doc[id], st.cells[id].pc), rows, cell)
  }

  function Put(st: Walk, id: StepId, slot: nat, rows: seq<Row>, cell: Cell): Walk {
    var j := if rows == Rows(st.journal, id, slot) then st.journal else st.journal[(id, slot) := rows];
    st.(journal := j, cells := st.cells[id := cell])
  }

  // ---- the declarative meaning -----------------------------------------------------------

  datatype Outcome = Outcome(disp: Disposition, own: Option<Value>, visits: seq<Visit>)

  // The rest of a step's run from a slot onwards, with no journal and no scheduler.
  ghost function Rest(c: Config, id: StepId, anc: Scope, own: Option<Value>,
                      items: seq<Option<Item>>, i: nat, l: nat, allOk: bool): Outcome
    requires id in c.doc && c.doc[id].kind.Work? && i <= |items|
    decreases |items| - i, if l < MaxLoops(c.doc[id]) then MaxLoops(c.doc[id]) - l else 0
  {
    if i == |items| then Outcome(if allOk then Completed else Failed, own, [])
    else if l >= MaxLoops(c.doc[id]) then Rest(c, id, anc, own, items, i + 1, 0, allOk && l > 0)
    else
      var input := c.world.resolve(id, View(anc, id, own), items[i]);
      var slot := SlotOf(c.doc[id], i, l);
      var r := Answer(c, id, slot, input);
      if !Succeeded(r) then
        Ahead(Visit(slot, input, false, None), Rest(c, id, anc, own, items, i + 1, 0, false))
      else
        var own' := r.output.OrElse(own);
        Ahead(Visit(slot, input, true, r.output),
          if c.doc[id].kind.loop.None? || c.world.until(id, View(anc, id, own'), items[i])
          then Rest(c, id, anc, own', items, i + 1, 0, allOk)
          else Rest(c, id, anc, own', items, i, l + 1, allOk))
  }

  ghost function Ahead(v: Visit, o: Outcome): Outcome { o.(visits := [v] + o.visits) }

  // The outcome of a step in terms of the outcomes of its ancestors.
  ghost function Meaning(c: Config, id: StepId): Outcome
    requires WellFormed(c) && id in c.doc
    decreases c.rank[id], 1
  {
    var step := c.doc[id];
    var anc := Known(c, id);
    if exists n <- step.needs :: Blocks(c.doc[n], Meaning(c, n).disp) then Outcome(Skipped, None, [])
    else if step.conditional && !c.world.when(id, anc) then Outcome(Skipped, None, [])
    else if step.kind.Gate? then Outcome(GateDisposition(c.world.gate(id), step.kind.continueOnTimeout), None, [])
    else if ItemsOf(c, id, anc) == [] then Outcome(Skipped, None, [])
    else Rest(c, id, anc, None, ItemsOf(c, id, anc), 0, 0, true)
  }

  // The outputs of a step's ancestors, by their meaning.
  ghost function Known(c: Config, id: StepId): Scope
    requires WellFormed(c) && id in c.doc
    decreases c.rank[id], 0
  {
    map a | a in Ancestors(c, id) && Meaning(c, a).own.Some? :: Meaning(c, a).own.value
  }
}
