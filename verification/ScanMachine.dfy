/** recon/orchestrator/scans.py as a state machine: one scan run, its module rows, the
    executor task, and everything that can happen between two committed writes. */
module ScanMachine {
  import opened Prelude
  import opened Registry

  datatype RunStatus = Running | Paused | AwaitingCheckpoint | Completed | Failed

  datatype RowStatus = RowPending | RowRunning | RowCompleted | RowFailed | RowSkipped

  datatype SkipReason =
    | ResumedPriorRun | ZeroEligibleTargets | NotConfigured | MissingBinary
    | CapabilityUnavailable | UnverifiedTargets

  /** A `ScanModuleRun` row. The reason is kept when the status moves on, as in the table. */
  datatype Row = Row(status: RowStatus, skipReason: Option<SkipReason>)

  /** Where the executor task stands; `i` is the loop position in `ordered`. */
  datatype Pc =
    | Idle                              // no task that still writes
    | Launched                          // task created, run not read yet
    | AtModule(i: nat)                  // top of the loop, or behind it when i == |ordered|
    | Admitted(i: nat)                  // passed the cancellation check
    | Cleared(i: nat)                   // passed the checkpoint test
    | InBody(i: nat)                    // row is RUNNING, mod.run in progress
    | Appending(i: nat)                 // row committed, modules_completed not yet
    | Ran(i: nat)                       // _run_one_module returned
    | Interrupted(i: nat)               // ScanCancelled raised, row not reset yet
    | Pausing                           // about to commit PAUSED
    | Correlating(final: bool, i: nat)
    | Checkpointing(i: nat)             // correlated, about to commit AWAITING_CHECKPOINT
    | Finishing                         // correlated, about to commit COMPLETED

  /** What happened, in order. */
  datatype Event =
    | Started(name: Name)
    | Marked(name: Name, reason: Option<SkipReason>)
    | Ended(name: Name, row: RowStatus)
    | Correlated
    | CheckpointEntered
    | Authorised(byResume: bool)

  datatype State = State(
    requested: seq<Name>,               // run.modules_requested
    status: RunStatus,
    activeConfirmed: bool,
    completed: seq<Name>,               // run.modules_completed
    rows: map<Name, Row>,
    pc: Pc,
    ordered: seq<Name>,                 // executor locals
    done: set<Name>,
    handle: Option<bool>,               // _handles entry and its cancel event
    closing: nat,                       // finished tasks that have not closed their client
    unpopped: nat,                      // closed, but the handle not popped yet
    kill: bool,
    up: bool,                           // false between a crash and reap_orphans
    log: seq<Event>)                    // history

  /** Steps of the executor task that touch only its own variables. */
  datatype Move = Read | PassCheck | StopAtCheck | LoopDone | Clear | HoldAtGate | Interrupt | Advance

  /** Commits of the executor on the row of the module it is at. */
  datatype RowWrite = CarryOver | Start | Mark(reason: Option<SkipReason>) | Return | Raise(timedOut: bool) | ResetRow

  /** Commits of the executor on the run, and its end by an exception. */
  datatype RunWrite = Append | Correlate | Pause | EnterCheckpoint | Finish | ExecutorRaises

  /** Operators, finished tasks and the process. */
  datatype Outside = Cancel | KillOn | KillOff | Preauthorise | Resume | Close(raises: bool) | PopHandle | Crash | Reap

  datatype Action = Moves(move: Move) | WritesRow(row: RowWrite) | WritesRun(run: RunWrite) | Acts(outside: Outside)

  /** What the executor uses of the registry: the phases and `resolve_order`. */
  datatype Setup = Setup(phase: map<Name, Phase>, resolve: set<Name> -> Option<seq<Name>>)

  ghost predicate GoodOrder(m: Setup, order: seq<Name>) {
    && NoDup(order)
    && (forall j :: 0 <= j < |order| ==> order[j] in m.phase)
    && (forall i, j :: 0 <= i < j < |order| && m.phase[order[i]] == Active ==> m.phase[order[j]] == Active)
  }

  /** The facts about `resolve_order` that the machine rests on. */
  ghost predicate Sound(m: Setup) {
    forall names :: m.resolve(names).Some? ==>
      GoodOrder(m, m.resolve(names).value) && m.resolve(Elems(m.resolve(names).value)) == m.resolve(names)
  }

  ghost function SetupOf(c: Catalog): Setup {
    Setup(map n | n in c :: c[n].phase, names => Resolve(c, names))
  }

  /** The registry's `resolve_order` has them. */
  lemma RegistrySound(c: Catalog)
    ensures Sound(SetupOf(c))
  {
    var m := SetupOf(c);
    forall names | m.resolve(names).Some?
      ensures GoodOrder(m, m.resolve(names).value) && m.resolve(Elems(m.resolve(names).value)) == m.resolve(names)
    {
      ResolveSound(c, names);
      ResolveStable(c, names);
      var order := m.resolve(names).value;
      forall j | 0 <= j < |order| ensures order[j] in m.phase && m.phase[order[j]] == c[order[j]].phase {
        assert order[j] in Elems(order);
      }
    }
  }

  predicate Stopped(s: State) {
    s.handle == Some(true) || s.kill
  }

  /** The rows written by `start_scan`. */
  function FreshRows(requested: seq<Name>): map<Name, Row> {
    map n | n in requested :: Row(RowPending, None)
  }

  /** The state right after `start_scan`. */
  function StartState(requested: seq<Name>): State {
    State(requested, Running, false, [], FreshRows(requested), Launched, [], {},
          Some(false), 0, 0, false, true, [])
  }

  ghost predicate Init(m: Setup, s: State) {
    && (exists names: set<Name> :: m.resolve(names) == Some(s.requested))
    && s == StartState(s.requested)
  }

  // ------------------------------------------------------------------- steps

  predicate Resumable(s: State) {
    s.status == AwaitingCheckpoint || s.status == Paused
  }

  /** The executor is at a module of its list. */
  ghost predicate Here(s: State) {
    && (s.pc.AtModule? || s.pc.Admitted? || s.pc.Cleared? || s.pc.InBody? || s.pc.Appending? || s.pc.Ran? ||
      s.pc.Interrupted?)
    && s.pc.i < |s.ordered| && s.ordered[s.pc.i] in s.rows
  }

  ghost function Current(s: State): Name
    requires Here(s)
  {
    s.ordered[s.pc.i]
  }

  ghost predicate IsActive(m: Setup, n: Name) {
    n in m.phase && m.phase[n] == Active
  }

  ghost predicate MoveEnabled(m: Setup, s: State, a: Move) {
    match a
    case Read => s.pc == Launched && m.resolve(Elems(s.requested)).Some?
    case PassCheck => s.pc.AtModule? && Here(s) && !Stopped(s)
    case StopAtCheck => s.pc.AtModule? && Here(s) && Stopped(s)
    case LoopDone => s.pc.AtModule? && s.pc.i == |s.ordered|
    case Clear => s.pc.Admitted? && Here(s) && Current(s) !in s.done && (IsActive(m, Current(s)) ==> s.activeConfirmed)
    case HoldAtGate => s.pc.Admitted? && Here(s) && Current(s) !in s.done && IsActive(m, Current(s)) &&
      !s.activeConfirmed
    case Interrupt => s.pc.InBody? && Here(s) && Stopped(s)
    case Advance => s.pc.Ran? && Here(s)
  }

  ghost function DoMove(m: Setup, s: State, a: Move): State
    requires MoveEnabled(m, s, a)
  {
    match a
    case Read => s.(pc := AtModule(0), ordered := m.resolve(Elems(s.requested)).value, done := Elems(s.completed))
    case PassCheck => s.(pc := Admitted(s.pc.i))
    case StopAtCheck => s.(pc := Pausing)
    case LoopDone => s.(pc := Correlating(true, s.pc.i))
    case Clear => s.(pc := Cleared(s.pc.i))
    case HoldAtGate => s.(pc := Correlating(false, s.pc.i))
    case Interrupt => s.(pc := Interrupted(s.pc.i))
    case Advance => s.(pc := AtModule(s.pc.i + 1), done := if Stopped(s) then s.done else s.done + {Current(s)})
  }

  ghost predicate RowEnabled(s: State, a: RowWrite) {
    && Here(s)
    && match a
       case CarryOver => s.pc.Admitted? && Current(s) in s.done
       case Start => s.pc.Cleared?
       case Mark(_) => s.pc.InBody?
       case Return => s.pc.InBody?
       case Raise(_) => s.pc.InBody?
       case ResetRow => s.pc.Interrupted?
  }

  /** `_skip_if_pending` on one row. */
  function SkipIfPending(r: Row): Row {
    if r.status == RowCompleted || r.status == RowFailed then r else Row(RowSkipped, Some(ResumedPriorRun))
  }

  function NewRow(a: RowWrite, r: Row): Row {
    match a
    case CarryOver => SkipIfPending(r)
    case Start => r.(status := RowRunning)
    case Mark(reason) => Row(RowSkipped, if reason.Some? then reason else r.skipReason)
    case Return => if r.status == RowRunning then r.(status := RowCompleted) else r
    case Raise(timedOut) => if timedOut && r.status == RowCompleted then r else r.(status := RowFailed)
    case ResetRow => r.(status := RowPending)
  }

  function PcAfterRow(a: RowWrite, i: nat): Pc {
    match a
    case CarryOver => AtModule(i + 1)
    case Start => InBody(i)
    case Mark(_) => InBody(i)
    case Return => Appending(i)
    case Raise(_) => Ran(i)
    case ResetRow => Pausing
  }

  function RowEvents(a: RowWrite, n: Name, r: Row): seq<Event> {
    match a
    case CarryOver => []
    case Start => [Started(n)]
    case Mark(reason) => [Marked(n, reason)]
    case Return => [Ended(n, NewRow(a, r).status)]
    case Raise(_) => [Ended(n, NewRow(a, r).status)]
    case ResetRow => []
  }

  ghost function DoRow(s: State, a: RowWrite): State
    requires RowEnabled(s, a)
  {
    var n := Current(s);
    s.(rows := s.rows[n := NewRow(a, s.rows[n])], pc := PcAfterRow(a, s.pc.i),
      log := s.log + RowEvents(a, n, s.rows[n]))
  }

  /** The task has written its last status; it still has to close its HTTP client, and
      then to pop its handle. */
  function Leave(s: State): State {
    s.(pc := Idle, closing := s.closing + 1)
  }

  /** `except Exception` of `_execute`. */
  function FailIfRunning(status: RunStatus): RunStatus {
    if status == Running then Failed else status
  }

  ghost predicate RunEnabled(s: State, a: RunWrite) {
    match a
    case Append => s.pc.Appending? && Here(s)
    case Correlate => s.pc.Correlating?
    case Pause => s.pc == Pausing
    case EnterCheckpoint => s.pc.Checkpointing?
    case Finish => s.pc == Finishing
    case ExecutorRaises => s.pc != Idle
  }

  ghost function DoRun(s: State, a: RunWrite): State
    requires RunEnabled(s, a)
  {
    match a
    case Append =>
      s.(pc := Ran(s.pc.i), completed := if Current(s) in s.completed then s.completed else s.completed + [Current(s)])
    case Correlate =>
      s.(pc := if s.pc.final then Finishing else Checkpointing(s.pc.i), log := s.log + [Correlated])
    case Pause => Leave(s.(status := if s.status == Running then Paused else s.status))
    case EnterCheckpoint => Leave(s.(status := AwaitingCheckpoint, log := s.log + [CheckpointEntered]))
    case Finish => Leave(s.(status := Completed))
    case ExecutorRaises => s.(status := FailIfRunning(s.status), pc := Idle, unpopped := s.unpopped + 1)
  }

  ghost predicate OutsideEnabled(s: State, a: Outside) {
    match a
    case Cancel => s.up && s.handle.Some?
    case KillOn => s.up
    case KillOff => s.up
    case Preauthorise => s.up
    case Resume => s.up && Resumable(s) && !s.kill
    case Close(_) => s.up && s.closing > 0
    case PopHandle => s.up && s.unpopped > 0
    case Crash => s.up
    case Reap => !s.up
  }

  /** `reap_orphans` on the rows. */
  function ReapedRows(rows: map<Name, Row>): map<Name, Row> {
    map n | n in rows :: if rows[n].status == RowRunning then rows[n].(status := RowPending) else rows[n]
  }

  ghost function DoOutside(s: State, a: Outside): State
    requires OutsideEnabled(s, a)
  {
    match a
    case Cancel => s.(handle := Some(true))
    case KillOn => s.(kill := true)
    case KillOff => s.(kill := false)
    case Preauthorise => s.(activeConfirmed := true, log := s.log + [Authorised(false)])
    case Resume =>
      var held := s.status == AwaitingCheckpoint;
      s.(activeConfirmed := s.activeConfirmed || held, log := if held then s.log + [Authorised(true)] else s.log,
         status := Running, pc := Launched, handle := Some(false))
    case Close(raises) =>
      s.(status := if raises then FailIfRunning(s.status) else s.status, closing := s.closing - 1,
        unpopped := s.unpopped + 1)
    case PopHandle => s.(handle := None, unpopped := s.unpopped - 1)
    case Crash => s.(up := false, pc := Idle, handle := None, closing := 0, unpopped := 0, kill := false)
    case Reap => s.(up := true, status := if s.status == Running then Paused else s.status, rows := ReapedRows(s.rows))
  }

  ghost predicate Enabled(m: Setup, s: State, a: Action) {
    match a
    case Moves(x) => MoveEnabled(m, s, x)
    case WritesRow(x) => RowEnabled(s, x)
    case WritesRun(x) => RunEnabled(s, x)
    case Acts(x) => OutsideEnabled(s, x)
  }

  ghost function Apply(m: Setup, s: State, a: Action): State
    requires Enabled(m, s, a)
  {
    match a
    case Moves(x) => DoMove(m, s, x)
    case WritesRow(x) => DoRow(s, x)
    case WritesRun(x) => DoRun(s, x)
    case Acts(x) => DoOutside(s, x)
  }

  // --------------------------------------------------------------- executions

  ghost predicate Valid(m: Setup, s: State, acts: seq<Action>)
    decreases |acts|, 0
  {
    acts == [] || (Valid(m, s, acts[..|acts| - 1]) && Enabled(m, After(m, s, acts[..|acts| - 1]), acts[|acts| - 1]))
  }

  ghost function After(m: Setup, s: State, acts: seq<Action>): State
    requires Valid(m, s, acts)
    decreases |acts|, 1
  {
    if acts == [] then s else Apply(m, After(m, s, acts[..|acts| - 1]), acts[|acts| - 1])
  }

  ghost predicate Reachable(m: Setup, s: State) {
    exists s0, acts :: Init(m, s0) && Valid(m, s0, acts) && After(m, s0, acts) == s
  }

  // ---------------------------------------------------------------- invariant

  predicate Terminal(r: Row) {
    r.status == RowCompleted || r.status == RowFailed || r.status == RowSkipped
  }

  predicate Succeeded(r: Row) {
    r.status == RowCompleted || r.status == RowSkipped
  }

  /** A correlation ran and no module has started or ended since. */
  predicate Fresh(log: seq<Event>) {
    log != [] &&
    match log[|log| - 1]
    case Correlated => true
    case CheckpointEntered => Fresh(log[..|log| - 1])
    case Authorised(_) => Fresh(log[..|log| - 1])
    case _ => false
  }

  /** The last event apart from authorisations is the entry of the checkpoint. */
  predicate OnHold(log: seq<Event>) {
    log != [] &&
    match log[|log| - 1]
    case CheckpointEntered => true
    case Authorised(_) => OnHold(log[..|log| - 1])
    case _ => false
  }

  ghost predicate IsAuthorised(log: seq<Event>) {
    Authorised(true) in log || Authorised(false) in log
  }

  /** Every start of an active module follows an authorisation, and an authorisation by
      resume follows directly on the hold at the checkpoint. */
  ghost predicate SafeLog(m: Setup, log: seq<Event>) {
    forall k :: 0 <= k < |log| ==>
      && (log[k].Started? && log[k].name in m.phase && m.phase[log[k].name] == Active ==> IsAuthorised(log[..k]))
      && (log[k] == Authorised(true) ==> OnHold(log[..k]))
  }

  ghost predicate Static(m: Setup, s: State) {
    && m.resolve(Elems(s.requested)) == Some(s.requested)
    && GoodOrder(m, s.requested)
    && s.rows.Keys == Elems(s.requested)
    && (InLoop(s.pc) ==> s.ordered == s.requested)
  }

  /** The loop position: modules before it have been dealt with in this launch. */
  function Position(pc: Pc): nat {
    match pc
    case AtModule(i) => i
    case Admitted(i) => i
    case Cleared(i) => i
    case InBody(i) => i
    case Appending(i) => i
    case Ran(i) => i + 1
    case Interrupted(i) => i
    case Correlating(_, i) => i
    case Checkpointing(i) => i
    case _ => 0
  }

  predicate InLoop(pc: Pc) {
    pc.AtModule? || pc.Admitted? || pc.Cleared? || pc.InBody? || pc.Appending? || pc.Ran? || pc.Interrupted?
    || pc.Correlating? || pc.Checkpointing?
  }

  /** The first `n` modules of the order have ended, and are in `modules_completed` if
      they succeeded. */
  ghost predicate DealtWith(requested: seq<Name>, rows: map<Name, Row>, completed: seq<Name>, log: seq<Event>, n: nat) {
    n <= |requested| &&
    forall j :: 0 <= j < n ==>
      && requested[j] in rows && Terminal(rows[requested[j]])
      && (Succeeded(rows[requested[j]]) ==> requested[j] in completed)
      && Started(requested[j]) in log
  }

  /** `done` and `modules_completed` agree from position `n` on. */
  ghost predicate Agree(requested: seq<Name>, done: set<Name>, completed: seq<Name>, n: nat) {
    forall j :: n <= j < |requested| ==> (requested[j] in done <==> requested[j] in completed)
  }

  ghost predicate PassiveDone(m: Setup, requested: seq<Name>, rows: map<Name, Row>) {
    forall n :: n in requested && n in m.phase && m.phase[n] != Active ==> n in rows && Terminal(rows[n])
  }

  ghost predicate AllDealtWith(s: State) {
    DealtWith(s.requested, s.rows, s.completed, s.log, |s.requested|)
  }

  ghost predicate DealtInv(s: State) {
    InLoop(s.pc) ==> DealtWith(s.requested, s.rows, s.completed, s.log, Position(s.pc))
  }

  ghost predicate AgreeInv(s: State) {
    InLoop(s.pc) ==> Agree(s.requested, s.done, s.completed,
      if s.pc.Ran? || s.pc.AtModule? || s.pc.Admitted? then Position(s.pc) else Position(s.pc) + 1)
  }

  ghost predicate LoopInv(s: State) {
    DealtInv(s) && AgreeInv(s)
  }

  /** What holds for the module the executor is at. */
  ghost predicate ModuleInv(m: Setup, s: State) {
    (s.pc.Admitted? || s.pc.Cleared? || s.pc.InBody? || s.pc.Appending? || s.pc.Ran? || s.pc.Interrupted? ==>
        && s.pc.i < |s.requested|
        && var n := s.requested[s.pc.i];
           && n in s.rows && n in m.phase
           && (s.pc.Admitted? ==> (n in s.done <==> n in s.completed))
           && (!s.pc.Admitted? && !s.pc.Ran? ==> n !in s.completed)
           && (s.pc.Cleared? && m.phase[n] == Active ==> s.activeConfirmed)
           && (s.pc.InBody? || s.pc.Appending? || s.pc.Interrupted? ==> Started(n) in s.log)
           && (s.pc.InBody? || s.pc.Interrupted? ==> s.rows[n].status == RowRunning || s.rows[n].status == RowSkipped)
           && (s.pc.Appending? ==> Succeeded(s.rows[n])))
  }

  ghost predicate TailInv(m: Setup, s: State) {
    && (s.pc != Idle ==> s.up && (s.status == Running || s.status == Failed))
    && (s.up && s.status == Running ==> s.pc != Idle)
    && (s.pc.Correlating? ==> if s.pc.final then s.pc.i == |s.requested| else PassiveDone(m, s.requested, s.rows))
    && (s.pc.Checkpointing? ==> PassiveDone(m, s.requested, s.rows) && Fresh(s.log))
    && (s.pc == Finishing ==> AllDealtWith(s) && Fresh(s.log))
  }

  ghost predicate StatusInv(m: Setup, s: State) {
    && (s.status == AwaitingCheckpoint ==> PassiveDone(m, s.requested, s.rows) && Fresh(s.log) && OnHold(s.log))
    && (s.status == Completed ==> AllDealtWith(s) && Fresh(s.log))
  }

  ghost predicate RowInv(s: State) {
    forall n :: n in s.rows && s.rows[n].status == RowRunning ==>
      || ((s.pc.InBody? || s.pc.Interrupted?) && s.pc.i < |s.requested| && n == s.requested[s.pc.i])
      || (!s.up && s.status == Running)
      || (s.status == Failed && s.pc == Idle)
  }

  ghost predicate CompletedInv(s: State) {
    && NoDup(s.completed)
    && (forall n :: n in s.completed ==> n in s.rows && Succeeded(s.rows[n]) && Started(n) in s.log)
  }

  ghost predicate LogInv(m: Setup, s: State) {
    && SafeLog(m, s.log)
    && (s.activeConfirmed <==> IsAuthorised(s.log))
    && StartsInv(s)
  }

  /** The modules ever started form a prefix of the order. */
  ghost predicate StartsInv(s: State) {
    && (forall n :: Started(n) in s.log ==> n in s.requested)
    && (forall j, k :: 0 <= j < k < |s.requested| && Started(s.requested[k]) in s.log ==>
      Started(s.requested[j]) in s.log)
  }

  ghost predicate Inv(m: Setup, s: State) {
    Static(m, s) && LoopInv(s) && ModuleInv(m, s) && TailInv(m, s) && StatusInv(m, s) && RowInv(s) &&
      CompletedInv(s) && LogInv(m, s)
  }

  // --------------------------------------------------------- inductive steps

  lemma InitInv(m: Setup, s: State)
    requires Sound(m) && Init(m, s)
    ensures Inv(m, s)
  {
  }

  lemma SafeAppend(m: Setup, log: seq<Event>, e: Event)
    requires SafeLog(m, log)
    requires e.Started? && e.name in m.phase && m.phase[e.name] == Active ==> IsAuthorised(log)
    requires e == Authorised(true) ==> OnHold(log)
    ensures SafeLog(m, log + [e])
  {
    var l := log + [e];
    forall k | 0 <= k < |l| ensures l[..k] == if k < |log| then log[..k] else log {
    }
  }

  lemma MoveKeepsRows(m: Setup, s: State, a: Move)
    requires Static(m, s) && RowInv(s) && MoveEnabled(m, s, a)
    ensures var t := DoMove(m, s, a); Static(m, t) && RowInv(t)
  {
  }

  lemma MoveKeepsLists(m: Setup, s: State, a: Move)
    requires CompletedInv(s) && MoveEnabled(m, s, a)
    ensures var t := DoMove(m, s, a); CompletedInv(t)
  {
  }

  lemma MoveKeepsDealt(m: Setup, s: State, a: Move)
    requires Static(m, s) && DealtInv(s) && MoveEnabled(m, s, a)
    ensures DealtInv(DoMove(m, s, a))
  {
  }

  lemma MoveKeepsAgree(m: Setup, s: State, a: Move)
    requires Static(m, s) && AgreeInv(s) && MoveEnabled(m, s, a)
    ensures AgreeInv(DoMove(m, s, a))
  {
  }

  lemma MoveKeepsModule(m: Setup, s: State, a: Move)
    requires Static(m, s) && LoopInv(s) && ModuleInv(m, s) && MoveEnabled(m, s, a)
    ensures ModuleInv(m, DoMove(m, s, a))
  {
  }

  lemma MoveKeepsTail(m: Setup, s: State, a: Move)
    requires Static(m, s) && LoopInv(s) && ModuleInv(m, s) && TailInv(m, s) && StatusInv(m, s) && MoveEnabled(m, s, a)
    ensures var t := DoMove(m, s, a); TailInv(m, t) && StatusInv(m, t)
  {
  }

  lemma MoveKeepsLog(m: Setup, s: State, a: Move)
    requires LogInv(m, s) && MoveEnabled(m, s, a)
    ensures LogInv(m, DoMove(m, s, a))
  {
  }

  lemma RowKeepsRows(m: Setup, s: State, a: RowWrite)
    requires Static(m, s) && ModuleInv(m, s) && TailInv(m, s) && RowInv(s) && CompletedInv(s) && RowEnabled(s, a)
    ensures var t := DoRow(s, a); Static(m, t) && RowInv(t)
  {
  }

  lemma RowKeepsLists(m: Setup, s: State, a: RowWrite)
    requires Static(m, s) && ModuleInv(m, s) && CompletedInv(s) && RowEnabled(s, a)
    ensures var t := DoRow(s, a); CompletedInv(t)
  {
  }

  lemma RowKeepsDealt(m: Setup, s: State, a: RowWrite)
    requires Static(m, s) && DealtInv(s) && ModuleInv(m, s) && CompletedInv(s) && RowEnabled(s, a)
    ensures DealtInv(DoRow(s, a))
  {
    assert Current(s) == s.requested[s.pc.i];
  }

  lemma RowKeepsAgree(m: Setup, s: State, a: RowWrite)
    requires Static(m, s) && AgreeInv(s) && RowEnabled(s, a)
    ensures AgreeInv(DoRow(s, a))
  {
  }

  lemma RowKeepsModule(m: Setup, s: State, a: RowWrite)
    requires Static(m, s) && LoopInv(s) && ModuleInv(m, s) && RowEnabled(s, a)
    ensures ModuleInv(m, DoRow(s, a))
  {
  }

  lemma RowKeepsTail(m: Setup, s: State, a: RowWrite)
    requires Static(m, s) && TailInv(m, s) && StatusInv(m, s) && RowEnabled(s, a)
    ensures var t := DoRow(s, a); TailInv(m, t) && StatusInv(m, t)
  {
  }

  lemma RowKeepsStarts(m: Setup, s: State, a: RowWrite)
    requires Static(m, s) && LoopInv(s) && ModuleInv(m, s) && StartsInv(s) && RowEnabled(s, a)
    ensures StartsInv(DoRow(s, a))
  {
    var t, i := DoRow(s, a), s.pc.i;
    assert Current(s) == s.requested[i];
    assert a != Start ==> forall n :: Started(n) in t.log <==> Started(n) in s.log;
    assert a == Start ==> forall n :: Started(n) in t.log <==> Started(n) in s.log || n == Current(s);
    forall j, k | 0 <= j < k < |s.requested| && Started(s.requested[k]) in t.log
      ensures Started(s.requested[j]) in t.log
    {
      if Started(s.requested[k]) !in s.log {
        assert k == i;
      }
    }
  }

  lemma RowKeepsAuthority(m: Setup, s: State, a: RowWrite)
    requires ModuleInv(m, s) && RowEnabled(s, a) && (InLoop(s.pc) ==> s.ordered == s.requested)
    requires SafeLog(m, s.log) && (s.activeConfirmed <==> IsAuthorised(s.log))
    ensures var t := DoRow(s, a); SafeLog(m, t.log) && (t.activeConfirmed <==> IsAuthorised(t.log))
  {
    var es := RowEvents(a, Current(s), s.rows[Current(s)]);
    if es != [] {
      assert s.log + es == s.log + [es[0]];
      SafeAppend(m, s.log, es[0]);
    } else {
      assert s.log + es == s.log;
    }
  }

  lemma RowKeepsLog(m: Setup, s: State, a: RowWrite)
    requires Inv(m, s) && RowEnabled(s, a)
    ensures LogInv(m, DoRow(s, a))
  {
    RowKeepsStarts(m, s, a);
    RowKeepsAuthority(m, s, a);
  }

  lemma RunKeepsRows(m: Setup, s: State, a: RunWrite)
    requires Static(m, s) && TailInv(m, s) && RowInv(s) && RunEnabled(s, a)
    ensures var t := DoRun(s, a); Static(m, t) && RowInv(t)
  {
  }

  lemma RunKeepsLists(m: Setup, s: State, a: RunWrite)
    requires Static(m, s) && ModuleInv(m, s) && TailInv(m, s) && CompletedInv(s) && RunEnabled(s, a)
    ensures var t := DoRun(s, a); CompletedInv(t)
  {
  }

  lemma RunKeepsDealt(m: Setup, s: State, a: RunWrite)
    requires Static(m, s) && DealtInv(s) && ModuleInv(m, s) && RunEnabled(s, a)
    ensures DealtInv(DoRun(s, a))
  {
    if a == Append { assert s.requested[s.pc.i] in DoRun(s, a).completed; }
  }

  lemma RunKeepsAgree(m: Setup, s: State, a: RunWrite)
    requires Static(m, s) && AgreeInv(s) && ModuleInv(m, s) && RunEnabled(s, a)
    ensures AgreeInv(DoRun(s, a))
  {
    if a == Append {
      forall j | s.pc.i + 1 <= j < |s.requested| ensures s.requested[j] != Current(s) {
      }
    }
  }

  lemma RunKeepsModule(m: Setup, s: State, a: RunWrite)
    requires Static(m, s) && LoopInv(s) && ModuleInv(m, s) && RunEnabled(s, a)
    ensures ModuleInv(m, DoRun(s, a))
  {
  }

  lemma RunKeepsTail(m: Setup, s: State, a: RunWrite)
    requires Static(m, s) && LoopInv(s) && TailInv(m, s) && StatusInv(m, s) && RunEnabled(s, a)
    ensures var t := DoRun(s, a); TailInv(m, t) && StatusInv(m, t)
  {
  }

  lemma RunKeepsLog(m: Setup, s: State, a: RunWrite)
    requires TailInv(m, s) && LogInv(m, s) && RunEnabled(s, a)
    ensures LogInv(m, DoRun(s, a))
  {
    if a == Correlate { SafeAppend(m, s.log, Correlated); }
    if a == EnterCheckpoint { SafeAppend(m, s.log, CheckpointEntered); }
  }

  lemma OutsideKeepsRows(m: Setup, s: State, a: Outside)
    requires Static(m, s) && TailInv(m, s) && RowInv(s) && OutsideEnabled(s, a)
    ensures var t := DoOutside(s, a); Static(m, t) && RowInv(t)
  {
  }

  lemma OutsideKeepsLists(m: Setup, s: State, a: Outside)
    requires TailInv(m, s) && CompletedInv(s) && OutsideEnabled(s, a)
    ensures var t := DoOutside(s, a); CompletedInv(t)
  {
  }

  lemma OutsideKeepsDealt(m: Setup, s: State, a: Outside)
    requires DealtInv(s) && TailInv(m, s) && OutsideEnabled(s, a)
    ensures DealtInv(DoOutside(s, a))
  {
  }

  lemma OutsideKeepsAgree(m: Setup, s: State, a: Outside)
    requires AgreeInv(s) && TailInv(m, s) && OutsideEnabled(s, a)
    ensures AgreeInv(DoOutside(s, a))
  {
  }

  lemma OutsideKeepsModule(m: Setup, s: State, a: Outside)
    requires ModuleInv(m, s) && TailInv(m, s) && OutsideEnabled(s, a)
    ensures ModuleInv(m, DoOutside(s, a))
  {
  }

  lemma OutsideKeepsTail(m: Setup, s: State, a: Outside)
    requires TailInv(m, s) && StatusInv(m, s) && OutsideEnabled(s, a)
    ensures var t := DoOutside(s, a); TailInv(m, t) && StatusInv(m, t)
  {
  }

  lemma OutsideKeepsLog(m: Setup, s: State, a: Outside)
    requires StatusInv(m, s) && LogInv(m, s) && OutsideEnabled(s, a)
    ensures LogInv(m, DoOutside(s, a))
  {
    if a == Preauthorise { SafeAppend(m, s.log, Authorised(false)); }
    if a == Resume && s.status == AwaitingCheckpoint { SafeAppend(m, s.log, Authorised(true)); }
  }

  lemma StepKeepsInv(m: Setup, s: State, a: Action)
    requires Inv(m, s) && Enabled(m, s, a)
    ensures Inv(m, Apply(m, s, a))
  {
    match a
    case Moves(x) =>
      MoveKeepsRows(m, s, x); MoveKeepsLists(m, s, x); MoveKeepsDealt(m, s, x); MoveKeepsAgree(m, s, x);
      MoveKeepsModule(m, s, x); MoveKeepsTail(m, s, x); MoveKeepsLog(m, s, x);
    case WritesRow(x) =>
      RowKeepsRows(m, s, x); RowKeepsLists(m, s, x); RowKeepsDealt(m, s, x); RowKeepsAgree(m, s, x);
      RowKeepsModule(m, s, x); RowKeepsTail(m, s, x); RowKeepsLog(m, s, x);
    case WritesRun(x) =>
      RunKeepsRows(m, s, x); RunKeepsLists(m, s, x); RunKeepsDealt(m, s, x); RunKeepsAgree(m, s, x);
      RunKeepsModule(m, s, x); RunKeepsTail(m, s, x); RunKeepsLog(m, s, x);
    case Acts(x) =>
      OutsideKeepsRows(m, s, x); OutsideKeepsLists(m, s, x); OutsideKeepsDealt(m, s, x); OutsideKeepsAgree(m, s, x);
      OutsideKeepsModule(m, s, x); OutsideKeepsTail(m, s, x); OutsideKeepsLog(m, s, x);
  }

  lemma {:induction false} RunKeepsInv(m: Setup, s: State, acts: seq<Action>)
    requires Inv(m, s) && Valid(m, s, acts)
    ensures Inv(m, After(m, s, acts))
    decreases |acts|
  {
    if acts != [] {
      RunKeepsInv(m, s, acts[..|acts| - 1]);
      StepKeepsInv(m, After(m, s, acts[..|acts| - 1]), acts[|acts| - 1]);
    }
  }

  lemma ReachableInv(m: Setup, s: State)
    requires Sound(m) && Reachable(m, s)
    ensures Inv(m, s)
  {
    var s0, acts :| Init(m, s0) && Valid(m, s0, acts) && After(m, s0, acts) == s;
    InitInv(m, s0);
    RunKeepsInv(m, s0, acts);
  }
}
