/** recon/orchestrator/scans.py in its own form: one run's rows, the process state beside
    them, and the methods that change them. Every method is a path of the scan machine. */
module ScanOrchestrator {
  import opened Prelude
  import opened Registry
  import opened ScanMachine
  import opened ScanSafety

  datatype ScanError = NoModules | KillSwitchEngaged | Unresolved(error: ResolveError) | NotResumable(status: RunStatus)

  /** A property of states that the machine's steps keep. */
  ghost predicate ClosedUnderSteps(m: Setup, k: State -> bool) {
    forall s, a :: k(s) && Enabled(m, s, a) ==> k(Apply(m, s, a))
  }

  lemma OnStep(m: Setup, k: State -> bool, s: State, a: Action)
    requires ClosedUnderSteps(m, k) && k(s) && Enabled(m, s, a)
    ensures k(Apply(m, s, a))
  {
  }

  /** Being reachable is such a property, and so is every property of the safety module. */
  lemma ReachableIsClosed(m: Setup)
    ensures ClosedUnderSteps(m, s => Reachable(m, s))
  {
    var k := (s: State) => Reachable(m, s);
    forall s, a | k(s) && Enabled(m, s, a) ensures k(Apply(m, s, a)) {
      ReachStep(m, s, a);
    }
  }

  lemma StoredOrderKnown(catalog: Catalog, order: seq<Name>)
    requires Resolve(catalog, Elems(order)) == Some(order)
    ensures forall x :: x in order ==> x in catalog
  {
    ResolveSound(catalog, Elems(order));
    assert forall x :: x in order ==> x in Elems(order);
  }

  class ScanService {
    const catalog: Catalog
    ghost const m: Setup

    // the ScanRun row
    var requested: seq<Name>
    var status: RunStatus
    var activeConfirmed: bool
    var completed: seq<Name>
    // the ScanModuleRun rows
    var rows: map<Name, Row>
    // process state: whether it lives, the handle's cancel event, the kill switch, and
    // the finished tasks that have not closed their client, or not popped the handle yet
    var up: bool
    var handle: Option<bool>
    var kill: bool
    var closing: nat
    var unpopped: nat
    // locals of the executor task
    var ordered: seq<Name>
    var done: set<Name>

    ghost var pc: Pc
    ghost var log: seq<Event>

    ghost function Now(): State
      reads this
    {
      State(requested, status, activeConfirmed, completed, rows, pc, ordered, done, handle, closing, unpopped, kill,
        up, log)
    }

    /** `k` holds now and is kept by the machine's steps. The methods below keep every
        such `k`: whatever is proved of all steps of the machine holds of them. */
    ghost predicate On(k: State -> bool)
      reads this
    {
      ClosedUnderSteps(m, k) && k(Now())
    }

    constructor (catalog: Catalog, ordered: seq<Name>)
      ensures this.catalog == catalog && m == SetupOf(catalog) && Now() == StartState(ordered)
    {
      this.catalog, this.m := catalog, SetupOf(catalog);
      this.requested, this.status, this.activeConfirmed, this.completed := ordered, Running, false, [];
      this.rows := FreshRows(ordered);
      this.handle, this.kill, this.ordered, this.done := Some(false), false, [], {};
      this.pc, this.closing, this.unpopped, this.up, this.log := Launched, 0, 0, true, [];
    }

    /** `start_scan`, with its refusals. */
    static method StartScan(catalog: Catalog, names: seq<Name>, killEngaged: bool)
        returns (r: Result<ScanService, ScanError>)
      ensures r.Ok? <==> names != [] && !killEngaged && Resolve(catalog, Elems(names)).Some?
      ensures r.Ok? ==> fresh(r.value) && r.value.catalog == catalog && r.value.m == SetupOf(catalog)
      ensures r.Ok? ==> Resolve(catalog, Elems(names)) == Some(r.value.requested) && Init(r.value.m, r.value.Now())
      ensures r.Err? && r.error == NoModules <==> names == []
      ensures r.Err? && r.error == KillSwitchEngaged <==> names != [] && killEngaged
    {
      if names == [] { return Err(NoModules); }
      if killEngaged { return Err(KillSwitchEngaged); }
      var order := ResolveOrder(catalog, names);
      if order.Err? { return Err(Unresolved(order.error)); }
      var s := new ScanService(catalog, order.value);
      assert s.m.resolve(Elems(names)) == Some(s.requested);
      r := Ok(s);
    }

    /** `resume_scan`. */
    method ResumeScan(ghost k: State -> bool) returns (r: Result<(), ScanError>)
      requires On(k) && up
      modifies this
      ensures On(k)
      ensures r.Ok? <==> old(Resumable(Now())) && !old(kill)
      ensures r.Ok? ==> Now() == DoOutside(old(Now()), Resume)
      ensures r.Err? ==> Now() == old(Now())
    {
      if status != AwaitingCheckpoint && status != Paused {
        return Err(NotResumable(status));
      }
      if kill {
        return Err(KillSwitchEngaged);
      }
      OnStep(m, k, Now(), Acts(Resume));
      if status == AwaitingCheckpoint {
        activeConfirmed := true;
        log := log + [Authorised(true)];
      }
      status := Running;
      // _launch: a new cancel event on the old or a new handle, and a new task
      handle := Some(false);
      pc := Launched;
      r := Ok(());
    }

    /** `cancel_scan`: nothing happens without a handle. */
    method CancelScan(ghost k: State -> bool)
      requires On(k) && up
      modifies this
      ensures On(k)
      ensures Now() == if old(handle).Some? then DoOutside(old(Now()), Cancel) else old(Now())
    {
      if handle.Some? {
        OnStep(m, k, Now(), Acts(Cancel));
        handle := Some(true);
      }
    }

    /** `reap_orphans`, on startup. */
    method ReapOrphans(ghost k: State -> bool)
      requires On(k) && !up
      modifies this
      ensures On(k) && Now() == DoOutside(old(Now()), Reap)
      ensures rows.Keys == old(rows).Keys && status == if old(status) == Running then Paused else old(status)
      ensures forall n :: n in rows && old(rows)[n].status == RowRunning ==>
        rows[n].status == RowPending && rows[n].skipReason == old(rows)[n].skipReason
      ensures forall n :: n in rows && old(rows)[n].status != RowRunning ==> rows[n] == old(rows)[n]
    {
      OnStep(m, k, Now(), Acts(Reap));
      if status == Running {
        status := Paused;
      }
      rows := map n | n in rows :: if rows[n].status == RowRunning then rows[n].(status := RowPending) else rows[n];
      up := true;
    }

    // ------------------------------------------------------ interference

    /** `_preauthorize_active`. */
    method PreauthorizeActive(ghost k: State -> bool)
      requires On(k) && up
      modifies this
      ensures On(k) && Now() == DoOutside(old(Now()), Preauthorise)
    {
      OnStep(m, k, Now(), Acts(Preauthorise));
      activeConfirmed := true;
      log := log + [Authorised(false)];
    }

    method SetKillSwitch(ghost k: State -> bool, engaged: bool)
      requires On(k) && up
      modifies this
      ensures On(k) && Now() == DoOutside(old(Now()), if engaged then KillOn else KillOff)
    {
      OnStep(m, k, Now(), Acts(if engaged then KillOn else KillOff));
      kill := engaged;
    }

    /** `http.aclose()` of a task that ended earlier; if it raises, that task's `_execute`
        fails the run, also one that was resumed meanwhile. */
    method CloseOldClient(ghost k: State -> bool, raises: bool)
      requires On(k) && up && closing > 0
      modifies this
      ensures On(k) && Now() == DoOutside(old(Now()), Close(raises))
    {
      OnStep(m, k, Now(), Acts(Close(raises)));
      if raises && status == Running {
        status := Failed;
      }
      closing, unpopped := closing - 1, unpopped + 1;
    }

    /** The `finally` of a task that ended earlier. */
    method PopOldHandle(ghost k: State -> bool)
      requires On(k) && up && unpopped > 0
      modifies this
      ensures On(k) && Now() == DoOutside(old(Now()), PopHandle)
    {
      OnStep(m, k, Now(), Acts(PopHandle));
      handle := None;
      unpopped := unpopped - 1;
    }

    method Die(ghost k: State -> bool)
      requires On(k) && up
      modifies this
      ensures On(k) && Now() == DoOutside(old(Now()), Crash)
    {
      OnStep(m, k, Now(), Acts(Crash));
      up, pc, handle, closing, unpopped, kill := false, Idle, None, 0, 0, false;
    }

    /** Between two steps of the executor anything outside it may happen, any number of
        times; the process may also die, which ends the executor. */
    method Interference(ghost k: State -> bool) returns (alive: bool)
      requires On(k) && up && pc != Idle
      modifies this
      ensures On(k)
      ensures alive ==> up
      ensures alive ==> pc == old(pc) && rows == old(rows) && ordered == old(ordered)
      ensures alive ==> done == old(done) && completed == old(completed)
      ensures alive ==> (old(activeConfirmed) ==> activeConfirmed) && requested == old(requested)
      ensures !alive ==> pc == Idle
    {
      var rounds: nat := *;
      alive := true;
      while rounds > 0
        invariant On(k) && up && pc == old(pc) && rows == old(rows) && ordered == old(ordered) && done == old(done)
        invariant completed == old(completed) && requested == old(requested)
        invariant old(activeConfirmed) ==> activeConfirmed
      {
        rounds := rounds - 1;
        var event: nat := *;
        if event == 0 { CancelScan(k); }
        if event == 1 { SetKillSwitch(k, true); }
        if event == 2 { SetKillSwitch(k, false); }
        if event == 3 { PreauthorizeActive(k); }
        if event == 4 && unpopped > 0 { PopOldHandle(k); }
        if event == 5 && closing > 0 { CloseOldClient(k, false); }
        if event == 6 && closing > 0 { CloseOldClient(k, true); }
        if event == 7 {
          Die(k);
          return false;
        }
      }
    }

    // --------------------------------------------------- the executor's commits

    /** The stored order resolves to itself and every module of it has a row. */
    ghost predicate Ready()
      reads this
    {
      && m == SetupOf(catalog)
      && Resolve(catalog, Elems(requested)) == Some(requested)
      && HasRows(requested)
    }

    ghost predicate HasRows(names: seq<Name>)
      reads this
    {
      forall n :: n in names ==> n in rows
    }

    predicate IsCancelled()
      reads this
    {
      handle == Some(true) || kill
    }

    ghost method Move(k: State -> bool, a: Move)
      requires On(k) && MoveEnabled(m, Now(), a) && a != Read && a != Advance
      modifies this`pc
      ensures On(k) && Now() == DoMove(m, old(Now()), a)
    {
      OnStep(m, k, Now(), Moves(a));
      pc := DoMove(m, Now(), a).pc;
    }

    /** The first session of `_execute_inner`. */
    method ReadRun(ghost k: State -> bool)
      requires On(k) && up && pc == Launched && Ready()
      modifies this
      ensures On(k) && up && Ready() && ordered == requested == old(requested) && pc == AtModule(0)
      ensures MoveEnabled(m, old(Now()), Read) && Now() == DoMove(m, old(Now()), Read)
    {
      assert m.resolve(Elems(requested)) == Some(requested);
      OnStep(m, k, Now(), Moves(Read));
      var order := ResolveOrder(catalog, requested);
      ordered := order.value;
      done := set n | n in completed;
      pc := AtModule(0);
    }

    /** `_set_module_status(RUNNING)`. */
    method SetModuleRunning(ghost k: State -> bool, name: Name)
      requires On(k) && RowEnabled(Now(), Start) && name == Current(Now())
      modifies this
      ensures On(k) && Now() == DoRow(old(Now()), Start)
    {
      OnStep(m, k, Now(), WritesRow(Start));
      rows := rows[name := rows[name].(status := RowRunning)];
      log := log + [Started(name)];
      pc := InBody(pc.i);
    }

    /** `mark_skipped` (no reason) and `mark_no_input`. */
    method MarkSkipped(ghost k: State -> bool, name: Name, reason: Option<SkipReason>)
      requires On(k) && RowEnabled(Now(), Mark(reason)) && name == Current(Now())
      modifies this
      ensures On(k) && Now() == DoRow(old(Now()), Mark(reason))
    {
      OnStep(m, k, Now(), WritesRow(Mark(reason)));
      var skipReason := if reason.Some? then reason else rows[name].skipReason;
      rows := rows[name := Row(RowSkipped, skipReason)];
      log := log + [Marked(name, reason)];
    }

    /** The commit after a body that returned: an explicit skip is not overwritten. */
    method CommitReturn(ghost k: State -> bool, name: Name)
      requires On(k) && RowEnabled(Now(), Return) && name == Current(Now())
      modifies this
      ensures On(k) && Now() == DoRow(old(Now()), Return)
    {
      OnStep(m, k, Now(), WritesRow(Return));
      if rows[name].status == RowRunning {
        rows := rows[name := rows[name].(status := RowCompleted)];
      }
      assert rows == DoRow(old(Now()), Return).rows;
      log := log + [Ended(name, rows[name].status)];
      pc := Appending(pc.i);
    }

    /** `_force_module_failed` after a timeout, or the commit after an exception. */
    method CommitFailed(ghost k: State -> bool, name: Name, timedOut: bool)
      requires On(k) && RowEnabled(Now(), Raise(timedOut)) && name == Current(Now())
      modifies this
      ensures On(k) && Now() == DoRow(old(Now()), Raise(timedOut))
    {
      OnStep(m, k, Now(), WritesRow(Raise(timedOut)));
      if !timedOut || rows[name].status != RowCompleted {
        rows := rows[name := rows[name].(status := RowFailed)];
      }
      assert rows == DoRow(old(Now()), Raise(timedOut)).rows;
      log := log + [Ended(name, rows[name].status)];
      pc := Ran(pc.i);
    }

    method CommitPending(ghost k: State -> bool, name: Name)
      requires On(k) && RowEnabled(Now(), ResetRow) && name == Current(Now())
      modifies this
      ensures On(k) && Now() == DoRow(old(Now()), ResetRow)
    {
      OnStep(m, k, Now(), WritesRow(ResetRow));
      rows := rows[name := rows[name].(status := RowPending)];
      assert log + [] == log;
      pc := Pausing;
    }

    /** `_skip_if_pending`: returns whether the row was set SKIPPED. */
    method SkipIfNotRun(ghost k: State -> bool, name: Name) returns (skipped: bool)
      requires On(k) && RowEnabled(Now(), CarryOver) && name == Current(Now())
      modifies this
      ensures On(k) && Now() == DoRow(old(Now()), CarryOver)
      ensures skipped <==> old(rows)[name].status != RowCompleted && old(rows)[name].status != RowFailed
    {
      OnStep(m, k, Now(), WritesRow(CarryOver));
      if rows[name].status == RowCompleted || rows[name].status == RowFailed {
        skipped := false;
      } else {
        rows := rows[name := Row(RowSkipped, Some(ResumedPriorRun))];
        skipped := true;
      }
      assert rows == DoRow(old(Now()), CarryOver).rows;
      assert log + [] == log;
      pc := AtModule(pc.i + 1);
    }

    /** `_append_completed`. */
    method AppendCompleted(ghost k: State -> bool, name: Name)
      requires On(k) && RunEnabled(Now(), Append) && name == Current(Now())
      modifies this
      ensures On(k) && Now() == DoRun(old(Now()), Append)
    {
      OnStep(m, k, Now(), WritesRun(Append));
      if name !in completed {
        completed := completed + [name];
      }
      pc := Ran(pc.i);
    }

    /** `_pause`. */
    method PauseRun(ghost k: State -> bool)
      requires On(k) && pc == Pausing
      modifies this
      ensures On(k) && Now() == DoRun(old(Now()), Pause)
    {
      OnStep(m, k, Now(), WritesRun(Pause));
      if status == Running {
        status := Paused;
      }
      pc, closing := Idle, closing + 1;
    }

    /** `_correlate`, seen from the run: only the event counts here. */
    method CorrelateRun(ghost k: State -> bool)
      requires On(k) && pc.Correlating?
      modifies this
      ensures On(k) && Now() == DoRun(old(Now()), Correlate)
    {
      OnStep(m, k, Now(), WritesRun(Correlate));
      log := log + [Correlated];
      pc := if pc.final then Finishing else Checkpointing(pc.i);
    }

    /** `_await_checkpoint`. */
    method AwaitCheckpoint(ghost k: State -> bool)
      requires On(k) && pc.Checkpointing?
      modifies this
      ensures On(k) && Now() == DoRun(old(Now()), EnterCheckpoint)
    {
      OnStep(m, k, Now(), WritesRun(EnterCheckpoint));
      status := AwaitingCheckpoint;
      log := log + [CheckpointEntered];
      pc, closing := Idle, closing + 1;
    }

    /** `_finish`. */
    method FinishRun(ghost k: State -> bool)
      requires On(k) && pc == Finishing
      modifies this
      ensures On(k) && Now() == DoRun(old(Now()), Finish)
    {
      OnStep(m, k, Now(), WritesRun(Finish));
      status := Completed;
      pc, closing := Idle, closing + 1;
    }

    /** The `except Exception` of `_execute`. */
    method FailRun(ghost k: State -> bool)
      requires On(k) && pc != Idle
      modifies this
      ensures On(k) && Now() == DoRun(old(Now()), ExecutorRaises)
    {
      OnStep(m, k, Now(), WritesRun(ExecutorRaises));
      if status == Running {
        status := Failed;
      }
      pc, unpopped := Idle, unpopped + 1;
    }

    // ------------------------------------------------------------ the loop

    /** What may happen between two steps of the executor, or an exception that none of the
        handlers inside the loop catches: `_execute` then fails the run, and the executor
        is over. */
    method Meanwhile(ghost k: State -> bool) returns (goesOn: bool)
      requires On(k) && up && pc != Idle
      modifies this
      ensures On(k)
      ensures goesOn ==> up
      ensures goesOn ==> pc == old(pc) && rows == old(rows) && ordered == old(ordered)
      ensures goesOn ==> done == old(done) && completed == old(completed)
      ensures goesOn ==> (old(activeConfirmed) ==> activeConfirmed) && requested == old(requested)
      ensures !goesOn ==> pc == Idle
    {
      goesOn := Interference(k);
      if !goesOn { return; }
      var raises: bool := *;
      if raises {
        FailRun(k);
        return false;
      }
    }

    /** What a stretch of the executor's work on one module leaves alone. */
    twostate predicate SameLoop()
      reads this
    {
      && ordered == old(ordered) && requested == old(requested) && done == old(done)
      && rows.Keys == old(rows.Keys)
    }

    /** `_run_one_module` for a module past the checkpoint test. False when the executor is
        over: cancelled, failed, or the process died. An exception of the body fails the
        module, also while a cancel stands. */
    method RunOneModule(ghost k: State -> bool, name: Name) returns (goesOn: bool)
      requires On(k) && up && pc.Cleared? && Here(Now()) && name == Current(Now())
      modifies this
      ensures On(k)
      ensures goesOn ==> up && pc == Ran(old(pc).i) && SameLoop()
      ensures !goesOn ==> pc == Idle
    {
      SetModuleRunning(k, name);
      goesOn := RunBody(k, name);
      if !goesOn { return; }
      var outcome: nat := *;
      if outcome == 0 {
        goesOn := EndBody(k, name);
      } else if outcome == 1 && IsCancelled() {
        StopBody(k, name);
        goesOn := false;
      } else {
        var timedOut: bool := *;
        CommitFailed(k, name, timedOut);
      }
    }

    /** The body returned: its row, then `modules_completed`. */
    method EndBody(ghost k: State -> bool, name: Name) returns (goesOn: bool)
      requires On(k) && up && pc.InBody? && Here(Now()) && name == Current(Now())
      modifies this
      ensures On(k)
      ensures goesOn ==> up && pc == Ran(old(pc).i) && SameLoop()
      ensures !goesOn ==> pc == Idle
    {
      CommitReturn(k, name);
      goesOn := Meanwhile(k);
      if !goesOn { return; }
      AppendCompleted(k, name);
    }

    /** `mod.run`: any number of recorded skips, with anything happening in between. */
    method RunBody(ghost k: State -> bool, name: Name) returns (goesOn: bool)
      requires On(k) && up && pc.InBody? && Here(Now()) && name == Current(Now())
      modifies this
      ensures On(k)
      ensures goesOn ==> up && pc == old(pc) && SameLoop()
      ensures !goesOn ==> pc == Idle
    {
      var marks: nat := *;
      while marks > 0
        invariant On(k) && up && pc == old(pc) && Here(Now()) && name == Current(Now()) && SameLoop()
      {
        marks := marks - 1;
        goesOn := Meanwhile(k);
        if !goesOn { return; }
        var reason: Option<SkipReason> := *;
        MarkSkipped(k, name, reason);
      }
      goesOn := Meanwhile(k);
    }

    /** The `except ScanCancelled` branch. */
    method StopBody(ghost k: State -> bool, name: Name)
      requires On(k) && up && pc.InBody? && Here(Now()) && name == Current(Now()) && IsCancelled()
      modifies this
      ensures On(k) && pc == Idle
    {
      Move(k, Interrupt);
      var goesOn := Meanwhile(k);
      if !goesOn { return; }
      CommitPending(k, name);
      goesOn := Meanwhile(k);
      if !goesOn { return; }
      PauseRun(k);
    }

    /** `_active_ok` and what follows from it. True when the module may start. */
    method PassCheckpoint(ghost k: State -> bool, name: Name) returns (goesOn: bool)
      requires On(k) && up && pc.Admitted? && Here(Now()) && name == Current(Now()) && name !in done && name in catalog
      requires m == SetupOf(catalog)
      modifies this
      ensures On(k)
      ensures goesOn ==> up && pc == Cleared(old(pc).i) && rows == old(rows)
      ensures goesOn ==> ordered == old(ordered) && requested == old(requested) && done == old(done)
      ensures !goesOn ==> pc == Idle
    {
      if catalog[name].phase == Active && !activeConfirmed {
        Move(k, HoldAtGate);
        goesOn := Meanwhile(k);
        if !goesOn { return; }
        CorrelateRun(k);
        goesOn := Meanwhile(k);
        if !goesOn { return; }
        AwaitCheckpoint(k);
        return false;
      }
      Move(k, Clear);
      goesOn := Meanwhile(k);
    }

    /** The cancellation check at the top of the loop found a cancel or the kill switch. */
    method StopAtTop(ghost k: State -> bool)
      requires On(k) && up && pc.AtModule? && Here(Now()) && IsCancelled()
      modifies this
      ensures On(k) && pc == Idle
    {
      Move(k, StopAtCheck);
      var goesOn := Meanwhile(k);
      if !goesOn { return; }
      PauseRun(k);
    }

    /** One iteration of the loop. */
    method HandleModule(ghost k: State -> bool, name: Name) returns (goesOn: bool)
      requires On(k) && up && pc.AtModule? && Here(Now()) && name == Current(Now()) && name in catalog
      requires m == SetupOf(catalog)
      modifies this
      ensures On(k)
      ensures goesOn ==> up && pc == AtModule(old(pc).i + 1) && ordered == old(ordered) && rows.Keys == old(rows.Keys)
      ensures !goesOn ==> pc == Idle
    {
      goesOn := Meanwhile(k);
      if !goesOn { return; }
      if IsCancelled() {
        StopAtTop(k);
        return false;
      }
      Move(k, PassCheck);
      goesOn := Meanwhile(k);
      if !goesOn { return; }
      if name in done {
        var _ := SkipIfNotRun(k, name);
      } else {
        goesOn := HandlePending(k, name);
      }
    }

    /** The part of an iteration for a module that is not carried over. */
    method HandlePending(ghost k: State -> bool, name: Name) returns (goesOn: bool)
      requires On(k) && up && pc.Admitted? && Here(Now()) && name == Current(Now()) && name in catalog && name !in done
      requires m == SetupOf(catalog)
      modifies this
      ensures On(k)
      ensures goesOn ==> up && pc == AtModule(old(pc).i + 1) && ordered == old(ordered) && rows.Keys == old(rows.Keys)
      ensures !goesOn ==> pc == Idle
    {
      goesOn := PassCheckpoint(k, name);
      if !goesOn { return; }
      goesOn := RunOneModule(k, name);
      if !goesOn { return; }
      goesOn := Meanwhile(k);
      if !goesOn { return; }
      AdvanceLoop(k, name);
    }

    /** `_execute_inner`: the executor from launch to the end of its task, with anything
        happening in between, keeps whatever the machine's steps keep. */
    method ExecuteInner(ghost k: State -> bool)
      requires On(k) && up && pc == Launched && Ready()
      modifies this
      ensures On(k) && pc == Idle
    {
      ReadRun(k);
      StoredOrderKnown(catalog, requested);
      var n := |ordered|;
      for i := 0 to n
        invariant On(k) && up && pc == AtModule(i) && n == |ordered| && m == SetupOf(catalog)
        invariant HasRows(ordered) && forall x :: x in ordered ==> x in catalog
      {
        var goesOn := HandleModule(k, ordered[i]);
        if !goesOn { return; }
      }
      Conclude(k);
    }

    /** After the loop: the final correlation and COMPLETED. */
    method Conclude(ghost k: State -> bool)
      requires On(k) && up && pc.AtModule? && pc.i == |ordered|
      modifies this
      ensures On(k) && pc == Idle
    {
      Move(k, LoopDone);
      var goesOn := Meanwhile(k);
      if !goesOn { return; }
      CorrelateRun(k);
      goesOn := Meanwhile(k);
      if !goesOn { return; }
      FinishRun(k);
    }

    /** `completed.add` unless a cancel arrived meanwhile. */
    method AdvanceLoop(ghost k: State -> bool, name: Name)
      requires On(k) && MoveEnabled(m, Now(), Advance) && name == Current(Now())
      modifies this
      ensures On(k) && Now() == DoMove(m, old(Now()), Advance)
    {
      OnStep(m, k, Now(), Moves(Advance));
      if !IsCancelled() {
        done := done + {name};
      }
      pc := AtModule(pc.i + 1);
    }

    /** `_execute`: whatever happens, the task ends without an executor, and then closes its
        client, which may raise, and pops its handle. */
    method Execute(ghost k: State -> bool)
      requires On(k) && up && pc == Launched && Ready()
      modifies this
      ensures On(k) && pc == Idle
    {
      var goesOn := Meanwhile(k);
      if goesOn {
        ExecuteInner(k);
      }
      if up && closing > 0 {
        var raises: bool := *;
        CloseOldClient(k, raises);
      }
      if up && unpopped > 0 {
        PopOldHandle(k);
      }
    }
  }

  /** Any execution of the executor, from any reachable launch, ends in a reachable state, so
      the safety lemmas speak about it. */
  method ExecuteReachable(s: ScanService)
    requires s.up && s.pc == Launched && s.Ready() && Reachable(s.m, s.Now())
    modifies s
    ensures Reachable(s.m, s.Now()) && s.pc == Idle
  {
    ReachableIsClosed(s.m);
    s.Execute(x => Reachable(s.m, x));
  }
}
