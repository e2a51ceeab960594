/** What a run's module rows say about its history, and the history about the rows. */
module ScanHistory {
  import opened Prelude
  import opened Registry
  import opened ScanMachine

  predicate About(e: Event, n: Name) {
    (e.Started? || e.Marked? || e.Ended?) && e.name == n
  }

  /** The last thing that happened to the module. */
  function LastOf(log: seq<Event>, n: Name): Option<Event> {
    if log == [] then None
    else if About(log[|log| - 1], n) then Some(log[|log| - 1])
    else LastOf(log[..|log| - 1], n)
  }

  ghost predicate LastAt(log: seq<Event>, n: Name, k: nat) {
    && k < |log| && LastOf(log, n) == Some(log[k]) && About(log[k], n)
    && forall j :: k < j < |log| ==> !About(log[j], n)
  }

  lemma LastAppend(log: seq<Event>, e: Event, n: Name)
    ensures LastOf(log + [e], n) == if About(e, n) then Some(e) else LastOf(log, n)
  {
    assert (log + [e])[..|log|] == log;
  }

  /** It is the last one: it is in the log, and nothing about the module comes after it. */
  lemma {:induction false} LastIsLast(log: seq<Event>, n: Name)
    ensures LastOf(log, n).None? <==> forall k :: 0 <= k < |log| ==> !About(log[k], n)
    ensures LastOf(log, n).Some? ==> exists k :: 0 <= k < |log| && LastAt(log, n, k)
  {
    if log != [] {
      var last := |log| - 1;
      LastIsLast(log[..last], n);
      if About(log[last], n) {
        assert LastAt(log, n, last);
      } else if LastOf(log[..last], n).Some? {
        var k :| 0 <= k < last && LastAt(log[..last], n, k);
        forall j | k < j < |log| ensures !About(log[j], n) {
          if j < last { assert log[j] == log[..last][j]; }
        }
        assert LastAt(log, n, k);
      } else {
        forall k | 0 <= k < |log| ensures !About(log[k], n) {
          if k < last { assert log[k] == log[..last][k]; }
        }
      }
    }
  }

  /** The reason the module gave last, if it ever gave one. */
  function LastReason(log: seq<Event>, n: Name): Option<SkipReason> {
    if log == [] then None
    else
      var e := log[|log| - 1];
      if e.Marked? && e.name == n && e.reason.Some? then e.reason else LastReason(log[..|log| - 1], n)
  }

  lemma ReasonAppend(log: seq<Event>, e: Event, n: Name)
    ensures LastReason(log + [e], n) ==
      if e.Marked? && e.name == n && e.reason.Some? then e.reason else LastReason(log, n)
  {
    assert (log + [e])[..|log|] == log;
  }

  // -------------------------------------------------------------------- the laws

  /** An attempt at the module has begun and not ended. */
  predicate Begun(last: Option<Event>) {
    last.Some? && (last.value.Started? || last.value.Marked?)
  }

  /** What a row's status says about the last thing that happened to its module: a row is
      COMPLETED or FAILED only if its body ended so, SKIPPED only if the module marked itself
      in its last attempt, RUNNING only if that has just started; and PENDING only if no
      attempt was made or the last one never ended. */
  predicate Tells(status: RowStatus, last: Option<Event>) {
    match status
    case RowPending => last.None? || Begun(last)
    case RowRunning => last.Some? && last.value.Started?
    case RowCompleted => last.Some? && last.value.Ended? && last.value.row == RowCompleted
    case RowFailed => last.Some? && last.value.Ended? && last.value.row == RowFailed
    case RowSkipped => last.Some? && (last.value.Marked? || (last.value.Ended? && last.value.row == RowSkipped))
  }

  /** What may follow what: a module marks itself and ends only in an attempt, and it ends
      COMPLETED exactly if it has not marked itself in it. */
  predicate Follows(last: Option<Event>, e: Event) {
    match e
    case Marked(_, _) => Begun(last)
    case Ended(_, RowCompleted) => Begun(last) && last.value.Started?
    case Ended(_, RowSkipped) => Begun(last) && last.value.Marked?
    case Ended(_, RowFailed) => Begun(last)
    case Ended(_, _) => false
    case _ => true
  }

  ghost predicate Orderly(log: seq<Event>) {
    forall k :: 0 <= k < |log| && IsModuleEvent(log[k]) ==> Follows(LastOf(log[..k], log[k].name), log[k])
  }

  predicate IsModuleEvent(e: Event) {
    e.Started? || e.Marked? || e.Ended?
  }

  /** The reason in a row is the last one its module gave, unless the row was carried over. */
  ghost predicate ReasonTold(s: State, n: Name)
    requires n in s.rows
  {
    || s.rows[n].skipReason == LastReason(s.log, n)
    || (s.rows[n] == Row(RowSkipped, Some(ResumedPriorRun)) && n in s.completed)
  }

  ghost predicate RowsTold(s: State) {
    forall n :: n in s.rows ==> Tells(s.rows[n].status, LastOf(s.log, n))
  }

  ghost predicate ReasonsTold(s: State) {
    forall n :: n in s.rows ==> ReasonTold(s, n)
  }

  /** A body is running, or has just been interrupted. */
  ghost predicate BodyTold(s: State) {
    (s.pc.InBody? || s.pc.Interrupted?) && s.pc.i < |s.requested| ==> Begun(LastOf(s.log, s.requested[s.pc.i]))
  }

  ghost predicate HistoryInv(s: State) {
    RowsTold(s) && ReasonsTold(s) && BodyTold(s) && Orderly(s.log)
  }

  // ------------------------------------------------------------ inductive steps

  lemma OrderlyAppend(log: seq<Event>, e: Event)
    requires Orderly(log) && (IsModuleEvent(e) ==> Follows(LastOf(log, e.name), e))
    ensures Orderly(log + [e])
  {
    var more := log + [e];
    forall k | 0 <= k < |more| && IsModuleEvent(more[k]) ensures Follows(LastOf(more[..k], more[k].name), more[k]) {
      assert more[..k] == if k < |log| then log[..k] else log;
    }
  }

  /** An event about no module changes nothing. */
  lemma OtherEvent(s: State, t: State, e: Event)
    requires HistoryInv(s) && t.rows == s.rows && t.log == s.log + [e] && !IsModuleEvent(e) &&
      s.completed <= t.completed
    requires BodyTold(s) ==> (t.pc.InBody? || t.pc.Interrupted? ==> t.pc == s.pc) && t.requested == s.requested
    ensures HistoryInv(t)
  {
    OrderlyAppend(s.log, e);
    forall n ensures LastOf(t.log, n) == LastOf(s.log, n) && LastReason(t.log, n) == LastReason(s.log, n) {
      LastAppend(s.log, e, n);
      ReasonAppend(s.log, e, n);
    }
  }

  lemma MoveTells(m: Setup, s: State, a: Move)
    requires Inv(m, s) && HistoryInv(s) && MoveEnabled(m, s, a)
    ensures HistoryInv(DoMove(m, s, a))
  {
  }

  lemma RunTells(m: Setup, s: State, a: RunWrite)
    requires Inv(m, s) && HistoryInv(s) && RunEnabled(s, a)
    ensures HistoryInv(DoRun(s, a))
  {
    if a == Correlate { OtherEvent(s, DoRun(s, a), Correlated); }
    if a == EnterCheckpoint { OtherEvent(s, DoRun(s, a), CheckpointEntered); }
  }

  lemma OutsideTells(m: Setup, s: State, a: Outside)
    requires Inv(m, s) && HistoryInv(s) && OutsideEnabled(s, a)
    ensures HistoryInv(DoOutside(s, a))
  {
    if a == Preauthorise { OtherEvent(s, DoOutside(s, a), Authorised(false)); }
    if a == Resume && s.status == AwaitingCheckpoint { OtherEvent(s, DoOutside(s, a), Authorised(true)); }
  }

  /** The row and the events of the module the executor is at. */
  lemma RowTellsItself(m: Setup, s: State, a: RowWrite)
    requires Inv(m, s) && HistoryInv(s) && RowEnabled(s, a)
    ensures var n, t := Current(s), DoRow(s, a);
      Tells(t.rows[n].status, LastOf(t.log, n)) && Orderly(t.log) && BodyTold(t)
  {
    var n := Current(s);
    assert n == s.requested[s.pc.i];
    var es := RowEvents(a, n, s.rows[n]);
    if es == [] {
      assert s.log + es == s.log;
    } else {
      assert s.log + es == s.log + [es[0]];
      LastAppend(s.log, es[0], n);
      OrderlyAppend(s.log, es[0]);
    }
  }

  lemma RowTellsReason(m: Setup, s: State, a: RowWrite)
    requires Inv(m, s) && HistoryInv(s) && RowEnabled(s, a)
    ensures ReasonTold(DoRow(s, a), Current(s))
  {
    var n := Current(s);
    assert n == s.requested[s.pc.i];
    var es := RowEvents(a, n, s.rows[n]);
    if es == [] {
      assert s.log + es == s.log;
    } else {
      assert s.log + es == s.log + [es[0]];
      ReasonAppend(s.log, es[0], n);
    }
  }

  ghost predicate Told(s: State, n: Name) {
    n in s.rows && Tells(s.rows[n].status, LastOf(s.log, n)) && ReasonTold(s, n)
  }

  lemma RowTellsOthers(s: State, a: RowWrite, other: Name)
    requires RowEnabled(s, a) && Told(s, other) && other != Current(s)
    ensures Told(DoRow(s, a), other)
  {
    var n := Current(s);
    var es := RowEvents(a, n, s.rows[n]);
    if es == [] {
      assert s.log + es == s.log;
    } else {
      assert s.log + es == s.log + [es[0]];
      LastAppend(s.log, es[0], other);
      ReasonAppend(s.log, es[0], other);
    }
  }

  lemma RowTells(m: Setup, s: State, a: RowWrite)
    requires Inv(m, s) && HistoryInv(s) && RowEnabled(s, a)
    ensures HistoryInv(DoRow(s, a))
  {
    RowTellsItself(m, s, a);
    RowTellsReason(m, s, a);
    forall n | n in s.rows && n != Current(s) ensures Told(DoRow(s, a), n) {
      RowTellsOthers(s, a, n);
    }
    assert Told(DoRow(s, a), Current(s));
    AllTold(DoRow(s, a), s.rows.Keys);
  }

  lemma AllTold(t: State, names: set<Name>)
    requires t.rows.Keys == names && forall n :: n in names ==> Told(t, n)
    ensures RowsTold(t) && ReasonsTold(t)
  {
  }

  lemma StepTells(m: Setup, s: State, a: Action)
    requires Inv(m, s) && HistoryInv(s) && Enabled(m, s, a)
    ensures HistoryInv(Apply(m, s, a))
  {
    match a
    case Moves(x) => MoveTells(m, s, x);
    case WritesRow(x) => RowTells(m, s, x);
    case WritesRun(x) => RunTells(m, s, x);
    case Acts(x) => OutsideTells(m, s, x);
  }

  lemma {:induction false} RunsTell(m: Setup, s: State, acts: seq<Action>)
    requires Inv(m, s) && HistoryInv(s) && Valid(m, s, acts)
    ensures HistoryInv(After(m, s, acts))
    decreases |acts|
  {
    if acts != [] {
      var most := acts[..|acts| - 1];
      RunsTell(m, s, most);
      RunKeepsInv(m, s, most);
      StepTells(m, After(m, s, most), acts[|acts| - 1]);
    }
  }

  lemma ReachableHistory(m: Setup, s: State)
    requires Sound(m) && Reachable(m, s)
    ensures Inv(m, s) && HistoryInv(s)
  {
    var s0, acts :| Init(m, s0) && Valid(m, s0, acts) && After(m, s0, acts) == s;
    InitInv(m, s0);
    RunsTell(m, s0, acts);
    ReachableInv(m, s);
  }

  // --------------------------------------------------------------------- results

  /** Whether the last attempt at the module may still be going on: the executor is in its
      body, or the process or the executor died in it and nothing has cleaned up. */
  ghost predicate MayRun(s: State, n: Name) {
    || ((s.pc.InBody? || s.pc.Interrupted?) && s.pc.i < |s.requested| && n == s.requested[s.pc.i])
    || (!s.up && s.status == Running)
    || (s.status == Failed && s.pc == Idle)
  }

  /** In every reachable state the history of a module determines its row: no event means
      PENDING; an ended body left its status; an attempt that has not ended is RUNNING (or
      SKIPPED once the module has marked itself) while it may go on, and otherwise PENDING
      again, or SKIPPED. */
  lemma RowsTellHistory(m: Setup, s: State, n: Name)
    requires Sound(m) && Reachable(m, s) && n in s.requested
    ensures n in s.rows && Tells(s.rows[n].status, LastOf(s.log, n))
    ensures LastOf(s.log, n) == None ==> s.rows[n].status == RowPending
    ensures LastOf(s.log, n).Some? && LastOf(s.log, n).value.Ended? ==> s.rows[n].status == LastOf(s.log, n).value.row
    ensures Begun(LastOf(s.log, n)) && LastOf(s.log, n).value.Marked? ==>
      s.rows[n].status == RowSkipped || s.rows[n].status == RowPending
    ensures Begun(LastOf(s.log, n)) && LastOf(s.log, n).value.Started? ==>
      s.rows[n].status == RowRunning || s.rows[n].status == RowPending
    ensures s.rows[n].status == RowRunning ==> MayRun(s, n)
    ensures ReasonTold(s, n) && Orderly(s.log)
  {
    ReachableHistory(m, s);
    LastIsLast(s.log, n);
  }

  /** A SKIPPED row was marked so by its own module in this run. */
  lemma SkippedWasMarked(m: Setup, s: State, n: Name)
    requires Sound(m) && Reachable(m, s) && n in s.rows && s.rows[n].status == RowSkipped
    ensures exists reason :: Marked(n, reason) in s.log
  {
    ReachableHistory(m, s);
    LastIsLast(s.log, n);
    var k :| 0 <= k < |s.log| && LastAt(s.log, n, k);
    if s.log[k].Ended? {
      assert Follows(LastOf(s.log[..k], n), s.log[k]);
      LastIsLast(s.log[..k], n);
      var j :| 0 <= j < k && LastAt(s.log[..k], n, j);
      assert s.log[j] == s.log[..k][j];
      assert Marked(n, s.log[j].reason) in s.log;
    } else {
      assert Marked(n, s.log[k].reason) in s.log;
    }
  }

  /** A restart makes every row that was RUNNING PENDING again, keeps its reason, and changes
      no other row; afterwards no row is RUNNING, unless the run is FAILED. Such a module had
      begun and not ended, and it runs again: it is not in `modules_completed`. */
  lemma ReapedRowsArePending(m: Setup, s: State, n: Name)
    requires Sound(m) && Reachable(m, s) && OutsideEnabled(s, Reap) && n in s.rows
    ensures var t := DoOutside(s, Reap);
      && t.rows.Keys == s.rows.Keys && t.log == s.log && t.completed == s.completed
      && (s.rows[n].status == RowRunning ==>
        && t.rows[n].status == RowPending && t.rows[n].skipReason == s.rows[n].skipReason
        && LastOf(s.log, n) == Some(Started(n)) && n !in s.completed)
      && (s.rows[n].status != RowRunning ==> t.rows[n] == s.rows[n])
      && (t.rows[n].status == RowRunning ==> t.status == Failed)
  {
    ReachableHistory(m, s);
    LastIsLast(s.log, n);
  }

  /** A cancelled body leaves its row PENDING, and all others as they are; its module had
      begun and not ended, and it runs again. */
  lemma CancelledRowIsPending(m: Setup, s: State, n: Name)
    requires Sound(m) && Reachable(m, s) && RowEnabled(s, ResetRow) && n in s.rows
    ensures var t := DoRow(s, ResetRow);
      && t.rows.Keys == s.rows.Keys && t.log == s.log && t.completed == s.completed
      && (n == Current(s) ==> t.rows[n].status == RowPending && Begun(LastOf(s.log, n)) && n !in s.completed)
      && (n != Current(s) ==> t.rows[n] == s.rows[n])
  {
    ReachableHistory(m, s);
    assert Current(s) == s.requested[s.pc.i];
    assert s.log + [] == s.log;
  }
}
