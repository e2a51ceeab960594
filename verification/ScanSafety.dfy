/** What the scan machine guarantees over every execution. */
module ScanSafety {
  import opened Prelude
  import opened Registry
  import opened ScanMachine
  import opened ScanHistory

  // ----------------------------------------------------------- extending runs

  lemma ReachInit(m: Setup, s: State)
    requires Init(m, s)
    ensures Reachable(m, s)
  {
    assert Valid(m, s, []) && After(m, s, []) == s;
  }

  lemma ReachStep(m: Setup, s: State, a: Action)
    requires Reachable(m, s) && Enabled(m, s, a)
    ensures Reachable(m, Apply(m, s, a))
  {
    var s0, acts :| Init(m, s0) && Valid(m, s0, acts) && After(m, s0, acts) == s;
    assert (acts + [a])[..|acts|] == acts;
    assert Valid(m, s0, acts + [a]) && After(m, s0, acts + [a]) == Apply(m, s, a);
  }

  lemma {:induction false} ReachRun(m: Setup, s: State, acts: seq<Action>)
    requires Reachable(m, s) && Valid(m, s, acts)
    ensures Reachable(m, After(m, s, acts))
    decreases |acts|
  {
    if acts != [] {
      ReachRun(m, s, acts[..|acts| - 1]);
      ReachStep(m, After(m, s, acts[..|acts| - 1]), acts[|acts| - 1]);
    }
  }

  // -------------------------------------------------------- checkpoint safety

  predicate StartsActive(m: Setup, e: Event) {
    e.Started? && e.name in m.phase && m.phase[e.name] == Active
  }

  /** No active module starts before an authorisation; an authorisation by resume is
      given only while the run is held at the checkpoint; the flag is set exactly when
      an authorisation was given. */
  lemma CheckpointSafety(m: Setup, s: State)
    requires Sound(m) && Reachable(m, s)
    ensures forall k :: 0 <= k < |s.log| && StartsActive(m, s.log[k]) ==> exists j :: 0 <= j < k && s.log[j].Authorised?
    ensures forall k :: 0 <= k < |s.log| && s.log[k] == Authorised(true) ==> OnHold(s.log[..k])
    ensures s.activeConfirmed <==> exists j :: 0 <= j < |s.log| && s.log[j].Authorised?
  {
    ReachableInv(m, s);
    forall k | 0 <= k < |s.log| && StartsActive(m, s.log[k]) ensures exists j :: 0 <= j < k && s.log[j].Authorised? {
      FirstAuthority(s.log[..k]);
      var j :| 0 <= j < k && s.log[..k][j].Authorised?;
      assert s.log[j].Authorised?;
    }
    FirstAuthority(s.log);
  }

  lemma FirstAuthority(log: seq<Event>)
    ensures IsAuthorised(log) <==> exists j :: 0 <= j < |log| && log[j].Authorised?
  {
    if j :| 0 <= j < |log| && log[j].Authorised? {
      assert log[j] == Authorised(true) || log[j] == Authorised(false);
    }
  }

  lemma ExecutorKeepsFlag(m: Setup, s: State, a: Action)
    requires Enabled(m, s, a) && !a.Acts?
    ensures Apply(m, s, a).activeConfirmed == s.activeConfirmed
  {
  }

  /** The only steps that set the flag; resuming a paused run never does, and nothing
      clears it. */
  lemma AuthorisationSteps(m: Setup, s: State, a: Action)
    requires Enabled(m, s, a)
    ensures Apply(m, s, a).activeConfirmed <==>
      s.activeConfirmed || a == Acts(Preauthorise) || (a == Acts(Resume) && s.status == AwaitingCheckpoint)
  {
    if !a.Acts? { ExecutorKeepsFlag(m, s, a); }
  }

  ghost predicate CorrelatedLast(log: seq<Event>) {
    exists c :: 0 <= c < |log| && log[c] == Correlated && forall k :: c < k < |log| ==> !IsModuleEvent(log[k])
  }

  lemma {:induction false} FreshMeansCorrelated(log: seq<Event>)
    requires Fresh(log)
    ensures CorrelatedLast(log)
  {
    var last := |log| - 1;
    if log[last] == Correlated {
      assert log[last] == Correlated;
    } else {
      FreshMeansCorrelated(log[..last]);
      var c :| 0 <= c < last && log[..last][c] == Correlated
        && forall k :: c < k < |log[..last]| ==> !IsModuleEvent(log[..last][k]);
      assert log[c] == Correlated;
      forall k | c < k < |log| ensures !IsModuleEvent(log[k]) {
        if k < last { assert log[k] == log[..last][k]; }
      }
    }
  }

  /** A run held at the checkpoint has ended all of its osint and passive modules, and
      correlated after the last of them. */
  lemma CheckpointComplete(m: Setup, s: State)
    requires Sound(m) && Reachable(m, s) && s.status == AwaitingCheckpoint
    ensures forall n :: n in s.requested && !IsActive(m, n) ==> n in s.rows && Terminal(s.rows[n])
    ensures CorrelatedLast(s.log) && s.pc == Idle
  {
    ReachableInv(m, s);
    FreshMeansCorrelated(s.log);
    forall n | n in s.requested ensures n in m.phase {
      var j :| 0 <= j < |s.requested| && s.requested[j] == n;
    }
  }

  // -------------------------------------------------------- being held, or not

  /** The executor is on its way to the checkpoint. */
  predicate AboutToHold(s: State) {
    (s.pc.Correlating? && !s.pc.final) || s.pc.Checkpointing?
  }

  lemma AuthorisedMove(m: Setup, s: State, a: Move)
    requires MoveEnabled(m, s, a) && s.activeConfirmed && !AboutToHold(s)
    ensures !AboutToHold(DoMove(m, s, a)) && DoMove(m, s, a).status == s.status
  {
  }

  lemma AuthorisedOutside(s: State, a: Outside)
    requires OutsideEnabled(s, a) && !AboutToHold(s)
    ensures !AboutToHold(DoOutside(s, a)) &&
      (DoOutside(s, a).status == AwaitingCheckpoint ==> s.status == AwaitingCheckpoint)
  {
  }

  lemma AuthorisedStep(m: Setup, s: State, a: Action)
    requires Enabled(m, s, a) && s.activeConfirmed && !AboutToHold(s)
    ensures var t := Apply(m, s, a);
      t.activeConfirmed && !AboutToHold(t) && (t.status == AwaitingCheckpoint ==> s.status == AwaitingCheckpoint)
  {
    AuthorisationSteps(m, s, a);
    match a
    case Moves(x) => AuthorisedMove(m, s, x);
    case WritesRow(_) =>
    case WritesRun(_) =>
    case Acts(x) => AuthorisedOutside(s, x);
  }

  /** An authorised run is not held, now or later. */
  lemma {:induction false} AuthorisedIsNotHeld(m: Setup, s: State, acts: seq<Action>)
    requires Valid(m, s, acts) && s.activeConfirmed && !AboutToHold(s)
    ensures var t := After(m, s, acts);
      t.activeConfirmed && !AboutToHold(t) && (t.status == AwaitingCheckpoint ==> s.status == AwaitingCheckpoint)
    decreases |acts|
  {
    if acts != [] {
      var most := acts[..|acts| - 1];
      AuthorisedIsNotHeld(m, s, most);
      AuthorisedStep(m, After(m, s, most), acts[|acts| - 1]);
    }
  }

  /** An active module of the run that has not succeeded. */
  ghost predicate Waits(m: Setup, s: State) {
    exists n :: n in s.requested && IsActive(m, n) && n !in s.completed
  }

  /** On the way to the checkpoint, and held there, such a module waits. */
  ghost predicate HoldInv(m: Setup, s: State) {
    AboutToHold(s) || s.status == AwaitingCheckpoint ==> Waits(m, s)
  }

  lemma HoldMove(m: Setup, s: State, a: Move)
    requires Inv(m, s) && HoldInv(m, s) && MoveEnabled(m, s, a)
    ensures HoldInv(m, DoMove(m, s, a))
  {
    if a == HoldAtGate {
      assert Current(s) == s.requested[s.pc.i];
      assert Current(s) in s.requested && IsActive(m, Current(s)) && Current(s) !in s.completed;
    }
  }

  lemma HoldRow(m: Setup, s: State, a: RowWrite)
    requires HoldInv(m, s) && RowEnabled(s, a)
    ensures HoldInv(m, DoRow(s, a))
  {
  }

  lemma HoldRunWrite(m: Setup, s: State, a: RunWrite)
    requires TailInv(m, s) && HoldInv(m, s) && RunEnabled(s, a)
    ensures HoldInv(m, DoRun(s, a))
  {
  }

  lemma HoldOutside(m: Setup, s: State, a: Outside)
    requires HoldInv(m, s) && OutsideEnabled(s, a)
    ensures HoldInv(m, DoOutside(s, a))
  {
  }

  lemma HoldStep(m: Setup, s: State, a: Action)
    requires Inv(m, s) && HoldInv(m, s) && Enabled(m, s, a)
    ensures HoldInv(m, Apply(m, s, a))
  {
    match a
    case Moves(x) => HoldMove(m, s, x);
    case WritesRow(x) => HoldRow(m, s, x);
    case WritesRun(x) => HoldRunWrite(m, s, x);
    case Acts(x) => HoldOutside(m, s, x);
  }

  lemma {:induction false} HoldRun(m: Setup, s: State, acts: seq<Action>)
    requires Inv(m, s) && HoldInv(m, s) && Valid(m, s, acts)
    ensures HoldInv(m, After(m, s, acts))
    decreases |acts|
  {
    if acts != [] {
      var most := acts[..|acts| - 1];
      HoldRun(m, s, most);
      RunKeepsInv(m, s, most);
      HoldStep(m, After(m, s, most), acts[|acts| - 1]);
    }
  }

  /** A run is held only for an active module: one that it was asked for, and that has not
      succeeded. So a run without active modules is never held. */
  lemma HeldForAModule(m: Setup, s: State)
    requires Sound(m) && Reachable(m, s) && s.status == AwaitingCheckpoint
    ensures Waits(m, s)
  {
    var s0, acts :| Init(m, s0) && Valid(m, s0, acts) && After(m, s0, acts) == s;
    InitInv(m, s0);
    HoldRun(m, s0, acts);
  }

  // ---------------------------------------------------- terminal consistency

  /** A COMPLETED run: every row has ended, `modules_completed` names exactly the
      modules whose row is COMPLETED or SKIPPED, and the last word is a correlation. */
  lemma CompletedConsistent(m: Setup, s: State)
    requires Sound(m) && Reachable(m, s) && s.status == Completed
    ensures forall n :: n in s.requested ==> n in s.rows && Terminal(s.rows[n])
    ensures forall n :: n in s.requested ==> (n in s.completed <==> Succeeded(s.rows[n]))
    ensures CorrelatedLast(s.log)
  {
    ReachableInv(m, s);
    FreshMeansCorrelated(s.log);
    forall n | n in s.requested
      ensures n in s.rows && Terminal(s.rows[n]) && (n in s.completed <==> Succeeded(s.rows[n])) {
      var j :| 0 <= j < |s.requested| && s.requested[j] == n;
    }
  }

  predicate Over(s: State) {
    s.status == Completed || s.status == Failed
  }

  lemma OverStep(m: Setup, s: State, a: Action)
    requires s.pc == Idle && Over(s) && Enabled(m, s, a)
    requires s.status == Completed ==> forall n :: n in s.rows ==> s.rows[n].status != RowRunning
    ensures var t := Apply(m, s, a);
      && t.pc == Idle && t.status == s.status && t.completed == s.completed
      && (s.status == Completed ==> t.rows == s.rows)
      && (t.log == s.log || t.log == s.log + [Authorised(false)])
  {
    assert a.Acts?;
  }

  /** COMPLETED, and FAILED without an executor, are final: whatever happens later, the
      status and `modules_completed` stay, a completed run's rows stay, and no module
      runs. */
  lemma {:induction false} OverIsFinal(m: Setup, s: State, acts: seq<Action>)
    requires Sound(m) && Reachable(m, s) && Valid(m, s, acts)
    requires s.status == Completed || (s.status == Failed && s.pc == Idle)
    ensures var t := After(m, s, acts);
      && t.pc == Idle && t.status == s.status && t.completed == s.completed
      && (s.status == Completed ==> t.rows == s.rows)
      && s.log <= t.log && forall k :: |s.log| <= k < |t.log| ==> t.log[k] == Authorised(false)
    decreases |acts|
  {
    if acts == [] {
      ReachableInv(m, s);
    } else {
      var t := After(m, s, acts[..|acts| - 1]);
      OverIsFinal(m, s, acts[..|acts| - 1]);
      ReachRun(m, s, acts[..|acts| - 1]);
      ReachableInv(m, t);
      OverStep(m, t, acts[|acts| - 1]);
    }
  }

  // ------------------------------------------------------------- resumability

  /** Reading the run again yields the stored order, and the modules ever started, over
      all launches, are a prefix of it. */
  lemma StartedPrefix(m: Setup, s: State) returns (p: nat)
    requires Sound(m) && Reachable(m, s)
    ensures m.resolve(Elems(s.requested)) == Some(s.requested) && (InLoop(s.pc) ==> s.ordered == s.requested)
    ensures p <= |s.requested|
    ensures forall j :: 0 <= j < |s.requested| ==> (Started(s.requested[j]) in s.log <==> j < p)
    ensures forall n :: Started(n) in s.log ==> n in s.requested[..p]
  {
    ReachableInv(m, s);
    p := LastStarted(s);
    forall n | Started(n) in s.log ensures n in s.requested[..p] {
      var j :| 0 <= j < |s.requested| && s.requested[j] == n;
      assert s.requested[..p][j] == n;
    }
  }

  lemma LastStarted(s: State) returns (p: nat)
    requires StartsInv(s)
    ensures p <= |s.requested|
    ensures forall j :: 0 <= j < |s.requested| ==> (Started(s.requested[j]) in s.log <==> j < p)
  {
    p := 0;
    while p < |s.requested| && Started(s.requested[p]) in s.log
      invariant p <= |s.requested|
      invariant forall j :: 0 <= j < p ==> Started(s.requested[j]) in s.log
    {
      p := p + 1;
    }
  }

  ghost predicate GrowsSafely(s: State, t: State) {
    && t.requested == s.requested && s.completed <= t.completed && s.log <= t.log
    && forall n, k :: n in s.completed && |s.log| <= k < |t.log| ==> t.log[k] != Started(n)
  }

  lemma RowGrows(m: Setup, s: State, a: RowWrite)
    requires RowEnabled(s, a) && ModuleInv(m, s) && s.ordered == s.requested
    ensures GrowsSafely(s, DoRow(s, a))
  {
    assert Current(s) == s.requested[s.pc.i];
  }

  lemma RunGrows(s: State, a: RunWrite)
    requires RunEnabled(s, a)
    ensures GrowsSafely(s, DoRun(s, a))
  {
  }

  lemma OutsideGrows(s: State, a: Outside)
    requires OutsideEnabled(s, a)
    ensures GrowsSafely(s, DoOutside(s, a))
  {
  }

  lemma CompletedStep(m: Setup, s: State, a: Action)
    requires ModuleInv(m, s) && (InLoop(s.pc) ==> s.ordered == s.requested) && Enabled(m, s, a)
    ensures GrowsSafely(s, Apply(m, s, a))
  {
    match a
    case Moves(x) =>
    case WritesRow(x) => RowGrows(m, s, x);
    case WritesRun(x) => RunGrows(s, x);
    case Acts(x) => OutsideGrows(s, x);
  }

  /** Over any continuation `modules_completed` only grows, stays duplicate-free and
      inside the request, and a module in it is never started again. */
  lemma {:induction false} CompletedNeverRestarts(m: Setup, s: State, acts: seq<Action>)
    requires Sound(m) && Reachable(m, s) && Valid(m, s, acts)
    ensures var t := After(m, s, acts);
      && t.requested == s.requested && s.completed <= t.completed && s.log <= t.log
      && NoDup(t.completed) && (forall n :: n in t.completed ==> n in t.requested)
      && forall n, k :: n in s.completed && |s.log| <= k < |t.log| ==> t.log[k] != Started(n)
    decreases |acts|
  {
    var t := After(m, s, acts);
    ReachRun(m, s, acts);
    ReachableInv(m, t);
    if acts != [] {
      var u := After(m, s, acts[..|acts| - 1]);
      CompletedNeverRestarts(m, s, acts[..|acts| - 1]);
      ReachRun(m, s, acts[..|acts| - 1]);
      ReachableInv(m, u);
      CompletedStep(m, u, acts[|acts| - 1]);
      forall n, k | n in s.completed && |s.log| <= k < |t.log| ensures t.log[k] != Started(n) {
        if k < |u.log| { assert t.log[k] == u.log[k]; }
      }
    }
  }

  /** A FAILED row is never in `modules_completed`, so a resume runs the module again. */
  lemma FailedRunsAgain(m: Setup, s: State, n: Name)
    requires Sound(m) && Reachable(m, s) && n in s.rows && s.rows[n].status == RowFailed
    ensures n !in s.completed
    ensures s.pc == Launched ==> MoveEnabled(m, s, Read) && n !in DoMove(m, s, Read).done
  {
    ReachableInv(m, s);
  }

  // ------------------------------------------------------------ carry-over label

  /** At a carried-over module the row is COMPLETED or SKIPPED. It is relabelled
      exactly when it is SKIPPED, and then this same run had marked it SKIPPED itself:
      the "earlier scan run" of the label never occurs. */
  lemma CarryOverRelabels(m: Setup, s: State)
    requires Sound(m) && Reachable(m, s) && RowEnabled(s, CarryOver)
    ensures var n := Current(s);
      var before, after := s.rows[n], DoRow(s, CarryOver).rows[n];
      && n in s.completed && Succeeded(before)
      && (before.status == RowCompleted ==> after == before)
      && (before.status == RowSkipped ==>
        after == Row(RowSkipped, Some(ResumedPriorRun)) && exists reason :: Marked(n, reason) in s.log)
      && (after != before <==> before.status == RowSkipped && before.skipReason != Some(ResumedPriorRun))
  {
    ReachableInv(m, s);
    assert Current(s) == s.requested[s.pc.i];
    if s.rows[Current(s)].status == RowSkipped { SkippedWasMarked(m, s, Current(s)); }
  }

  // A run of the single passive module `n`, in four stretches: the module is about to
  // start; it has reported that it has nothing to do and its body returned; the process
  // died and the run was resumed; the restart is about to carry the module over.

  function Before(n: Name): State {
    StartState([n]).(pc := Cleared(0), ordered := [n])
  }

  function Reported(n: Name): State {
    Before(n).(pc := Appending(0), rows := map[n := Row(RowSkipped, Some(ZeroEligibleTargets))],
               log := [Started(n), Marked(n, Some(ZeroEligibleTargets)), Ended(n, RowSkipped)])
  }

  function Restarted(n: Name): State {
    Reported(n).(pc := Launched, completed := [n])
  }

  function Carried(n: Name): State {
    Restarted(n).(pc := Admitted(0), done := {n})
  }

  ghost predicate Single(m: Setup, n: Name) {
    Sound(m) && n in m.phase && m.phase[n] == Passive && m.resolve({n}) == Some([n])
  }

  lemma BeforeReachable(m: Setup, n: Name)
    requires Single(m, n)
    ensures Reachable(m, Before(n))
  {
    assert Elems([n]) == {n};
    ReachInit(m, StartState([n]));
    var s := GoMove(m, StartState([n]), Read);
    s := GoMove(m, s, PassCheck);
    s := GoMove(m, s, Clear);
  }

  lemma ReportedReachable(m: Setup, n: Name)
    requires Single(m, n) && Reachable(m, Before(n))
    ensures Reachable(m, Reported(n))
  {
    var s := GoRow(m, Before(n), Start);
    s := GoRow(m, s, Mark(Some(ZeroEligibleTargets)));
    var t := Before(n).(pc := InBody(0), rows := map[n := Row(RowSkipped, Some(ZeroEligibleTargets))],
                        log := [Started(n), Marked(n, Some(ZeroEligibleTargets))]);
    assert s == t;
    ReturnedReachable(m, n, t);
  }

  lemma ReturnedReachable(m: Setup, n: Name, t: State)
    requires Reachable(m, t)
    requires t == Reported(n).(pc := InBody(0), log := [Started(n), Marked(n, Some(ZeroEligibleTargets))])
    ensures Reachable(m, Reported(n))
  {
    var s := GoRow(m, t, Return);
    assert s == Reported(n);
  }

  lemma RestartedReachable(m: Setup, n: Name)
    requires Single(m, n) && Reachable(m, Reported(n))
    ensures Reachable(m, Restarted(n))
  {
    var s := GoRun(m, Reported(n), Append);
    s := GoOutside(m, s, Crash);
    var t := Restarted(n).(pc := Idle, up := false, handle := None);
    assert s == t;
    ReapedReachable(m, n, t);
  }

  lemma ReapedReachable(m: Setup, n: Name, t: State)
    requires Reachable(m, t) && t == Restarted(n).(pc := Idle, up := false, handle := None)
    ensures Reachable(m, Restarted(n))
  {
    var s := GoOutside(m, t, Reap);
    s := GoOutside(m, s, Resume);
    assert s == Restarted(n);
  }

  lemma CarriedReachable(m: Setup, n: Name)
    requires Single(m, n) && Reachable(m, Restarted(n))
    ensures Reachable(m, Carried(n))
  {
    assert Elems([n]) == {n};
    var s := GoMove(m, Restarted(n), Read);
    s := GoMove(m, s, PassCheck);
    assert s == Carried(n);
  }

  /** The relabelling does happen, and the module's own reason is gone. */
  lemma RelabelHappens(m: Setup, n: Name) returns (s: State)
    requires Single(m, n)
    ensures Reachable(m, s) && RowEnabled(s, CarryOver) && Current(s) == n
    ensures s.rows[n] == Row(RowSkipped, Some(ZeroEligibleTargets))
    ensures DoRow(s, CarryOver).rows[n] == Row(RowSkipped, Some(ResumedPriorRun))
  {
    BeforeReachable(m, n);
    ReportedReachable(m, n);
    RestartedReachable(m, n);
    CarriedReachable(m, n);
    s := Carried(n);
  }

  lemma GoMove(m: Setup, s: State, a: Move) returns (t: State)
    requires Reachable(m, s) && MoveEnabled(m, s, a)
    ensures t == DoMove(m, s, a) && Reachable(m, t)
  {
    ReachStep(m, s, Moves(a));
    t := DoMove(m, s, a);
  }

  lemma GoRow(m: Setup, s: State, a: RowWrite) returns (t: State)
    requires Reachable(m, s) && RowEnabled(s, a)
    ensures t == DoRow(s, a) && Reachable(m, t)
  {
    ReachStep(m, s, WritesRow(a));
    t := DoRow(s, a);
  }

  lemma GoRun(m: Setup, s: State, a: RunWrite) returns (t: State)
    requires Reachable(m, s) && RunEnabled(s, a)
    ensures t == DoRun(s, a) && Reachable(m, t)
  {
    ReachStep(m, s, WritesRun(a));
    t := DoRun(s, a);
  }

  lemma GoOutside(m: Setup, s: State, a: Outside) returns (t: State)
    requires Reachable(m, s) && OutsideEnabled(s, a)
    ensures t == DoOutside(s, a) && Reachable(m, t)
  {
    ReachStep(m, s, Acts(a));
    t := DoOutside(s, a);
  }

  // ------------------------------------------------------------------ stopping

  ghost function Starts(log: seq<Event>): nat {
    if log == [] then 0 else Starts(log[..|log| - 1]) + (if log[|log| - 1].Started? then 1 else 0)
  }

  lemma StartsAppend(log: seq<Event>, e: Event)
    ensures Starts(log + [e]) == Starts(log) + (if e.Started? then 1 else 0)
  {
    assert (log + [e])[..|log|] == log;
  }

  /** One start may still be under way: past the cancellation check, not yet begun. */
  ghost function UnderWay(s: State): nat {
    if s.pc.Admitted? || s.pc.Cleared? then 1 else 0
  }

  lemma RowStarts(s: State, a: RowWrite)
    requires RowEnabled(s, a)
    ensures var t := DoRow(s, a); Starts(t.log) + UnderWay(t) <= Starts(s.log) + UnderWay(s)
  {
    var es := RowEvents(a, Current(s), s.rows[Current(s)]);
    if es != [] {
      assert es == [es[0]];
      StartsAppend(s.log, es[0]);
    } else {
      assert s.log + es == s.log;
    }
  }

  lemma MoveStarts(m: Setup, s: State, a: Move)
    requires MoveEnabled(m, s, a) && Stopped(s)
    ensures var t := DoMove(m, s, a); t.log == s.log && UnderWay(t) <= UnderWay(s)
  {
  }

  lemma RunStarts(s: State, a: RunWrite)
    requires RunEnabled(s, a)
    ensures Starts(DoRun(s, a).log) == Starts(s.log) && UnderWay(DoRun(s, a)) == 0
  {
    if a == Correlate { StartsAppend(s.log, Correlated); }
    if a == EnterCheckpoint { StartsAppend(s.log, CheckpointEntered); }
  }

  lemma OutsideStarts(s: State, a: Outside)
    requires OutsideEnabled(s, a)
    ensures Starts(DoOutside(s, a).log) == Starts(s.log)
    ensures Stopped(s) && Stopped(DoOutside(s, a)) ==> UnderWay(DoOutside(s, a)) <= UnderWay(s)
  {
    StartsAppend(s.log, Authorised(false));
    StartsAppend(s.log, Authorised(true));
  }

  lemma StoppedStep(m: Setup, s: State, a: Action)
    requires Enabled(m, s, a) && Stopped(s) && Stopped(Apply(m, s, a))
    ensures var t := Apply(m, s, a); Starts(t.log) + UnderWay(t) <= Starts(s.log) + UnderWay(s)
  {
    match a
    case Moves(x) => MoveStarts(m, s, x);
    case WritesRow(x) => RowStarts(s, x);
    case WritesRun(x) => RunStarts(s, x);
    case Acts(x) => OutsideStarts(s, x);
  }

  /** Nobody stops the run in these steps, and the process does not die. */
  ghost predicate Undisturbed(acts: seq<Action>) {
    Acts(Cancel) !in acts && Acts(KillOn) !in acts && Acts(Crash) !in acts
  }

  predicate Unpaused(s: State) {
    !Stopped(s) && s.up && !s.pc.Interrupted? && s.pc != Pausing
  }

  lemma UnpausedMove(m: Setup, s: State, a: Move)
    requires MoveEnabled(m, s, a) && Unpaused(s)
    ensures Unpaused(DoMove(m, s, a)) && DoMove(m, s, a).status == s.status
  {
  }

  lemma UnpausedOutside(s: State, a: Outside)
    requires OutsideEnabled(s, a) && Unpaused(s) && a != Cancel && a != KillOn && a != Crash
    ensures Unpaused(DoOutside(s, a)) && (DoOutside(s, a).status == Paused ==> s.status == Paused)
  {
  }

  lemma UnpausedStep(m: Setup, s: State, a: Action)
    requires Enabled(m, s, a) && Unpaused(s) && Undisturbed([a])
    ensures Unpaused(Apply(m, s, a)) && (Apply(m, s, a).status == Paused ==> s.status == Paused)
  {
    assert a in [a];
    match a
    case Moves(x) => UnpausedMove(m, s, x);
    case WritesRow(_) =>
    case WritesRun(_) =>
    case Acts(x) => UnpausedOutside(s, x);
  }

  /** A run pauses only because it was stopped or its process died: left alone, it never
      interrupts a body and never becomes PAUSED. */
  lemma {:induction false} PausesOnlyIfStopped(m: Setup, s: State, acts: seq<Action>)
    requires Valid(m, s, acts) && Unpaused(s) && Undisturbed(acts)
    ensures Unpaused(After(m, s, acts)) && (After(m, s, acts).status == Paused ==> s.status == Paused)
    decreases |acts|
  {
    if acts != [] {
      var most, last := acts[..|acts| - 1], acts[|acts| - 1];
      assert acts == most + [last];
      PausesOnlyIfStopped(m, s, most);
      UnpausedStep(m, After(m, s, most), last);
    }
  }

  ghost predicate StoppedThroughout(m: Setup, s: State, acts: seq<Action>)
    requires Valid(m, s, acts)
    decreases |acts|
  {
    Stopped(After(m, s, acts)) && (acts == [] || StoppedThroughout(m, s, acts[..|acts| - 1]))
  }

  lemma {:induction false} StoppedBound(m: Setup, s: State, acts: seq<Action>)
    requires Valid(m, s, acts) && StoppedThroughout(m, s, acts)
    ensures var t := After(m, s, acts); Starts(t.log) + UnderWay(t) <= Starts(s.log) + UnderWay(s)
    decreases |acts|
  {
    if acts != [] {
      StoppedBound(m, s, acts[..|acts| - 1]);
      StoppedStep(m, After(m, s, acts[..|acts| - 1]), acts[|acts| - 1]);
    }
  }

  /** While a cancel or the kill switch stands, at most one more module starts, and none
      if the executor had not just passed its check. */
  lemma StopHalts(m: Setup, s: State, acts: seq<Action>)
    requires Valid(m, s, acts) && StoppedThroughout(m, s, acts)
    ensures Starts(After(m, s, acts).log) <= Starts(s.log) + 1
    ensures !s.pc.Admitted? && !s.pc.Cleared? ==> Starts(After(m, s, acts).log) <= Starts(s.log)
  {
    StoppedBound(m, s, acts);
  }

  /** Resuming never finds a live executor, so one run has at most one; a RUNNING run has
      one, and a live one is RUNNING, or was failed by an earlier task. */
  lemma SingleExecutor(m: Setup, s: State)
    requires Sound(m) && Reachable(m, s)
    ensures OutsideEnabled(s, Resume) ==> s.pc == Idle
    ensures s.up && s.status == Running ==> s.pc != Idle
    ensures s.pc != Idle ==> s.up && (s.status == Running || s.status == Failed)
  {
    ReachableInv(m, s);
  }

  /** The executor never stops working in the course of these steps. */
  ghost predicate LiveThroughout(m: Setup, s: State, acts: seq<Action>)
    requires Valid(m, s, acts)
    decreases |acts|
  {
    After(m, s, acts).pc != Idle && (acts == [] || LiveThroughout(m, s, acts[..|acts| - 1]))
  }

  ghost predicate StaysRunning(m: Setup, s: State) {
    forall acts :: Valid(m, s, acts) && LiveThroughout(m, s, acts) ==> After(m, s, acts).status == Running
  }

  lemma RunningStep(m: Setup, s: State, a: Action)
    requires Enabled(m, s, a) && TailInv(m, s) && s.pc != Idle && Apply(m, s, a).pc != Idle
    requires s.status == Running && s.closing == 0
    ensures Apply(m, s, a).status == Running && Apply(m, s, a).closing == 0
  {
  }

  lemma {:induction false} RunningStays(m: Setup, s: State, acts: seq<Action>)
    requires Sound(m) && Reachable(m, s) && Valid(m, s, acts) && LiveThroughout(m, s, acts)
    requires s.status == Running && s.closing == 0
    ensures After(m, s, acts).status == Running && After(m, s, acts).closing == 0
    decreases |acts|
  {
    if acts != [] {
      var most := acts[..|acts| - 1];
      RunningStays(m, s, most);
      ReachRun(m, s, most);
      ReachableInv(m, After(m, s, most));
      RunningStep(m, After(m, s, most), acts[|acts| - 1]);
    }
  }

  /** One outside step of a live run. */
  lemma OneStep(m: Setup, s: State, a: Outside)
    requires OutsideEnabled(s, a) && s.pc != Idle && DoOutside(s, a).pc != Idle
    ensures Valid(m, s, [Acts(a)]) && LiveThroughout(m, s, [Acts(a)]) && After(m, s, [Acts(a)]) == DoOutside(s, a)
  {
    assert [Acts(a)][..0] == [];
    assert Valid(m, s, []) && LiveThroughout(m, s, []);
  }

  /** A live run stays RUNNING throughout exactly if it is, and every earlier task has
      closed its client: one that has not can still raise, and then fails the run. */
  lemma StaysRunningExactly(m: Setup, s: State)
    requires Sound(m) && Reachable(m, s) && s.pc != Idle
    ensures StaysRunning(m, s) <==> s.status == Running && s.closing == 0
  {
    ReachableInv(m, s);
    if s.status == Running && s.closing == 0 {
      forall acts | Valid(m, s, acts) && LiveThroughout(m, s, acts) ensures After(m, s, acts).status == Running {
        RunningStays(m, s, acts);
      }
    } else {
      assert Valid(m, s, []) && LiveThroughout(m, s, []) && After(m, s, []) == s;
      if s.closing > 0 { OneStep(m, s, Close(true)); }
    }
  }

  /** So a resumed run stays RUNNING while its executor lives exactly if the previous task
      had closed its client before the resume. */
  lemma ResumedRunningExactly(m: Setup, s: State)
    requires Sound(m) && Reachable(m, s) && OutsideEnabled(s, Resume)
    ensures StaysRunning(m, DoOutside(s, Resume)) <==> s.closing == 0
  {
    ReachStep(m, s, Acts(Resume));
    StaysRunningExactly(m, DoOutside(s, Resume));
  }

  /** A cancel works, now and for as long as this executor lives: it finds a handle, and
      once it is given it stands. */
  ghost predicate CancelWorks(m: Setup, s: State) {
    forall acts :: Valid(m, s, acts) && LiveThroughout(m, s, acts) ==> OutsideEnabled(After(m, s, acts), Cancel)
  }

  ghost predicate CancelStands(m: Setup, s: State)
    requires OutsideEnabled(s, Cancel)
  {
    var t := DoOutside(s, Cancel);
    forall acts :: Valid(m, t, acts) && LiveThroughout(m, t, acts) ==> Stopped(After(m, t, acts))
  }

  predicate HandleIsSafe(s: State) {
    s.handle.Some? && s.closing == 0 && s.unpopped == 0
  }

  lemma HandleOutside(s: State, a: Outside)
    requires OutsideEnabled(s, a) && s.status != Paused && s.status != AwaitingCheckpoint
    requires DoOutside(s, a).pc != Idle && HandleIsSafe(s)
    ensures HandleIsSafe(DoOutside(s, a))
    ensures s.handle == Some(true) ==> DoOutside(s, a).handle == Some(true)
  {
  }

  lemma HandleRun(s: State, a: RunWrite)
    requires RunEnabled(s, a) && DoRun(s, a).pc != Idle && HandleIsSafe(s)
    ensures HandleIsSafe(DoRun(s, a)) && DoRun(s, a).handle == s.handle
  {
  }

  /** With no task left to pop it, the handle and a cancel given to it outlive every step
      that leaves the executor alive. */
  lemma HandleStep(m: Setup, s: State, a: Action)
    requires Enabled(m, s, a) && TailInv(m, s) && s.pc != Idle && Apply(m, s, a).pc != Idle && HandleIsSafe(s)
    ensures HandleIsSafe(Apply(m, s, a))
    ensures s.handle == Some(true) ==> Apply(m, s, a).handle == Some(true)
  {
    match a
    case Moves(_) =>
    case WritesRow(_) =>
    case WritesRun(x) => HandleRun(s, x);
    case Acts(x) => HandleOutside(s, x);
  }

  lemma {:induction false} HandleStays(m: Setup, s: State, acts: seq<Action>)
    requires Sound(m) && Reachable(m, s) && Valid(m, s, acts) && LiveThroughout(m, s, acts) && HandleIsSafe(s)
    ensures HandleIsSafe(After(m, s, acts))
    ensures s.handle == Some(true) ==> After(m, s, acts).handle == Some(true)
    decreases |acts|
  {
    if acts != [] {
      var most := acts[..|acts| - 1];
      HandleStays(m, s, most);
      ReachRun(m, s, most);
      ReachableInv(m, After(m, s, most));
      HandleStep(m, After(m, s, most), acts[|acts| - 1]);
    }
  }

  /** How an earlier task takes the handle along. */
  function TakesHandle(s: State): seq<Action> {
    if s.unpopped > 0 then [Acts(PopHandle)] else [Acts(Close(false)), Acts(PopHandle)]
  }

  lemma PopLosesHandle(m: Setup, s: State)
    requires s.up && s.pc != Idle && (s.closing > 0 || s.unpopped > 0)
    ensures var acts := TakesHandle(s);
      Valid(m, s, acts) && LiveThroughout(m, s, acts) && After(m, s, acts).handle.None? &&
        After(m, s, acts).kill == s.kill
      && After(m, s, acts).up && After(m, s, acts).pc != Idle
  {
    var acts := TakesHandle(s);
    OneStep(m, s, if s.unpopped > 0 then PopHandle else Close(false));
    if s.unpopped == 0 {
      assert acts[..1] == [Acts(Close(false))];
    }
  }

  /** Cancels reach a live executor throughout its life exactly if it has a handle and every
      earlier task has closed its client and popped its own. */
  lemma CancelReachesExactly(m: Setup, s: State)
    requires Sound(m) && Reachable(m, s) && s.pc != Idle
    ensures CancelWorks(m, s) <==> HandleIsSafe(s)
  {
    ReachableInv(m, s);
    if HandleIsSafe(s) {
      forall acts | Valid(m, s, acts) && LiveThroughout(m, s, acts) ensures OutsideEnabled(After(m, s, acts), Cancel) {
        HandleStays(m, s, acts);
        ReachRun(m, s, acts);
        ReachableInv(m, After(m, s, acts));
      }
    } else if CancelWorks(m, s) {
      assert Valid(m, s, []) && LiveThroughout(m, s, []) && After(m, s, []) == s;
      PopLosesHandle(m, s);
      assert false;
    }
  }

  /** A cancel given to a live executor stops it for good exactly if every earlier task has
      popped its handle, whether or not the kill switch is on as well. */
  lemma CancelStandsExactly(m: Setup, s: State)
    requires Sound(m) && Reachable(m, s) && s.pc != Idle && OutsideEnabled(s, Cancel)
    ensures CancelStands(m, s) <==> s.closing == 0 && s.unpopped == 0
  {
    var t := DoOutside(s, Cancel);
    ReachStep(m, s, Acts(Cancel));
    assert Apply(m, s, Acts(Cancel)) == t;
    if s.closing == 0 && s.unpopped == 0 {
      forall acts | Valid(m, t, acts) && LiveThroughout(m, t, acts) ensures Stopped(After(m, t, acts)) {
        HandleStays(m, t, acts);
      }
    } else {
      var acts := TakesHandle(t);
      PopLosesHandle(m, t);
      var more := acts + [Acts(KillOff)];
      assert more[..|acts|] == acts;
      assert Valid(m, t, more) && LiveThroughout(m, t, more) && !Stopped(After(m, t, more));
    }
  }

  /** So cancels reach a resumed executor throughout exactly if the previous task had popped
      its handle before the resume. */
  lemma ResumedCancelExactly(m: Setup, s: State)
    requires Sound(m) && Reachable(m, s) && OutsideEnabled(s, Resume)
    ensures CancelWorks(m, DoOutside(s, Resume)) <==> s.closing == 0 && s.unpopped == 0
  {
    ReachStep(m, s, Acts(Resume));
    CancelReachesExactly(m, DoOutside(s, Resume));
  }

  /** That can fail: resumed too early, a live executor ends up without a handle, and a
      cancel has nothing to act on. */
  lemma CancelLost(m: Setup, n: Name) returns (s: State)
    requires Sound(m) && n in m.phase && m.resolve({n}) == Some([n])
    ensures Reachable(m, s) && s.pc != Idle && s.handle == None && !CancelWorks(m, s)
  {
    s := StartState([n]);
    assert Elems([n]) == {n};
    ReachInit(m, s);
    s := GoOutside(m, s, KillOn);
    s := GoMove(m, s, Read);
    s := GoMove(m, s, StopAtCheck);
    s := GoRun(m, s, Pause);
    s := GoOutside(m, s, KillOff);
    s := GoOutside(m, s, Resume);
    s := GoOutside(m, s, Close(false));
    s := GoOutside(m, s, PopHandle);
    CancelReachesExactly(m, s);
  }

  // ------------------------------------------------------------------ progress

  /** The executor's next step when nothing interferes and modules return. */
  ghost function NextAction(m: Setup, s: State): Action {
    match s.pc
    case AtModule(i) => if i == |s.ordered| then Moves(LoopDone) else if Stopped(s) then Moves(StopAtCheck)
      else Moves(PassCheck)
    case Admitted(i) =>
      if i < |s.ordered| && s.ordered[i] in s.done then WritesRow(CarryOver)
      else if i < |s.ordered| && IsActive(m, s.ordered[i]) && !s.activeConfirmed then Moves(HoldAtGate)
      else Moves(Clear)
    case Cleared(i) => WritesRow(Start)
    case InBody(i) => WritesRow(Return)
    case Appending(i) => WritesRun(Append)
    case Ran(i) => Moves(Advance)
    case Interrupted(i) => WritesRow(ResetRow)
    case Pausing => WritesRun(Pause)
    case Correlating(_, _) => WritesRun(Correlate)
    case Checkpointing(i) => WritesRun(EnterCheckpoint)
    case Finishing => WritesRun(Finish)
    case _ => Moves(Read)
  }

  /** A live executor is never stuck. */
  lemma ExecutorNotStuck(m: Setup, s: State)
    requires Sound(m) && Reachable(m, s) && s.pc != Idle
    ensures Enabled(m, s, NextAction(m, s))
  {
    ReachableInv(m, s);
  }

  /** `t` can follow `s`. */
  ghost predicate Leads(m: Setup, s: State, t: State) {
    exists acts :: Valid(m, s, acts) && After(m, s, acts) == t
  }

  lemma LeadsStep(m: Setup, s: State, t: State, a: Action) returns (u: State)
    requires Reachable(m, t) && Leads(m, s, t) && Enabled(m, t, a)
    ensures u == Apply(m, t, a) && Leads(m, s, u) && Reachable(m, u)
  {
    var acts :| Valid(m, s, acts) && After(m, s, acts) == t;
    u := Apply(m, t, a);
    assert (acts + [a])[..|acts|] == acts;
    assert Valid(m, s, acts + [a]) && After(m, s, acts + [a]) == u;
    ReachStep(m, t, a);
  }

  ghost predicate Free(m: Setup, s: State, t: State) {
    Reachable(m, t) && Leads(m, s, t) && !Stopped(t) && t.activeConfirmed
  }

  /** The first half of a round: the module's row is set RUNNING. */
  lemma BeginModule(m: Setup, s: State, t: State) returns (u: State)
    requires Free(m, s, t) && t.pc.Admitted? && Here(t) && Current(t) !in t.done
    ensures Free(m, s, u) && u.pc == InBody(t.pc.i) && Here(u) && u.requested == t.requested
  {
    u := LeadsStep(m, s, t, Moves(Clear));
    u := LeadsStep(m, s, u, WritesRow(Start));
  }

  lemma RecordModule(m: Setup, s: State, t: State) returns (u: State)
    requires Free(m, s, t) && t.pc.Appending? && Here(t)
    ensures Free(m, s, u) && u.pc == AtModule(t.pc.i + 1) && u.requested == t.requested
  {
    u := LeadsStep(m, s, t, WritesRun(Append));
    u := LeadsStep(m, s, u, Moves(Advance));
  }

  /** The second half: its body returns and it is recorded. */
  lemma EndModule(m: Setup, s: State, t: State) returns (u: State)
    requires Free(m, s, t) && t.pc.InBody? && Here(t)
    ensures Free(m, s, u) && u.pc == AtModule(t.pc.i + 1) && u.requested == t.requested
  {
    u := LeadsStep(m, s, t, WritesRow(Return));
    u := RecordModule(m, s, u);
  }

  lemma OneModule(m: Setup, s: State, t: State) returns (u: State)
    requires Free(m, s, t) && t.pc.Admitted? && Here(t)
    ensures Free(m, s, u) && u.pc == AtModule(t.pc.i + 1) && u.requested == t.requested
  {
    if Current(t) in t.done {
      u := LeadsStep(m, s, t, WritesRow(CarryOver));
    } else {
      u := BeginModule(m, s, t);
      u := EndModule(m, s, u);
    }
  }

  /** An unstopped, authorised executor whose modules return carries the run through. */
  lemma {:induction false} RunThrough(m: Setup, s: State, t: State) returns (u: State)
    requires Sound(m) && Free(m, s, t) && t.pc.AtModule?
    ensures Leads(m, s, u) && u.status == Completed
    decreases |t.requested| - t.pc.i
  {
    ReachableInv(m, t);
    if t.pc.i == |t.requested| {
      u := LeadsStep(m, s, t, Moves(LoopDone));
      u := LeadsStep(m, s, u, WritesRun(Correlate));
      u := LeadsStep(m, s, u, WritesRun(Finish));
    } else {
      assert t.requested[t.pc.i] in t.rows;
      u := LeadsStep(m, s, t, Moves(PassCheck));
      u := OneModule(m, s, u);
      u := RunThrough(m, s, u);
    }
  }

  /** From any unfinished state a restart, an authorisation and a resume lead back to
      the executor. */
  lemma Relaunched(m: Setup, s: State) returns (u: State)
    requires Sound(m) && Reachable(m, s) && !Over(s)
    ensures Free(m, s, u) && u.pc == Launched
  {
    assert Valid(m, s, []) && After(m, s, []) == s;
    u := s;
    if u.up { u := LeadsStep(m, s, u, Acts(Crash)); }
    u := LeadsStep(m, s, u, Acts(Reap));
    u := LeadsStep(m, s, u, Acts(Preauthorise));
    u := LeadsStep(m, s, u, Acts(KillOff));
    u := LeadsStep(m, s, u, Acts(Resume));
  }

  // ------------------------------------------- completing in spite of a stop

  /** The executor has made the cancellation check of its last module. */
  ghost predicate PastLastCheck(s: State) {
    match s.pc
    case Finishing => true
    case Correlating(final, _) => final
    case AtModule(i) => i == |s.requested|
    case Admitted(i) => i + 1 == |s.requested|
    case Cleared(i) => i + 1 == |s.requested|
    case InBody(i) => i + 1 == |s.requested|
    case Appending(i) => i + 1 == |s.requested|
    case Ran(i) => i + 1 == |s.requested|
    case Launched => s.requested == []
    case _ => false
  }

  ghost predicate OwnOrder(s: State) {
    InLoop(s.pc) ==> s.ordered == s.requested
  }

  lemma MovePast(m: Setup, s: State, a: Move)
    requires MoveEnabled(m, s, a) && Stopped(s) && OwnOrder(s)
    ensures PastLastCheck(DoMove(m, s, a)) ==> PastLastCheck(s)
  {
  }

  lemma WritePast(s: State, a: Action)
    requires (a.WritesRow? && RowEnabled(s, a.row)) || (a.WritesRun? && RunEnabled(s, a.run))
    ensures var t := if a.WritesRow? then DoRow(s, a.row) else DoRun(s, a.run);
      && (PastLastCheck(t) ==> PastLastCheck(s))
      && (t.status == Completed ==> s.status == Completed || s.pc == Finishing)
  {
  }

  lemma OutsidePast(s: State, a: Outside)
    requires OutsideEnabled(s, a) && Stopped(DoOutside(s, a))
    ensures PastLastCheck(DoOutside(s, a)) ==> PastLastCheck(s)
    ensures DoOutside(s, a).status == Completed ==> s.status == Completed
  {
  }

  /** Under a standing stop no step passes the last check, and only a final commit completes
      the run. */
  lemma PastStep(m: Setup, s: State, a: Action)
    requires Enabled(m, s, a) && Stopped(s) && Stopped(Apply(m, s, a)) && OwnOrder(s)
    ensures PastLastCheck(Apply(m, s, a)) ==> PastLastCheck(s)
    ensures Apply(m, s, a).status == Completed ==> s.status == Completed || s.pc == Finishing
  {
    match a
    case Moves(x) => MovePast(m, s, x);
    case WritesRow(_) => WritePast(s, a);
    case WritesRun(_) => WritePast(s, a);
    case Acts(x) => OutsidePast(s, x);
  }

  lemma {:induction false} PastThroughout(m: Setup, s: State, acts: seq<Action>)
    requires Sound(m) && Reachable(m, s) && Valid(m, s, acts) && StoppedThroughout(m, s, acts)
    ensures PastLastCheck(After(m, s, acts)) ==> PastLastCheck(s)
    ensures After(m, s, acts).status == Completed ==> s.status == Completed || PastLastCheck(s)
    decreases |acts|
  {
    if acts != [] {
      var most := acts[..|acts| - 1];
      PastThroughout(m, s, most);
      ReachRun(m, s, most);
      ReachableInv(m, After(m, s, most));
      PastStep(m, After(m, s, most), acts[|acts| - 1]);
    }
  }

  /** `t` can follow `s` while the stop stands. */
  ghost predicate LeadsStopped(m: Setup, s: State, t: State) {
    exists acts :: Valid(m, s, acts) && StoppedThroughout(m, s, acts) && After(m, s, acts) == t
  }

  ghost predicate Held(m: Setup, s: State, t: State) {
    LeadsStopped(m, s, t) && Reachable(m, t) && Stopped(t)
  }

  lemma HeldStep(m: Setup, s: State, t: State, a: Action) returns (u: State)
    requires Held(m, s, t) && Enabled(m, t, a) && Stopped(Apply(m, t, a))
    ensures u == Apply(m, t, a) && Held(m, s, u)
  {
    var acts :| Valid(m, s, acts) && StoppedThroughout(m, s, acts) && After(m, s, acts) == t;
    u := Apply(m, t, a);
    assert (acts + [a])[..|acts|] == acts;
    assert Valid(m, s, acts + [a]) && StoppedThroughout(m, s, acts + [a]) && After(m, s, acts + [a]) == u;
    ReachStep(m, t, a);
  }

  /** From the end of the loop the stop is not looked at any more. */
  lemma FinishHeld(m: Setup, s: State, t: State) returns (u: State)
    requires Sound(m) && Held(m, s, t)
    requires t.pc == Finishing || (t.pc.Correlating? && t.pc.final) || (t.pc.AtModule? && t.pc.i == |t.requested|)
    ensures Held(m, s, u) && u.status == Completed
  {
    ReachableInv(m, t);
    u := t;
    if u.pc.AtModule? { u := HeldStep(m, s, u, Moves(LoopDone)); }
    if u.pc.Correlating? { u := HeldStep(m, s, u, WritesRun(Correlate)); }
    u := HeldStep(m, s, u, WritesRun(Finish));
  }

  lemma AppendHeld(m: Setup, s: State, t: State) returns (u: State)
    requires Sound(m) && Held(m, s, t) && t.pc.InBody?
    ensures Held(m, s, u) && u.pc == Appending(t.pc.i) && u.requested == t.requested
  {
    ReachableInv(m, t);
    assert Here(t);
    u := HeldStep(m, s, t, WritesRow(Return));
  }

  lemma RecordHeld(m: Setup, s: State, t: State) returns (u: State)
    requires Sound(m) && Held(m, s, t) && t.pc.Appending?
    ensures Held(m, s, u) && u.pc == Ran(t.pc.i) && u.requested == t.requested
  {
    ReachableInv(m, t);
    assert Here(t);
    u := HeldStep(m, s, t, WritesRun(Append));
  }

  lemma AdvanceHeld(m: Setup, s: State, t: State) returns (u: State)
    requires Sound(m) && Held(m, s, t) && t.pc.Ran?
    ensures Held(m, s, u) && u.pc == AtModule(t.pc.i + 1) && u.requested == t.requested
  {
    ReachableInv(m, t);
    assert Here(t);
    u := HeldStep(m, s, t, Moves(Advance));
  }

  /** A body that has begun may return, and is recorded. */
  lemma ReturnHeld(m: Setup, s: State, t: State) returns (u: State)
    requires Sound(m) && Held(m, s, t) && (t.pc.InBody? || t.pc.Appending? || t.pc.Ran?)
    ensures Held(m, s, u) && u.pc == AtModule(t.pc.i + 1) && u.requested == t.requested
  {
    u := t;
    if u.pc.InBody? { u := AppendHeld(m, s, u); }
    if u.pc.Appending? { u := RecordHeld(m, s, u); }
    u := AdvanceHeld(m, s, u);
  }

  /** A module that was let past the check may begin. */
  lemma ClearHeld(m: Setup, s: State, t: State) returns (u: State)
    requires Sound(m) && Held(m, s, t) && t.pc.Admitted? && Here(t) && Current(t) !in t.done
    ensures Held(m, s, u) && u.pc == Cleared(t.pc.i) && u.requested == t.requested
  {
    u := HeldStep(m, s, t, Acts(Preauthorise));
    u := HeldStep(m, s, u, Moves(Clear));
  }

  lemma BeginHeld(m: Setup, s: State, t: State) returns (u: State)
    requires Sound(m) && Held(m, s, t) && t.pc.Cleared?
    ensures Held(m, s, u) && u.pc == InBody(t.pc.i) && u.requested == t.requested
  {
    ReachableInv(m, t);
    assert Here(t);
    u := HeldStep(m, s, t, WritesRow(Start));
  }

  lemma StartHeld(m: Setup, s: State, t: State) returns (u: State)
    requires Sound(m) && Held(m, s, t) && (t.pc.Admitted? || t.pc.Cleared?)
    ensures Held(m, s, u) && u.requested == t.requested
    ensures u.pc == InBody(t.pc.i) || u.pc == AtModule(t.pc.i + 1)
  {
    ReachableInv(m, t);
    assert Here(t);
    if t.pc.Admitted? && Current(t) in t.done {
      u := HeldStep(m, s, t, WritesRow(CarryOver));
    } else {
      u := t;
      if t.pc.Admitted? { u := ClearHeld(m, s, t); }
      u := BeginHeld(m, s, u);
    }
  }

  lemma CompleteHeld(m: Setup, s: State) returns (u: State)
    requires Sound(m) && Reachable(m, s) && s.pc != Idle && Stopped(s) && PastLastCheck(s)
    ensures LeadsStopped(m, s, u) && u.status == Completed
  {
    ReachableInv(m, s);
    assert Valid(m, s, []) && StoppedThroughout(m, s, []) && After(m, s, []) == s;
    u := s;
    if u.pc.Launched? { u := HeldStep(m, s, u, Moves(Read)); }
    if u.pc.Admitted? || u.pc.Cleared? { u := StartHeld(m, s, u); }
    if u.pc.InBody? || u.pc.Appending? || u.pc.Ran? { u := ReturnHeld(m, s, u); }
    u := FinishHeld(m, s, u);
  }

  /** A stopped run can still end COMPLETED, the stop standing all the way, exactly if its
      executor has made the check of its last module: nothing looks at the stop after. */
  lemma StoppedCompletesExactly(m: Setup, s: State)
    requires Sound(m) && Reachable(m, s) && s.pc != Idle && Stopped(s)
    ensures (exists t :: LeadsStopped(m, s, t) && t.status == Completed) <==> PastLastCheck(s)
  {
    ReachableInv(m, s);
    if PastLastCheck(s) {
      var t := CompleteHeld(m, s);
    }
    if t :| LeadsStopped(m, s, t) && t.status == Completed {
      var acts :| Valid(m, s, acts) && StoppedThroughout(m, s, acts) && After(m, s, acts) == t;
      PastThroughout(m, s, acts);
    }
  }

  /** In particular a cancel that arrives while the last module runs may come too late. */
  lemma CancelTooLate(m: Setup, n: Name) returns (s: State, t: State)
    requires Single(m, n)
    ensures Reachable(m, s) && s.pc == InBody(0) && s.requested == [n] && s.handle == Some(true)
    ensures LeadsStopped(m, s, t) && t.status == Completed
  {
    BeforeReachable(m, n);
    s := GoRow(m, Before(n), Start);
    s := GoOutside(m, s, Cancel);
    t := CompleteHeld(m, s);
  }

  /** Resumed before that, the run can be FAILED and still end COMPLETED. */
  lemma FailedIsOverwritten(m: Setup, s: State) returns (t: State, u: State)
    requires Sound(m) && Reachable(m, s) && OutsideEnabled(s, Resume) && s.closing > 0
    ensures Leads(m, s, t) && t.status == Failed && Leads(m, t, u) && u.status == Completed
  {
    assert Valid(m, s, []) && After(m, s, []) == s;
    t := LeadsStep(m, s, s, Acts(Resume));
    t := LeadsStep(m, s, t, Acts(Close(true)));
    assert Valid(m, t, []) && After(m, t, []) == t;
    u := LeadsStep(m, t, t, Acts(Preauthorise));
    ReachableInv(m, u);
    u := LeadsStep(m, t, u, Moves(Read));
    u := RunThrough(m, t, u);
  }

  /** No dead ends: from every reachable state that is not FAILED, even after a crash,
      the run can still be brought to COMPLETED. */
  lemma CanComplete(m: Setup, s: State) returns (u: State)
    requires Sound(m) && Reachable(m, s) && s.status != Failed
    ensures Leads(m, s, u) && u.status == Completed
  {
    if s.status == Completed {
      assert Valid(m, s, []) && After(m, s, []) == s;
      u := s;
    } else {
      u := Relaunched(m, s);
      ReachableInv(m, u);
      u := LeadsStep(m, s, u, Moves(Read));
      u := RunThrough(m, s, u);
    }
  }
}
