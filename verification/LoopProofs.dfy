/** What every run of the autonomous loop satisfies: how long it can get, where it may stop, and what it does to
    the tasks. */
module LoopProofs {
  import opened Text
  import opened AutonomousLoop

  // ---------------------------------------------------------------- shape of a run

  /** No stop rule has applied so far. */
  ghost predicate Ongoing(steps: seq<StepResult>) {
    forall k :: 0 < k <= |steps| ==> StopReason(steps[..k]) == ""
  }

  /** Number of failures at the end. */
  function TrailingFailures(steps: seq<StepResult>): nat {
    if steps == [] || steps[|steps| - 1].outcome != Failure then 0
    else 1 + TrailingFailures(steps[..|steps| - 1])
  }

  lemma OngoingPrefix(steps: seq<StepResult>)
    requires steps != [] && Ongoing(steps)
    ensures Ongoing(steps[..|steps| - 1]) && StopReason(steps) == ""
  {
    hide StopReason;
    var init := steps[..|steps| - 1];
    assert steps[..|steps|] == steps;
    assert forall k :: 0 < k <= |init| ==> init[..k] == steps[..k];
  }

  lemma TwoTrailing(steps: seq<StepResult>)
    requires TrailingFailures(steps) >= 2
    ensures |steps| >= 2 && steps[|steps| - 1].outcome == Failure && steps[|steps| - 2].outcome == Failure
  {
    var init := steps[..|steps| - 1];
    assert TrailingFailures(init) >= 1;
    assert init[|init| - 1] == steps[|steps| - 2];
  }

  /** Stopped steps carry their reason. */
  predicate Reasoned(steps: seq<StepResult>) {
    forall i :: 0 <= i < |steps| && steps[i].outcome == Stopped ==> steps[i].reason != ""
  }

  /** While a run goes on: no stopped step, at most two idle steps, at most two failures at the end, and every
      three steps are paid for by a step that is no failure. */
  lemma {:induction false} OngoingBounds(steps: seq<StepResult>)
    requires Ongoing(steps) && Reasoned(steps)
    ensures TrailingFailures(steps) <= 2 && CountIdle(steps) <= 2
    ensures |steps| <= 3 * (Count(steps, Success) + CountIdle(steps)) + TrailingFailures(steps)
    ensures forall i :: 0 <= i < |steps| ==> steps[i].outcome != Stopped
    decreases |steps|
  {
    if steps != [] {
      var init, last := steps[..|steps| - 1], steps[|steps| - 1];
      OngoingPrefix(steps);
      OngoingBounds(init);
      if last.outcome == Failure && TrailingFailures(init) >= 2 {
        ThirdFailure(steps);
      }
    }
  }

  lemma ThirdFailure(steps: seq<StepResult>)
    requires steps != [] && steps[|steps| - 1].outcome == Failure && TrailingFailures(steps[..|steps| - 1]) >= 2
    ensures ThreeFailures(steps)
  {
    var init := steps[..|steps| - 1];
    TwoTrailing(init);
    assert init[|init| - 1] == steps[|steps| - 2] && init[|init| - 2] == steps[|steps| - 3];
  }

  lemma {:induction false} OngoingNoThree(steps: seq<StepResult>, i: nat)
    requires Ongoing(steps) && Reasoned(steps) && i + 2 < |steps|
    ensures !(steps[i].outcome == Failure && steps[i + 1].outcome == Failure && steps[i + 2].outcome == Failure)
  {
    var p := steps[..i + 3];
    assert StopReason(p) == "";
    assert p[i] == steps[i] && p[i + 1] == steps[i + 1] && p[i + 2] == steps[i + 2];
    if forall k :: |p| - 3 <= k < |p| ==> p[k].outcome == Failure {
      assert ThreeFailures(p);
    }
  }

  /** The steps of a run: an ongoing run and one last step; the reason is the one that applies at the end. */
  lemma {:induction false} RunShape(e: Engine, steps: seq<StepResult>, limit: nat, inputs: nat -> Input)
    requires |steps| < limit && Ongoing(steps) && Reasoned(steps)
    ensures var r := RunFrom(e, steps, limit, inputs);
            && |steps| < |r.steps| <= limit
            && Ongoing(r.steps[..|r.steps| - 1]) && Reasoned(r.steps)
            && r.reason == StopReason(r.steps)
            && (|r.steps| < limit ==> r.reason != "")
    decreases limit - |steps|
  {
    hide StepOf, StopReason, RunFrom;
    var (result, next) := StepOf(e, |steps| + 1, inputs(|steps|));
    var done := steps + [result];
    RunFromStep(e, steps, limit, inputs);
    assert done[..|done| - 1] == steps;
    if StopReason(done) == "" && |done| < limit {
      assert Ongoing(done) by {
        assert forall k :: 0 < k <= |done| ==> done[..k] == if k <= |steps| then steps[..k] else done;
      }
      RunShape(next, done, limit, inputs);
    }
  }

  /** The whole-run theorem: a run takes at least one step and at most its limit, and no more than three steps for
      each success and nine more; at most three of its steps are blocked or skipped; three failures in a row and a
      stopped step can only end it; and a run shorter than its limit has recorded why. */
  lemma RunBounds(e: Engine, maxSteps: int, inputs: nat -> Input)
    ensures var r := Run(e, maxSteps, inputs);
            var n := |r.steps|;
            && 1 <= n <= Clamp(maxSteps)
            && n <= 3 * Count(r.steps, Success) + 9
            && CountIdle(r.steps) <= 3
            && (forall i :: 0 <= i < n && r.steps[i].outcome == Stopped ==> i == n - 1)
            && (n < Clamp(maxSteps) ==> r.reason != "")
  {
    hide StepOf, StopReason, RunFrom, ThreeFailures;
    var r := Run(e, maxSteps, inputs);
    RunShape(e, [], Clamp(maxSteps), inputs);
    var init := r.steps[..|r.steps| - 1];
    OngoingBounds(init);
    assert forall i :: 0 <= i < |init| ==> init[i] == r.steps[i];
  }

  lemma RunFailures(e: Engine, maxSteps: int, inputs: nat -> Input, i: nat)
    requires var steps := Run(e, maxSteps, inputs).steps;
             && i + 2 < |steps|
             && steps[i].outcome == Failure && steps[i + 1].outcome == Failure && steps[i + 2].outcome == Failure
    ensures i + 3 == |Run(e, maxSteps, inputs).steps|
  {
    hide StepOf, StopReason, RunFrom;
    var steps := Run(e, maxSteps, inputs).steps;
    RunShape(e, [], Clamp(maxSteps), inputs);
    var init := steps[..|steps| - 1];
    assert forall k :: 0 <= k < |init| ==> init[k] == steps[k];
    if i + 2 < |init| {
      OngoingNoThree(init, i);
    }
  }

  // ---------------------------------------------------------------- tasks

  function CountStatus(tasks: seq<Task>, status: Status): nat {
    if tasks == [] then 0
    else CountStatus(tasks[..|tasks| - 1], status) + if tasks[|tasks| - 1].status == status then 1 else 0
  }

  lemma {:induction false} CountUpdated(tasks: seq<Task>, i: nat, status: Status, counted: Status)
    requires i < |tasks|
    ensures CountStatus(tasks[i := tasks[i].(status := status)], counted)
         == CountStatus(tasks, counted) - (if tasks[i].status == counted then 1 else 0) + (if status == counted then 1 else 0)
    decreases |tasks|
  {
    var updated := tasks[i := tasks[i].(status := status)];
    var init := tasks[..|tasks| - 1];
    if i < |init| {
      assert updated[..|tasks| - 1] == init[i := init[i].(status := status)];
      CountUpdated(init, i, status, counted);
    } else {
      assert updated[..|tasks| - 1] == init;
    }
  }

  lemma CountAppended(tasks: seq<Task>, t: Task, counted: Status)
    ensures CountStatus(tasks + [t], counted) == CountStatus(tasks, counted) + if t.status == counted then 1 else 0
  {
    assert (tasks + [t])[..|tasks|] == tasks;
  }

  lemma UniqueIndex(e: Engine, i: nat)
    requires ValidEngine(e) && i < |e.tasks|
    ensures IndexOf(e.tasks, e.tasks[i].id) == Some(i)
  {
    var r := IndexOf(e.tasks, e.tasks[i].id);
    assert r.Some?;
    assert e.tasks[r.value].id == e.tasks[i].id;
  }

  /** The remediation tasks that a step adds. */
  function Added(e: Engine, next: Engine): int {
    |next.tasks| - |e.tasks|
  }

  /** How the counts move in one step with the given outcome. */
  predicate Moves(e: Engine, o: Outcome, next: Engine) {
    var s, b := if o == Success then 1 else 0, if o == BlockedStep then 1 else 0;
    && 0 <= Added(e, next) <= (if o == Failure then 1 else 0)
    && CountStatus(next.tasks, Completed) == CountStatus(e.tasks, Completed) + s
    && CountStatus(next.tasks, Blocked) == CountStatus(e.tasks, Blocked) + b
    && CountStatus(next.tasks, Pending) == CountStatus(e.tasks, Pending) - s - b + Added(e, next)
    && CountStatus(next.tasks, Running) == CountStatus(e.tasks, Running)
    && CountStatus(next.tasks, Failed) == CountStatus(e.tasks, Failed)
    && CountStatus(next.tasks, ApprovalRequired) == CountStatus(e.tasks, ApprovalRequired)
  }

  /** A task may change only from pending, and only when its risk is not high. */
  predicate Kept(e: Engine, next: Engine) {
    && |e.tasks| <= |next.tasks|
    && forall i :: 0 <= i < |e.tasks| ==>
         && next.tasks[i].(status := e.tasks[i].status) == e.tasks[i]
         && (next.tasks[i] != e.tasks[i] ==> e.tasks[i].status == Pending && e.tasks[i].risk != "high")
  }

  lemma StatusMoves(e: Engine, i: nat, status: Status, o: Outcome)
    requires ValidEngine(e) && i < |e.tasks| && e.tasks[i].status == Pending && e.tasks[i].risk != "high"
    requires (o == Success && status == Completed) || (o == BlockedStep && status == Blocked)
    ensures var next := SetStatus(e, e.tasks[i].id, status);
            ValidEngine(next) && Moves(e, o, next) && Kept(e, next)
  {
    hide CountStatus;
    UniqueIndex(e, i);
    CountUpdated(e.tasks, i, status, Completed);
    CountUpdated(e.tasks, i, status, Blocked);
    CountUpdated(e.tasks, i, status, Pending);
    CountUpdated(e.tasks, i, status, Running);
    CountUpdated(e.tasks, i, status, Failed);
    CountUpdated(e.tasks, i, status, ApprovalRequired);
  }

  lemma CreateMoves(e: Engine, description: string, family: string)
    requires ValidEngine(e)
    ensures var next := Create(e, description, family); ValidEngine(next) && Moves(e, Failure, next) && Kept(e, next)
  {
    hide CountStatus;
    var next := Create(e, description, family);
    var t := next.tasks[|e.tasks|];
    assert next.tasks == e.tasks + [t];
    CountAppended(e.tasks, t, Completed);
    CountAppended(e.tasks, t, Blocked);
    CountAppended(e.tasks, t, Pending);
    CountAppended(e.tasks, t, Running);
    CountAppended(e.tasks, t, Failed);
    CountAppended(e.tasks, t, ApprovalRequired);
  }

  /** One step moves one pending task at most, as its outcome says. */
  lemma StepMoves(e: Engine, number: int, input: Input)
    requires ValidEngine(e)
    ensures var (result, next) := StepOf(e, number, input);
            ValidEngine(next) && Moves(e, result.outcome, next) && Kept(e, next)
  {
    hide CountStatus, DecideCommand, PendingFrom, ValidEngine, SetStatus, Create;
    var selected := Selected(e.tasks, input);
    if selected.Some? {
      var i := selected.value;
      var t := e.tasks[i];
      if t.risk != "high" {
        if input.avoid {
          StatusMoves(e, i, Blocked, BlockedStep);
        } else if DecideCommand(t).Some? {
          if input.commandOk {
            StatusMoves(e, i, Completed, Success);
          } else if input.teacher {
            CreateMoves(e, input.remediation, input.remediationFamily);
          }
        }
      }
    }
  }

  /** Tasks that are settled or too risky stay as they are over two stretches when they do over each. */
  lemma KeptTwice(a: Engine, b: Engine, c: Engine)
    requires Kept(a, b) && Kept(b, c)
    ensures Kept(a, c)
  {
    forall i | 0 <= i < |a.tasks|
      ensures c.tasks[i].(status := a.tasks[i].status) == a.tasks[i]
      ensures c.tasks[i] != a.tasks[i] ==> a.tasks[i].status == Pending && a.tasks[i].risk != "high"
    {
      assert b.tasks[i].(status := a.tasks[i].status) == a.tasks[i];
      assert c.tasks[i].(status := b.tasks[i].status) == b.tasks[i];
    }
  }

  lemma CountOne(steps: seq<StepResult>, result: StepResult, o: Outcome)
    ensures Count(steps + [result], o) == Count(steps, o) + if result.outcome == o then 1 else 0
  {
    assert (steps + [result])[..|steps|] == steps;
  }

  /** Conservation over the rest of a run, relative to what was counted before. */
  lemma {:induction false} RunMoves(e: Engine, steps: seq<StepResult>, limit: nat, inputs: nat -> Input)
    requires |steps| < limit && ValidEngine(e)
    ensures var r := RunFrom(e, steps, limit, inputs);
            var s := Count(r.steps, Success) - Count(steps, Success);
            var b := Count(r.steps, BlockedStep) - Count(steps, BlockedStep);
            && ValidEngine(r.engine) && Kept(e, r.engine)
            && 0 <= Added(e, r.engine) <= Count(r.steps, Failure) - Count(steps, Failure)
            && CountStatus(r.engine.tasks, Completed) == CountStatus(e.tasks, Completed) + s
            && CountStatus(r.engine.tasks, Blocked) == CountStatus(e.tasks, Blocked) + b
            && CountStatus(r.engine.tasks, Pending) == CountStatus(e.tasks, Pending) - s - b + Added(e, r.engine)
    decreases limit - |steps|
  {
    hide StepOf, StopReason, RunFrom, CountStatus, Count, Kept, ValidEngine;
    var (result, next) := StepOf(e, |steps| + 1, inputs(|steps|));
    var done := steps + [result];
    RunFromStep(e, steps, limit, inputs);
    StepMoves(e, |steps| + 1, inputs(|steps|));
    CountOne(steps, result, Success);
    CountOne(steps, result, BlockedStep);
    CountOne(steps, result, Failure);
    if StopReason(done) == "" && |done| < limit {
      RunMoves(next, done, limit, inputs);
      KeptTwice(e, next, RunFrom(next, done, limit, inputs).engine);
    }
  }

  /** Task conservation: over a whole run the completed tasks grow by the success steps, the blocked tasks by the
      blocked steps, each remediation is paid for by a failure, and the pending tasks account for the rest; no
      other task changes, and a high-risk task never does. */
  lemma RunConserves(e: Engine, maxSteps: int, inputs: nat -> Input)
    requires ValidEngine(e)
    ensures var r := Run(e, maxSteps, inputs);
            var s, b, created := Count(r.steps, Success), Count(r.steps, BlockedStep), |r.engine.tasks| - |e.tasks|;
            && 0 <= created <= Count(r.steps, Failure)
            && CountStatus(r.engine.tasks, Completed) == CountStatus(e.tasks, Completed) + s
            && CountStatus(r.engine.tasks, Blocked) == CountStatus(e.tasks, Blocked) + b
            && CountStatus(r.engine.tasks, Pending) == CountStatus(e.tasks, Pending) - s - b + created
            && Kept(e, r.engine)
  {
    hide RunFrom, CountStatus, Kept, ValidEngine;
    RunMoves(e, [], Clamp(maxSteps), inputs);
  }

  // ---------------------------------------------------------------- the bound is reached

  /** A run that uses the stop rules to the full: two failures before each success, then before each of three skipped
      steps. */
  function Planned(s: nat, i: nat): Outcome {
    if i % 3 != 2 then Failure else if i / 3 < s then Success else Skipped
  }

  predicate Follows(steps: seq<StepResult>, s: nat) {
    forall i :: 0 <= i < |steps| ==> steps[i].outcome == Planned(s, i)
  }

  const RISKY := Task(0, "", "", "high", Pending)

  function Testing(i: int, status: Status): Task {
    Task(i, "", "test", "low", status)
  }

  /** A high-risk task and `s + 1` test tasks, the first `c` of which are completed. */
  function Busy(s: nat, c: nat): (e: Engine)
    ensures |e.tasks| == s + 2 && e.nextId == s + 2 && e.tasks[0] == RISKY
    ensures forall k :: 1 <= k < s + 2 ==> e.tasks[k] == Testing(k, if k <= c then Completed else Pending)
  {
    Engine([RISKY] + seq(s + 1, i => Testing(i + 1, if i < c then Completed else Pending)), s + 2)
  }

  /** The first pending test task is tried, or the high-risk task picked. */
  function Tries(s: nat): nat -> Input {
    (i: nat) =>
      Input(Some(if Planned(s, i) == Skipped then 0 else 1), "", false, Planned(s, i) == Success, false, "", "")
  }

  function Done(s: nat, n: nat): nat {
    if n / 3 < s then n / 3 else s
  }

  lemma {:induction false} PendingSkips(tasks: seq<Task>, i: nat, j: nat)
    requires i <= j < |tasks| && tasks[j].status == Pending
    requires forall k :: i <= k < j ==> tasks[k].status != Pending
    ensures PendingFrom(tasks, i) == [j] + PendingFrom(tasks, j + 1)
    decreases j - i
  {
    if i < j {
      PendingSkips(tasks, i + 1, j);
    }
  }

  lemma BusyPending(s: nat, c: nat)
    requires c <= s
    ensures PendingFrom(Busy(s, c).tasks, 0) == [0, c + 1] + PendingFrom(Busy(s, c).tasks, c + 2)
  {
    hide Busy, PendingFrom;
    var tasks := Busy(s, c).tasks;
    assert tasks[0] == RISKY;
    PendingSkips(tasks, 0, 0);
    assert forall k :: 1 <= k < c + 1 ==> tasks[k].status == Completed;
    assert tasks[c + 1].status == Pending;
    PendingSkips(tasks, 1, c + 1);
    Regrouped([0], [c + 1], PendingFrom(tasks, c + 2));
    assert [0] + [c + 1] == [0, c + 1];
  }

  lemma BusyValid(s: nat, c: nat)
    ensures ValidEngine(Busy(s, c))
  {
  }

  lemma BusyCompletes(s: nat, c: nat)
    requires c <= s
    ensures SetStatus(Busy(s, c), c + 1, Completed) == Busy(s, c + 1)
  {
    hide IndexOf, ValidEngine, Busy;
    BusyValid(s, c);
    UniqueIndex(Busy(s, c), c + 1);
    var a, b := Busy(s, c).tasks, Busy(s, c + 1).tasks;
    var done := a[c + 1 := a[c + 1].(status := Completed)];
    forall k | 0 <= k < s + 2
      ensures done[k] == b[k]
    {
      assert k > 0 ==> b[k] == Testing(k, if k <= c + 1 then Completed else Pending);
    }
    assert done == b;
  }

  lemma BusyStep(s: nat, n: nat)
    ensures var (result, next) := StepOf(Busy(s, Done(s, n)), n + 1, Tries(s)(n));
            result.outcome == Planned(s, n) && next == Busy(s, Done(s, n + 1))
  {
    hide PendingFrom, SetStatus, Create, Busy, DecideCommand, Lower, Contains;
    var c, input := Done(s, n), Tries(s)(n);
    BusyPending(s, c);
    BusyCompletes(s, c);
    TestingRuns(c + 1);
    var p := [0, c + 1] + PendingFrom(Busy(s, c).tasks, c + 2);
    assert p[0] == 0 && p[1] == c + 1;
    SmallRemainder(|p|);
    assert Selected(Busy(s, c).tasks, input) == Some(if Planned(s, n) == Skipped then 0 else c + 1);
  }

  lemma SmallRemainder(n: nat)
    requires n >= 2
    ensures 0 % n == 0 && 1 % n == 1
  {
  }

  lemma TestingRuns(i: int)
    ensures DecideCommand(Testing(i, Pending)).Some?
  {
  }

  lemma {:induction false} PlannedCounts(steps: seq<StepResult>, s: nat)
    requires Follows(steps, s)
    ensures Count(steps, Success) == Done(s, |steps|)
    ensures CountIdle(steps) == |steps| / 3 - Done(s, |steps|)
    decreases |steps|
  {
    if steps != [] {
      PlannedCounts(steps[..|steps| - 1], s);
    }
  }

  lemma PlannedGoesOn(steps: seq<StepResult>, s: nat)
    requires Follows(steps, s) && 0 < |steps| <= 3 * s + 9
    ensures StopReason(steps) == if |steps| == 3 * s + 9 then IDLE_REASON else ""
  {
    hide Count, CountIdle;
    var n := |steps|;
    PlannedCounts(steps, s);
    assert !ThreeFailures(steps) by {
      if n >= 3 {
        var k := if n % 3 == 0 then n - 1 else if n % 3 == 1 then n - 2 else n - 3;
        assert k % 3 == 2 && steps[k].outcome == Planned(s, k);
      }
    }
    assert steps[n - 1].outcome == Planned(s, n - 1);
  }

  lemma {:induction false} PlannedRun(s: nat, steps: seq<StepResult>)
    requires 3 * s + 9 <= 100 && |steps| < 3 * s + 9 && Follows(steps, s)
    ensures var r := RunFrom(Busy(s, Done(s, |steps|)), steps, 100, Tries(s));
            |r.steps| == 3 * s + 9 && Follows(r.steps, s) && r.reason == IDLE_REASON
    decreases 3 * s + 9 - |steps|
  {
    hide StepOf, StopReason, RunFrom, Busy, Tries;
    var e, n := Busy(s, Done(s, |steps|)), |steps|;
    var (result, next) := StepOf(e, n + 1, Tries(s)(n));
    var done := steps + [result];
    BusyStep(s, n);
    RunFromStep(e, steps, 100, Tries(s));
    PlannedGoesOn(done, s);
    if |done| < 3 * s + 9 {
      PlannedRun(s, done);
    }
  }

  /** For every number of successes that the limit of 100 steps allows, some run reaches the bound exactly. */
  lemma BoundIsReached(s: nat)
    requires 3 * s + 9 <= 100
    ensures ValidEngine(Busy(s, 0))
    ensures var r := Run(Busy(s, 0), 100, Tries(s));
            |r.steps| == 3 * s + 9 && Count(r.steps, Success) == s && r.reason == IDLE_REASON
  {
    hide RunFrom, Busy, Tries, Count;
    BusyValid(s, 0);
    PlannedRun(s, []);
    PlannedCounts(Run(Busy(s, 0), 100, Tries(s)).steps, s);
  }
}
