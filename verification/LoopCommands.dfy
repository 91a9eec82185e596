/** What the runs of the autonomous loop execute and complete: every step against the task it names and against what the
    components around the loop answered. */
module LoopCommands {
  import opened Text
  import opened AutonomousLoop
  import LoopProofs
  import AntiLoop

  // ---------------------------------------------------------------- commands

  predicate IsTestTask(t: Task) {
    t.family == "test" || Contains(Lower(t.description), "test")
  }

  predicate IsListTask(t: Task) {
    && !IsTestTask(t) && (t.family == "analyze" || t.family == "other" || t.family == "")
    && (Contains(Lower(t.description), "list") || Contains(Lower(t.description), "file"))
  }

  predicate IsGitTask(t: Task) {
    && !IsTestTask(t) && (t.family == "git" || t.family == "config")
    && (Contains(Lower(t.description), "status") || Contains(Lower(t.description), "git"))
  }

  /** The command is the one for the task; a task is of one kind at most. */
  predicate Fits(t: Task, command: string) {
    && (command == "run_tests" <==> IsTestTask(t))
    && (command == "list_files" <==> IsListTask(t))
    && (command == "git_status" <==> IsGitTask(t))
    && (IsTestTask(t) || IsListTask(t) || IsGitTask(t))
  }

  lemma CommandFits(t: Task)
    ensures DecideCommand(t).Some? <==> IsTestTask(t) || IsListTask(t) || IsGitTask(t)
    ensures DecideCommand(t).Some? ==> Fits(t, DecideCommand(t).value)
  {
    hide Contains, Lower;
    CommandsDiffer();
    FamiliesDiffer();
  }

  lemma CommandsDiffer()
    ensures "run_tests" != "list_files" && "run_tests" != "git_status" && "list_files" != "git_status"
  {
    assert "run_tests"[0] == 'r' && "list_files"[0] == 'l' && "git_status"[0] == 'g';
  }

  lemma FamiliesDiffer()
    ensures "analyze" != "git" && "analyze" != "config" && "other" != "git" && "other" != "config"
    ensures "test" != "other" && "git" != "" && "config" != "" && "other" != ""
  {
    assert "analyze"[0] == 'a' && "git"[0] == 'g' && "config"[0] == 'c' && "other"[0] == 'o' && "test"[0] == 't';
  }

  // ---------------------------------------------------------------- the pending tasks

  /** Every pending task is among those the selector chooses from. */
  lemma {:induction false} AllPending(tasks: seq<Task>, i: nat, k: nat)
    requires i <= |tasks|
    ensures k in PendingFrom(tasks, i) <==> i <= k < |tasks| && tasks[k].status == Pending
    decreases |tasks| - i
  {
    if i < |tasks| {
      AllPending(tasks, i + 1, k);
      PendingStep(tasks, i);
    }
  }

  /** They are offered once, and in order. */
  lemma {:induction false} PendingInOrder(tasks: seq<Task>, i: nat, a: nat, b: nat)
    requires i <= |tasks| && a < b < |PendingFrom(tasks, i)|
    ensures PendingFrom(tasks, i)[a] < PendingFrom(tasks, i)[b]
    decreases |tasks| - i
  {
    if i < |tasks| {
      PendingStep(tasks, i);
      if tasks[i].status != Pending {
        PendingInOrder(tasks, i + 1, a, b);
      } else if a > 0 {
        PendingInOrder(tasks, i + 1, a - 1, b - 1);
      }
    }
  }

  lemma PendingStep(tasks: seq<Task>, i: nat)
    requires i < |tasks|
    ensures PendingFrom(tasks, i) == (if tasks[i].status == Pending then [i] else []) + PendingFrom(tasks, i + 1)
  {
  }

  /** Whichever pending task there is, some answer of the selector picks it; without one the step stops. */
  lemma AnyPendingPicked(tasks: seq<Task>, i: nat, input: Input)
    requires i < |tasks| && tasks[i].status == Pending
    ensures exists pick :: Selected(tasks, input.(pick := Some(pick))) == Some(i)
  {
    hide PendingFrom;
    AllPending(tasks, 0, i);
    var pending := PendingFrom(tasks, 0);
    var k :| 0 <= k < |pending| && pending[k] == i;
    SmallRemainder(k, |pending|);
    assert Selected(tasks, input.(pick := Some(k))) == Some(i);
  }

  /** A step stops exactly when no task is pending or the selector picks none, and says which. */
  lemma StopsExactly(e: Engine, number: int, input: Input)
    ensures var result, idle := StepOf(e, number, input).0, forall i :: 0 <= i < |e.tasks| ==> e.tasks[i].status != Pending;
            && (result.outcome == Stopped <==> idle || input.pick.None?)
            && (idle ==> result.reason == "No pending tasks available")
            && (!idle && input.pick.None? ==>
                  result.reason == if input.fallback != "" then input.fallback else "No suitable task found")
  {
    hide PendingFrom, DecideCommand, SetStatus, Create;
    PendingOrNot(e.tasks);
  }

  lemma PendingOrNot(tasks: seq<Task>)
    ensures PendingFrom(tasks, 0) == [] <==> forall i :: 0 <= i < |tasks| ==> tasks[i].status != Pending
  {
    hide PendingFrom;
    var pending := PendingFrom(tasks, 0);
    if i :| 0 <= i < |tasks| && tasks[i].status == Pending {
      AllPending(tasks, 0, i);
      assert i in pending;
    }
    if pending != [] {
      assert tasks[pending[0]].status == Pending;
    }
  }

  lemma SmallRemainder(k: nat, n: nat)
    requires k < n
    ensures k % n == k
  {
  }

  // ---------------------------------------------------------------- one step

  /** Task `i` is the one the step names. */
  predicate Named(step: StepResult, tasks: seq<Task>, i: int) {
    0 <= i < |tasks| && step.taskId == Some(tasks[i].id)
  }

  /** What a step says about the task it names, as the tasks stand later: a command only for a success or a failure, the
      one that fits the task; completed by a success and by what the command said; never for a high risk or against
      the memory's advice. */
  predicate Tells(step: StepResult, input: Input, t: Task) {
    match step.outcome
    case Success =>
      && step.command.Some? && Fits(t, step.command.value)
      && t.status == Completed && input.commandOk && !input.avoid && t.risk != "high"
    case Failure =>
      && step.command.Some? && Fits(t, step.command.value)
      && !input.commandOk && !input.avoid && t.risk != "high"
    case BlockedStep => step.command.None? && t.status == Blocked && input.avoid && t.risk != "high"
    case Skipped =>
      && step.command.None?
      && (t.risk == "high" || (!input.avoid && !IsTestTask(t) && !IsListTask(t) && !IsGitTask(t)))
    case Stopped => false
  }

  /** A step stops without a task, or tells of the one it names. */
  ghost predicate Explained(step: StepResult, input: Input, tasks: seq<Task>) {
    if step.outcome == Stopped then step.taskId.None? && step.command.None?
    else exists i :: Named(step, tasks, i) && Tells(step, input, tasks[i])
  }

  /** A task that is completed though it was not before was completed by this step. */
  ghost predicate CompletedBy(before: seq<Task>, step: StepResult, after: seq<Task>) {
    forall i :: 0 <= i < |after| && after[i].status == Completed ==>
      || (i < |before| && before[i].status == Completed)
      || (step.outcome == Success && Named(step, after, i))
  }

  lemma StepExplained(e: Engine, number: int, input: Input)
    requires ValidEngine(e)
    ensures var (result, next) := StepOf(e, number, input);
            && result.number == number && Explained(result, input, next.tasks) && CompletedBy(e.tasks, result, next.tasks)
  {
    hide DecideCommand, PendingFrom, ValidEngine, IsTestTask, IsListTask, IsGitTask, Fits;
    var (result, next) := StepOf(e, number, input);
    var selected := Selected(e.tasks, input);
    if selected.Some? {
      var i := selected.value;
      CommandFits(e.tasks[i]);
      LoopProofs.UniqueIndex(e, i);
      SameKind(e.tasks[i], Completed);
      SameKind(e.tasks[i], Blocked);
      assert Named(result, next.tasks, i);
    }
  }

  /** The status has no part in the choice of the command. */
  lemma SameKind(t: Task, status: Status)
    ensures var u := t.(status := status);
            && IsTestTask(u) == IsTestTask(t) && IsListTask(u) == IsListTask(t) && IsGitTask(u) == IsGitTask(t)
            && forall command :: Fits(u, command) == Fits(t, command)
  {
    hide Contains, Lower;
  }

  /** What a step tells stays true of the later tasks. */
  lemma StillExplained(step: StepResult, input: Input, e: Engine, next: Engine)
    requires Explained(step, input, e.tasks) && LoopProofs.Kept(e, next)
    ensures Explained(step, input, next.tasks)
  {
    hide IsTestTask, IsListTask, IsGitTask, Fits;
    if step.outcome != Stopped {
      var i :| Named(step, e.tasks, i) && Tells(step, input, e.tasks[i]);
      var t, u := e.tasks[i], next.tasks[i];
      assert u.(status := t.status) == t;
      SameKind(u, t.status);
      assert Named(step, next.tasks, i) && Tells(step, input, u);
    }
  }

  /** A remediation stands behind the other tasks under the next id, pending, at low risk, with its own family or the one
      its text has. If it is a test task it can be run right away: some answer of the selector makes the next step run
      the tests for it. */
  lemma RemediationRuns(e: Engine, number: int, input: Input)
    requires ValidEngine(e) && StepOf(e, number, input).0.outcome == Failure && input.teacher
    ensures var next := StepOf(e, number, input).1;
            var family := if input.remediationFamily != "" then input.remediationFamily
                          else AntiLoop.Classify(input.remediation);
            next.tasks == e.tasks + [Task(e.nextId, input.remediation, family, "low", Pending)]
    ensures var next := StepOf(e, number, input).1;
            input.remediationFamily == "test" || Contains(Lower(input.remediation), "test") ==>
              exists pick :: StepOf(next, number + 1, Input(Some(pick), "", false, true, false, "", "")).0
                              == StepResult(number + 1, Some(e.nextId), Some("run_tests"), Success, "")
  {
    hide Contains, Lower, PendingFrom, Selected, SetStatus, ValidEngine, AntiLoop.Classify, DecideCommand;
    var next := StepOf(e, number, input).1;
    assert next == Create(e, input.remediation, input.remediationFamily);
    var t := next.tasks[|e.tasks|];
    if !IsTestTask(t) {
      return;
    }
    CommandFits(t);
    var answer := Input(None, "", false, true, false, "", "");
    AnyPendingPicked(next.tasks, |e.tasks|, answer);
    var pick :| Selected(next.tasks, answer.(pick := Some(pick))) == Some(|e.tasks|);
    NotHigh();
    assert StepOf(next, number + 1, Input(Some(pick), "", false, true, false, "", "")).0
        == StepResult(number + 1, Some(e.nextId), Some("run_tests"), Success, "");
  }

  lemma NotHigh()
    ensures "low" != "high"
  {
  }

  // ---------------------------------------------------------------- whole runs

  ghost predicate AllExplained(steps: seq<StepResult>, inputs: nat -> Input, tasks: seq<Task>) {
    forall k :: 0 <= k < |steps| ==> steps[k].number == k + 1 && Explained(steps[k], inputs(k), tasks)
  }

  lemma NextExplained(e: Engine, steps: seq<StepResult>, inputs: nat -> Input)
    requires ValidEngine(e) && AllExplained(steps, inputs, e.tasks)
    ensures var (result, next) := StepOf(e, |steps| + 1, inputs(|steps|));
            ValidEngine(next) && AllExplained(steps + [result], inputs, next.tasks)
  {
    hide StepOf, Explained, ValidEngine, LoopProofs.Kept;
    var (result, next) := StepOf(e, |steps| + 1, inputs(|steps|));
    LoopProofs.StepMoves(e, |steps| + 1, inputs(|steps|));
    StepExplained(e, |steps| + 1, inputs(|steps|));
    forall k | 0 <= k < |steps|
      ensures Explained(steps[k], inputs(k), next.tasks)
    {
      StillExplained(steps[k], inputs(k), e, next);
    }
  }

  lemma {:induction false} RunExplained(e: Engine, steps: seq<StepResult>, limit: nat, inputs: nat -> Input)
    requires |steps| < limit && ValidEngine(e) && AllExplained(steps, inputs, e.tasks)
    ensures var r := RunFrom(e, steps, limit, inputs); AllExplained(r.steps, inputs, r.engine.tasks)
    decreases limit - |steps|
  {
    hide StepOf, StopReason, RunFrom, AllExplained, ValidEngine;
    var (result, next) := StepOf(e, |steps| + 1, inputs(|steps|));
    var done := steps + [result];
    RunFromStep(e, steps, limit, inputs);
    NextExplained(e, steps, inputs);
    if StopReason(done) == "" && |done| < limit {
      RunExplained(next, done, limit, inputs);
    }
  }

  /** Over every run, each step against the tasks at the end of the run: which task it names, whether it ran a command
      and which one, and what became of the task. */
  lemma RunCommands(e: Engine, maxSteps: int, inputs: nat -> Input)
    requires ValidEngine(e)
    ensures var r := Run(e, maxSteps, inputs); AllExplained(r.steps, inputs, r.engine.tasks)
  {
    hide RunFrom;
    RunExplained(e, [], Clamp(maxSteps), inputs);
  }

  /** Some step of the run after the first `n` steps completed the task. */
  ghost predicate CompletedSince(steps: seq<StepResult>, n: nat, tasks: seq<Task>, i: int) {
    exists k :: n <= k < |steps| && steps[k].outcome == Success && Named(steps[k], tasks, i)
  }

  ghost predicate AllCompletedSince(before: seq<Task>, steps: seq<StepResult>, n: nat, after: seq<Task>) {
    forall i :: 0 <= i < |after| && after[i].status == Completed ==>
      (i < |before| && before[i].status == Completed) || CompletedSince(steps, n, after, i)
  }

  lemma StepsGrow(e: Engine, steps: seq<StepResult>, limit: nat, inputs: nat -> Input)
    requires |steps| < limit && ValidEngine(e)
    ensures var (result, next) := StepOf(e, |steps| + 1, inputs(|steps|));
            var r := RunFrom(e, steps, limit, inputs);
            |steps| < |r.steps| && r.steps[..|steps|] == steps && r.steps[|steps|] == result && LoopProofs.Kept(e, r.engine)
    decreases limit - |steps|
  {
    hide StepOf, StopReason, RunFrom, LoopProofs.Kept, ValidEngine;
    var (result, next) := StepOf(e, |steps| + 1, inputs(|steps|));
    var done := steps + [result];
    RunFromStep(e, steps, limit, inputs);
    LoopProofs.RunMoves(e, steps, limit, inputs);
    assert done[..|steps|] == steps && done[|steps|] == result;
    if StopReason(done) == "" && |done| < limit {
      LoopProofs.StepMoves(e, |steps| + 1, inputs(|steps|));
      StepsGrow(next, done, limit, inputs);
      var all := RunFrom(next, done, limit, inputs).steps;
      assert all[..|done|][..|steps|] == all[..|steps|] && all[..|done|][|steps|] == all[|steps|];
    }
  }

  lemma SinceEarlier(before: seq<Task>, middle: seq<Task>, after: seq<Task>, steps: seq<StepResult>, n: nat)
    requires n < |steps| && |before| <= |middle| <= |after|
    requires forall i :: 0 <= i < |middle| ==> middle[i].id == after[i].id
    requires CompletedBy(before, steps[n], middle) && AllCompletedSince(middle, steps, n + 1, after)
    ensures AllCompletedSince(before, steps, n, after)
  {
    forall i | 0 <= i < |after| && after[i].status == Completed && !(i < |before| && before[i].status == Completed)
      ensures CompletedSince(steps, n, after, i)
    {
      if i < |middle| && middle[i].status == Completed {
        assert Named(steps[n], middle, i);
        assert Named(steps[n], after, i);
      } else {
        var k :| n + 1 <= k < |steps| && steps[k].outcome == Success && Named(steps[k], after, i);
        assert n <= k;
      }
    }
  }

  lemma {:induction false} RunCompletesFrom(e: Engine, steps: seq<StepResult>, limit: nat, inputs: nat -> Input)
    requires |steps| < limit && ValidEngine(e)
    ensures var r := RunFrom(e, steps, limit, inputs); AllCompletedSince(e.tasks, r.steps, |steps|, r.engine.tasks)
    decreases limit - |steps|
  {
    hide StepOf, StopReason, RunFrom, ValidEngine, CompletedBy, AllCompletedSince;
    var (result, next) := StepOf(e, |steps| + 1, inputs(|steps|));
    var done, r := steps + [result], RunFrom(e, steps, limit, inputs);
    RunFromStep(e, steps, limit, inputs);
    LoopProofs.StepMoves(e, |steps| + 1, inputs(|steps|));
    StepExplained(e, |steps| + 1, inputs(|steps|));
    StepsGrow(e, steps, limit, inputs);
    if StopReason(done) == "" && |done| < limit {
      RunCompletesFrom(next, done, limit, inputs);
      StepsGrow(next, done, limit, inputs);
    } else {
      SameCompleted(next.tasks, r.steps, |done|);
    }
    assert forall i :: 0 <= i < |next.tasks| ==>
      next.tasks[i].id == r.engine.tasks[i].(status := next.tasks[i].status).id;
    SinceEarlier(e.tasks, next.tasks, r.engine.tasks, r.steps, |steps|);
  }

  lemma SameCompleted(tasks: seq<Task>, steps: seq<StepResult>, n: nat)
    ensures AllCompletedSince(tasks, steps, n, tasks)
  {
  }

  /** Over every run, a task is completed only by a step that names it and succeeded with the command that fits it: a
      test task only by `run_tests`. */
  lemma RunCompletes(e: Engine, maxSteps: int, inputs: nat -> Input, i: nat)
    requires ValidEngine(e)
    requires var r := Run(e, maxSteps, inputs);
             && i < |r.engine.tasks| && r.engine.tasks[i].status == Completed
             && !(i < |e.tasks| && e.tasks[i].status == Completed)
    ensures var r := Run(e, maxSteps, inputs);
            exists k :: 0 <= k < |r.steps| && r.steps[k].outcome == Success && Named(r.steps[k], r.engine.tasks, i)
                     && r.steps[k].command.Some? && Fits(r.engine.tasks[i], r.steps[k].command.value)
  {
    hide RunFrom, AllExplained, AllCompletedSince, Fits, ValidEngine;
    var r := Run(e, maxSteps, inputs);
    RunCompletesFrom(e, [], Clamp(maxSteps), inputs);
    RunCommands(e, maxSteps, inputs);
    RunStaysValid(e, maxSteps, inputs);
    CompletingStep(e.tasks, r.steps, inputs, r.engine, i);
  }

  lemma CompletingStep(before: seq<Task>, steps: seq<StepResult>, inputs: nat -> Input, e: Engine, i: nat)
    requires ValidEngine(e) && AllExplained(steps, inputs, e.tasks) && AllCompletedSince(before, steps, 0, e.tasks)
    requires i < |e.tasks| && e.tasks[i].status == Completed && !(i < |before| && before[i].status == Completed)
    ensures exists k :: 0 <= k < |steps| && steps[k].outcome == Success && Named(steps[k], e.tasks, i)
                     && steps[k].command.Some? && Fits(e.tasks[i], steps[k].command.value)
  {
    hide IsTestTask, IsListTask, IsGitTask, Fits, ValidEngine, Explained;
    assert CompletedSince(steps, 0, e.tasks, i);
    var k :| 0 <= k < |steps| && steps[k].outcome == Success && Named(steps[k], e.tasks, i);
    NamedTask(steps[k], inputs(k), e, i);
  }

  /** Ids are unique, so the step tells of the one task it names. */
  lemma NamedTask(step: StepResult, input: Input, e: Engine, i: nat)
    requires ValidEngine(e) && Explained(step, input, e.tasks) && Named(step, e.tasks, i)
    ensures Tells(step, input, e.tasks[i])
  {
    hide Tells;
    var j :| Named(step, e.tasks, j) && Tells(step, input, e.tasks[j]);
    assert e.tasks[i].id == e.tasks[j].id;
  }

  /** A task of these families is left to a person unless its description mentions a test. */
  predicate Manual(t: Task) {
    (t.family == "code" || t.family == "fix" || t.family == "refactor" || t.family == "docs")
    && !Contains(Lower(t.description), "test")
  }

  lemma ManualFamilies(t: Task)
    ensures Manual(t) ==> !IsTestTask(t) && !IsListTask(t) && !IsGitTask(t)
  {
    hide Contains, Lower;
    assert "code"[0] == 'c' && "code"[2] == 'd' && "config"[0] == 'c' && "config"[2] == 'n';
    assert "fix"[0] == 'f' && "refactor"[0] == 'r' && "docs"[0] == 'd';
    assert "test"[0] == 't' && "analyze"[0] == 'a' && "other"[0] == 'o' && "git"[0] == 'g';
  }

  /** Over every run, a manual task is neither executed nor completed. */
  lemma ManualUntouched(e: Engine, maxSteps: int, inputs: nat -> Input, i: nat)
    requires ValidEngine(e)
    requires i < |Run(e, maxSteps, inputs).engine.tasks| && Manual(Run(e, maxSteps, inputs).engine.tasks[i])
    ensures var r := Run(e, maxSteps, inputs);
            && (forall k :: 0 <= k < |r.steps| && Named(r.steps[k], r.engine.tasks, i) ==>
                  r.steps[k].command.None? && r.steps[k].outcome != Success && r.steps[k].outcome != Failure)
            && (r.engine.tasks[i].status == Completed ==> i < |e.tasks| && e.tasks[i] == r.engine.tasks[i])
  {
    hide RunFrom, Run, IsTestTask, IsListTask, IsGitTask, Manual, ValidEngine;
    var r := Run(e, maxSteps, inputs);
    var t := r.engine.tasks[i];
    ManualFamilies(t);
    RunCommands(e, maxSteps, inputs);
    LoopProofs.RunConserves(e, maxSteps, inputs);
    RunStaysValid(e, maxSteps, inputs);
    forall k | 0 <= k < |r.steps| && Named(r.steps[k], r.engine.tasks, i)
      ensures r.steps[k].command.None? && r.steps[k].outcome != Success && r.steps[k].outcome != Failure
    {
      NamedTask(r.steps[k], inputs(k), r.engine, i);
    }
    if t.status == Completed && !(i < |e.tasks| && e.tasks[i].status == Completed) {
      RunCompletes(e, maxSteps, inputs, i);
    }
  }

  lemma RunStaysValid(e: Engine, maxSteps: int, inputs: nat -> Input)
    requires ValidEngine(e)
    ensures ValidEngine(Run(e, maxSteps, inputs).engine)
  {
    hide RunFrom, ValidEngine, LoopProofs.Kept;
    LoopProofs.RunMoves(e, [], Clamp(maxSteps), inputs);
  }

  // ---------------------------------------------------------------- the end of a run

  lemma {:induction false} IdleCounts(steps: seq<StepResult>)
    ensures CountIdle(steps) == Count(steps, BlockedStep) + Count(steps, Skipped)
  {
    if steps != [] {
      IdleCounts(steps[..|steps| - 1]);
    }
  }

  lemma ReasonMeans(steps: seq<StepResult>)
    requires steps != [] && CountIdle(steps[..|steps| - 1]) <= 2
    ensures var n := |steps|;
            var failing := n >= 3 && steps[n - 3].outcome == Failure && steps[n - 2].outcome == Failure
                        && steps[n - 1].outcome == Failure;
            && CountIdle(steps) <= 3
            && (steps[n - 1].outcome == Stopped ==> StopReason(steps) == steps[n - 1].reason && CountIdle(steps) < 3)
            && (failing ==> StopReason(steps) == "Stopped: 3 consecutive failures" && CountIdle(steps) < 3)
            && (CountIdle(steps) == 3 ==> StopReason(steps) == "Stopped: too many blocked/skipped steps")
            && (steps[n - 1].outcome != Stopped && !failing && CountIdle(steps) < 3 ==> StopReason(steps) == "")
  {
    hide CountIdle, ThreeFailures;
    ThreeMeans(steps);
    IdleStep(steps);
  }

  lemma ThreeMeans(steps: seq<StepResult>)
    ensures ThreeFailures(steps) <==>
            var n := |steps|;
            n >= 3 && steps[n - 3].outcome == Failure && steps[n - 2].outcome == Failure && steps[n - 1].outcome == Failure
  {
  }

  lemma IdleStep(steps: seq<StepResult>)
    requires steps != []
    ensures CountIdle(steps) == CountIdle(steps[..|steps| - 1])
                              + if steps[|steps| - 1].outcome in {BlockedStep, Skipped} then 1 else 0
  {
  }

  lemma ReasonsSaid()
    ensures "Stopped: 3 consecutive failures" != "" && "Stopped: too many blocked/skipped steps" != ""
  {
  }

  /** Why a run ends: at its limit of 1 to 100 steps, or at a stopped step, a third failure in a row or a third blocked
      or skipped step, each with its reason. */
  lemma RunEnds(e: Engine, maxSteps: int, inputs: nat -> Input)
    ensures var r := Run(e, maxSteps, inputs);
            var n, limit := |r.steps|, if maxSteps < 1 then 1 else if maxSteps > 100 then 100 else maxSteps;
            var failing := n >= 3 && r.steps[n - 3].outcome == Failure && r.steps[n - 2].outcome == Failure
                        && r.steps[n - 1].outcome == Failure;
            var idle := Count(r.steps, BlockedStep) + Count(r.steps, Skipped);
            && 1 <= n <= limit && idle <= 3
            && (r.reason != "" <==> r.steps[n - 1].outcome == Stopped || failing || idle == 3)
            && (n < limit ==> r.reason != "")
            && (r.steps[n - 1].outcome == Stopped ==> r.reason == r.steps[n - 1].reason)
            && (failing ==> r.reason == "Stopped: 3 consecutive failures")
            && (idle == 3 ==> r.reason == "Stopped: too many blocked/skipped steps")
  {
    hide RunFrom, StopReason, Count, CountIdle;
    var r := Run(e, maxSteps, inputs);
    var n := |r.steps|;
    LoopProofs.RunShape(e, [], Clamp(maxSteps), inputs);
    var init := r.steps[..n - 1];
    LoopProofs.OngoingBounds(init);
    IdleCounts(r.steps);
    ReasonMeans(r.steps);
    ReasonsSaid();
  }
}
