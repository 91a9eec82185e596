/** The bounded autonomous loop (`autonomous_loop.py`) on its task engine: single steps, the three stop rules of a
    run, and the log of recent steps. */
module AutonomousLoop {
  import opened Text
  import AntiLoop

  // ---------------------------------------------------------------- tasks and steps

  datatype Status = Pending | Running | Completed | Blocked | Failed | ApprovalRequired

  datatype Task = Task(id: int, description: string, family: string, risk: string, status: Status)

  datatype Outcome = Success | Failure | BlockedStep | Skipped | Stopped

  /** `recorded` is the entry that `_record_step` logs. */
  datatype StepResult = StepResult(number: int, taskId: Option<int>, command: Option<string>, outcome: Outcome, reason: string)

  /** What the components around the loop answer during one step: the selector's choice among the pending tasks
      (or its reason to choose none), whether memory advises against the family, whether the command succeeds,
      whether the teacher is called, and the remediation it would propose. */
  datatype Input = Input(pick: Option<nat>, fallback: string, avoid: bool, commandOk: bool, teacher: bool,
                         remediation: string, remediationFamily: string)

  /** The task list of the engine, and its next task id. */
  datatype Engine = Engine(tasks: seq<Task>, nextId: int)

  /** Ids are unique and below the next one. */
  predicate ValidEngine(e: Engine) {
    && (forall i, j :: 0 <= i < j < |e.tasks| ==> e.tasks[i].id != e.tasks[j].id)
    && (forall i :: 0 <= i < |e.tasks| ==> e.tasks[i].id < e.nextId)
  }

  function FamilyOf(t: Task): string {
    if t.family == "" then "other" else t.family
  }

  /** `_decide_action`: the command to execute, if any. */
  function DecideCommand(t: Task): Option<string> {
    var family, desc := FamilyOf(t), Lower(t.description);
    if family == "test" || Contains(desc, "test") then Some("run_tests")
    else if (family == "analyze" || family == "other") && (Contains(desc, "list") || Contains(desc, "file")) then
      Some("list_files")
    else if (family == "git" || family == "config") && (Contains(desc, "status") || Contains(desc, "git")) then
      Some("git_status")
    else None
  }

  /** The indices of the pending tasks, in order. */
  function PendingFrom(tasks: seq<Task>, i: nat): (r: seq<nat>)
    requires i <= |tasks|
    ensures forall k :: 0 <= k < |r| ==> i <= r[k] < |tasks| && tasks[r[k]].status == Pending
    decreases |tasks| - i
  {
    if i == |tasks| then []
    else (if tasks[i].status == Pending then [i] else []) + PendingFrom(tasks, i + 1)
  }

  /** The index of the task the selector picks: any pending task, or none. */
  function Selected(tasks: seq<Task>, input: Input): (r: Option<nat>)
    ensures r.Some? ==> r.value < |tasks| && tasks[r.value].status == Pending
  {
    var pending := PendingFrom(tasks, 0);
    if pending == [] || input.pick.None? then None else Some(pending[input.pick.value % |pending|])
  }

  /** First task with an id, as `get_task` finds it. */
  function IndexOf(tasks: seq<Task>, id: int): (r: Option<nat>)
    ensures r.Some? ==> r.value < |tasks| && tasks[r.value].id == id
    ensures r.Some? ==> forall i :: 0 <= i < r.value ==> tasks[i].id != id
    ensures r.None? ==> forall i :: 0 <= i < |tasks| ==> tasks[i].id != id
  {
    if tasks == [] then None
    else if tasks[0].id == id then Some(0)
    else
      match IndexOf(tasks[1..], id)
      case Some(i) => Some(i + 1)
      case None => None
  }

  function SetStatus(e: Engine, id: int, status: Status): Engine {
    match IndexOf(e.tasks, id)
    case Some(i) => e.(tasks := e.tasks[i := e.tasks[i].(status := status)])
    case None => e
  }

  function Create(e: Engine, description: string, family: string): Engine {
    var fam := if family == "" then AntiLoop.Classify(description) else family;
    Engine(e.tasks + [Task(e.nextId, description, fam, "low", Pending)], e.nextId + 1)
  }

  /** One step: its result and the engine after it. */
  function StepOf(e: Engine, number: int, input: Input): (StepResult, Engine) {
    match Selected(e.tasks, input)
    case None =>
      (StepResult(number, None, None, Stopped,
                  if PendingFrom(e.tasks, 0) == [] then "No pending tasks available"
                  else if input.fallback != "" then input.fallback else "No suitable task found"), e)
    case Some(i) =>
      var t := e.tasks[i];
      if t.risk == "high" then (StepResult(number, Some(t.id), None, Skipped, "Task risk is high"), e)
      else if input.avoid then
        (StepResult(number, Some(t.id), None, BlockedStep, "Family should be avoided"), SetStatus(e, t.id, Blocked))
      else
        match DecideCommand(t)
        case None => (StepResult(number, Some(t.id), None, Skipped, "No safe automatic action"), e)
        case Some(command) =>
          if input.commandOk then
            (StepResult(number, Some(t.id), Some(command), Success, ""), SetStatus(e, t.id, Completed))
          else
            (StepResult(number, Some(t.id), Some(command), Failure, ""),
             if input.teacher then Create(e, input.remediation, input.remediationFamily) else e)
  }

  // ---------------------------------------------------------------- runs

  predicate Idle(o: Outcome) {
    o == BlockedStep || o == Skipped
  }

  function CountIdle(steps: seq<StepResult>): nat {
    if steps == [] then 0 else CountIdle(steps[..|steps| - 1]) + if Idle(steps[|steps| - 1].outcome) then 1 else 0
  }

  function Count(steps: seq<StepResult>, o: Outcome): nat {
    if steps == [] then 0 else Count(steps[..|steps| - 1], o) + if steps[|steps| - 1].outcome == o then 1 else 0
  }

  /** The last three steps failed. */
  predicate ThreeFailures(steps: seq<StepResult>) {
    |steps| >= 3 && forall i :: |steps| - 3 <= i < |steps| ==> steps[i].outcome == Failure
  }

  const FAILURES_REASON := "Stopped: 3 consecutive failures"
  const IDLE_REASON := "Stopped: too many blocked/skipped steps"

  /** The stop reason that applies after the last step of a run; empty when the run goes on. */
  function StopReason(steps: seq<StepResult>): string
    requires steps != []
  {
    var last := steps[|steps| - 1];
    if last.outcome == Stopped then last.reason
    else if ThreeFailures(steps) then FAILURES_REASON
    else if Idle(last.outcome) && CountIdle(steps) >= 3 then IDLE_REASON
    else ""
  }

  function Clamp(maxSteps: int): (limit: nat)
    ensures 1 <= limit <= 100
  {
    if maxSteps < 1 then 1 else if maxSteps > 100 then 100 else maxSteps
  }

  datatype RunResult = RunResult(steps: seq<StepResult>, reason: string, engine: Engine)

  /** The rest of a run after `steps`. */
  function RunFrom(e: Engine, steps: seq<StepResult>, limit: nat, inputs: nat -> Input): RunResult
    requires |steps| < limit
    decreases limit - |steps|
  {
    var (result, next) := StepOf(e, |steps| + 1, inputs(|steps|));
    var done := steps + [result];
    var reason := StopReason(done);
    if reason != "" || |done| == limit then RunResult(done, reason, next)
    else RunFrom(next, done, limit, inputs)
  }

  function Run(e: Engine, maxSteps: int, inputs: nat -> Input): RunResult {
    RunFrom(e, [], Clamp(maxSteps), inputs)
  }

  // ---------------------------------------------------------------- the objects

  class TaskEngine {
    var tasks: seq<Task>
    var nextId: int

    constructor (e: Engine)
      ensures State() == e
    {
      tasks, nextId := e.tasks, e.nextId;
    }

    function State(): Engine
      reads this
    {
      Engine(tasks, nextId)
    }

    method UpdateStatus(id: int, status: Status)
      modifies this
      ensures State() == SetStatus(old(State()), id, status)
    {
      var found := IndexOf(tasks, id);
      if found.Some? {
        tasks := tasks[found.value := tasks[found.value].(status := status)];
      }
    }

    method CreateTask(description: string, family: string)
      modifies this
      ensures State() == Create(old(State()), description, family)
    {
      var fam := if family == "" then AntiLoop.Classify(description) else family;
      tasks := tasks + [Task(nextId, description, fam, "low", Pending)];
      nextId := nextId + 1;
    }
  }

  const MAX_RECENT := 50

  /** The last `n` entries. */
  function LastOf<T>(s: seq<T>, n: nat): seq<T> {
    if |s| <= n then s else s[|s| - n..]
  }

  class Loop {
    const engine: TaskEngine
    var steps: seq<StepResult>
    var stoppedReason: string
    var stepsCompleted: int
    var running: bool
    var recent: seq<StepResult>

    constructor (engine: TaskEngine)
      ensures this.engine == engine && recent == []
    {
      this.engine := engine;
      steps, stoppedReason, stepsCompleted, running, recent := [], "", 0, false, [];
    }

    /** `_record_step`: only the last 50 results are kept. */
    method RecordStep(result: StepResult)
      modifies this`recent
      ensures var all := old(recent) + [result]; recent == if |all| <= 50 then all else all[|all| - 50..]
    {
      recent := recent + [result];
      if |recent| > MAX_RECENT {
        recent := recent[|recent| - MAX_RECENT..];
      }
    }

    method ExecuteStep(number: int, input: Input) returns (result: StepResult)
      modifies this`recent, engine
      ensures (result, engine.State()) == StepOf(old(engine.State()), number, input)
      ensures recent == LastOf(old(recent) + [result], 50)
    {
      var pending := PendingFrom(engine.tasks, 0);
      if pending == [] {
        result := StepResult(number, None, None, Stopped, "No pending tasks available");
        RecordStep(result);
        return;
      }
      var selected := Selected(engine.tasks, input);
      if selected.None? {
        result := StepResult(number, None, None, Stopped,
                             if input.fallback != "" then input.fallback else "No suitable task found");
        RecordStep(result);
        return;
      }
      var task := engine.tasks[selected.value];
      if task.risk == "high" {
        result := StepResult(number, Some(task.id), None, Skipped, "Task risk is high");
        RecordStep(result);
        return;
      }
      if input.avoid {
        result := StepResult(number, Some(task.id), None, BlockedStep, "Family should be avoided");
        engine.UpdateStatus(task.id, Blocked);
        RecordStep(result);
        return;
      }
      var command := DecideCommand(task);
      if command.None? {
        result := StepResult(number, Some(task.id), None, Skipped, "No safe automatic action");
      } else if input.commandOk {
        result := StepResult(number, Some(task.id), command, Success, "");
        engine.UpdateStatus(task.id, Completed);
      } else {
        result := StepResult(number, Some(task.id), command, Failure, "");
        if input.teacher {
          engine.CreateTask(input.remediation, input.remediationFamily);
        }
      }
      RecordStep(result);
    }

    /** `run_loop`. */
    method RunLoop(maxSteps: int, inputs: nat -> Input)
      requires |recent| <= 50
      modifies this, engine
      ensures RunResult(steps, stoppedReason, engine.State()) == Run(old(engine.State()), maxSteps, inputs)
      ensures stepsCompleted == |steps| && !running
      ensures recent == LastOf(old(recent) + steps, 50)
    {
      hide StepOf, LastOf, CountIdle, ThreeFailures, RunFrom;
      var limit := Clamp(maxSteps);
      steps, stoppedReason, running := [], "", true;
      ghost var goal := RunFrom(engine.State(), [], limit, inputs);
      ghost var before := recent;
      LastOfAll(before, MAX_RECENT);
      assert before + [] == before;
      for number := 1 to limit + 1
        invariant |steps| == number - 1 && stoppedReason == "" && (number > 1 ==> stepsCompleted == |steps|)
        invariant if number <= limit then RunFrom(engine.State(), steps, limit, inputs) == goal
                  else RunResult(steps, "", engine.State()) == goal
        invariant recent == LastOf(before + steps, MAX_RECENT)
      {
        ghost var e, previous := engine.State(), steps;
        var result := ExecuteStep(number, inputs(number - 1));
        LastOfAppend(before + previous, result, MAX_RECENT);
        RunFromStep(e, previous, limit, inputs);
        steps := steps + [result];
        stepsCompleted := number;
        assert before + previous + [result] == before + steps;
        if result.outcome == Stopped {
          stoppedReason := result.reason;
          break;
        }
        var failing := LastThreeFailed(steps);
        if failing {
          stoppedReason := FAILURES_REASON;
          break;
        }
        if Idle(result.outcome) && CountIdle(steps) >= 3 {
          stoppedReason := IDLE_REASON;
          break;
        }
      }
      running := false;
    }

    method LastThreeFailed(done: seq<StepResult>) returns (r: bool)
      ensures r == ThreeFailures(done)
    {
      var last := if |done| <= 3 then done else done[|done| - 3..];
      r := |last| >= 3 && forall i :: 0 <= i < |last| ==> last[i].outcome == Failure;
      if r {
        assert forall i :: |done| - 3 <= i < |done| ==> done[i] == last[i - (|done| - |last|)];
      } else if |last| >= 3 {
        var i :| 0 <= i < |last| && last[i].outcome != Failure;
        assert done[i + (|done| - |last|)] == last[i];
      }
    }

    /** `get_recent_steps`: the slice `[-limit:]`, which is the whole log for a limit of zero. */
    method GetRecentSteps(limit: int) returns (r: seq<StepResult>)
      ensures r == RecentSteps(recent, limit)
    {
      if limit == 0 {
        r := recent;
      } else if limit > 0 {
        r := if |recent| <= limit then recent else recent[|recent| - limit..];
      } else {
        r := if |recent| <= -limit then [] else recent[-limit..];
      }
    }
  }

  function RecentSteps(recent: seq<StepResult>, limit: int): seq<StepResult> {
    if limit > 0 then LastOf(recent, limit)
    else if -limit <= |recent| then recent[-limit..]
    else []
  }

  lemma LastOfAll<T>(s: seq<T>, n: nat)
    requires |s| <= n
    ensures LastOf(s, n) == s
  {
  }

  /** A stopped step always names its reason. */
  lemma StoppedHasReason(e: Engine, number: int, input: Input)
    ensures StepOf(e, number, input).0.outcome == Stopped ==> StepOf(e, number, input).0.reason != ""
  {
    hide PendingFrom, DecideCommand, SetStatus, Create;
  }

  /** One turn of the loop: the run ends with the step when a stop rule applies or the limit is reached. */
  lemma RunFromStep(e: Engine, steps: seq<StepResult>, limit: nat, inputs: nat -> Input)
    requires |steps| < limit
    ensures var (result, next) := StepOf(e, |steps| + 1, inputs(|steps|));
            var done := steps + [result];
            && (result.outcome == Stopped ==> result.reason != "")
            && (StopReason(done) != "" || |done| == limit ==>
                  RunFrom(e, steps, limit, inputs) == RunResult(done, StopReason(done), next))
            && (StopReason(done) == "" && |done| < limit ==>
                  RunFrom(e, steps, limit, inputs) == RunFrom(next, done, limit, inputs))
  {
    hide StepOf, StopReason;
    StoppedHasReason(e, |steps| + 1, inputs(|steps|));
  }

  lemma LastOfAppend<T>(s: seq<T>, x: T, n: nat)
    requires n > 0
    ensures LastOf(LastOf(s, n) + [x], n) == LastOf(s + [x], n)
  {
  }

  /** A caller asking for at most `limit` steps gets more exactly when it asks for none and there are some. */
  lemma RecentStepsLimit(recent: seq<StepResult>, limit: int)
    requires limit >= 0
    ensures |RecentSteps(recent, limit)| > limit <==> limit == 0 && recent != []
  {
  }
}
