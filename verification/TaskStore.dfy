/** The A2A task store (`task_store.py`): tasks with a status, artifacts and an event log. */
module TaskStore {
  import opened Text

  datatype Event = StatusChange(status: string, detail: string) | ArtifactAdded(artifactId: string, detail: string)

  datatype Artifact = Artifact(id: string, name: string, content: string, mimeType: string)

  datatype Task = Task(id: string, title: string, description: string, status: string,
                       artifacts: seq<Artifact>, events: seq<Event>)

  const VALID_STATUSES := {"submitted", "working", "input_required", "completed", "failed", "canceled"}
  const TERMINAL_STATUSES := {"completed", "failed", "canceled"}
  const MAX_ARTIFACT_SIZE := 100_000

  datatype ArtifactReply = NoTask | TooLarge | Added(artifact: Artifact)

  type Redaction = string -> string

  // ---------------------------------------------------------------- the task after each operation

  function NewTask(redact: Redaction, id: string, title: string, description: string): Task {
    Task(id, redact(title), redact(description), "submitted", [], [StatusChange("submitted", "Task created")])
  }

  function WithStatus(redact: Redaction, t: Task, status: string, detail: string): Task {
    t.(status := status, events := t.events + [StatusChange(status, redact(detail))])
  }

  function WithArtifact(redact: Redaction, t: Task, a: Artifact): Task {
    t.(artifacts := t.artifacts + [a], events := t.events + [ArtifactAdded(a.id, "Artifact added: " + a.name)])
  }

  function NewArtifact(redact: Redaction, artifactId: string, name: string, content: string, mimeType: string): Artifact {
    Artifact(artifactId, redact(name), redact(content), mimeType)
  }

  /** The status may change to this one: it is a valid status, and the task has not ended. */
  predicate MayBecome(t: Task, status: string) {
    status in VALID_STATUSES && t.status !in TERMINAL_STATUSES
  }

  /** `_redact_task`: what the getters hand out. */
  function Redacted(redact: Redaction, t: Task): Task {
    t.(title := redact(t.title), description := redact(t.description),
       artifacts := seq(|t.artifacts|, i requires 0 <= i < |t.artifacts| =>
                        t.artifacts[i].(content := redact(t.artifacts[i].content), name := redact(t.artifacts[i].name))),
       events := seq(|t.events|, i requires 0 <= i < |t.events| => t.events[i].(detail := redact(t.events[i].detail))))
  }

  // ---------------------------------------------------------------- the store

  class A2AStore {
    const redact: Redaction
    var tasks: map<string, Task>

    constructor (redact: Redaction)
      ensures this.redact == redact && tasks == map[]
    {
      this.redact := redact;
      tasks := map[];
    }

    method Create(id: string, title: string, description: string) returns (r: Task)
      modifies this
      ensures tasks == old(tasks)[id := Task(id, redact(title), redact(description), "submitted", [],
                                             [StatusChange("submitted", "Task created")])]
      ensures tasks == Step(redact, old(tasks), CreateOp(id, title, description))
      ensures r == Redacted(redact, tasks[id])
    {
      var task := Task(id, redact(title), redact(description), "submitted", [], [StatusChange("submitted", "Task created")]);
      tasks := tasks[id := task];
      r := Redacted(redact, task);
    }

    method UpdateStatus(id: string, status: string, detail: string) returns (r: Option<Task>)
      modifies this
      ensures r.Some? <==>
              && id in old(tasks) && old(tasks)[id].status !in {"completed", "failed", "canceled"}
              && status in {"submitted", "working", "input_required", "completed", "failed", "canceled"}
      ensures r.Some? ==>
                var t := old(tasks)[id];
                tasks == old(tasks)[id := t.(status := status, events := t.events + [StatusChange(status, redact(detail))])]
      ensures r.None? ==> tasks == old(tasks)
      ensures tasks == Step(redact, old(tasks), UpdateOp(id, status, detail))
      ensures r.Some? ==> r.value == Redacted(redact, tasks[id])
    {
      if id !in tasks {
        return None;
      }
      var task := tasks[id];
      if status !in VALID_STATUSES {
        return None;
      }
      if task.status in TERMINAL_STATUSES {
        return None;
      }
      task := task.(status := status);
      task := task.(events := task.events + [StatusChange(status, redact(detail))]);
      tasks := tasks[id := task];
      r := Some(Redacted(redact, task));
    }

    method Cancel(id: string, reason: string) returns (r: Option<Task>)
      modifies this
      ensures r.Some? <==> id in old(tasks) && old(tasks)[id].status !in {"completed", "failed", "canceled"}
      ensures tasks == if r.Some? then old(tasks)[id := WithStatus(redact, old(tasks)[id], "canceled", CancelDetail(reason))]
                       else old(tasks)
      ensures tasks == Step(redact, old(tasks), CancelOp(id, reason))
    {
      r := UpdateStatus(id, "canceled", CancelDetail(reason));
    }

    method AddArtifact(id: string, artifactId: string, name: string, content: string, mimeType: string)
      returns (r: ArtifactReply)
      modifies this
      ensures r == if id !in old(tasks) then NoTask
                   else if |content| > 100_000 then TooLarge
                   else Added(Artifact(artifactId, redact(name), redact(content), mimeType))
      ensures tasks == if r.Added? then old(tasks)[id := WithArtifact(redact, old(tasks)[id], r.artifact)] else old(tasks)
      ensures tasks == Step(redact, old(tasks), ArtifactOp(id, artifactId, name, content, mimeType))
    {
      if id !in tasks {
        return NoTask;
      }
      var task := tasks[id];
      if |content| > MAX_ARTIFACT_SIZE {
        return TooLarge;
      }
      var artifact := Artifact(artifactId, redact(name), redact(content), mimeType);
      task := task.(artifacts := task.artifacts + [artifact]);
      task := task.(events := task.events + [ArtifactAdded(artifactId, "Artifact added: " + artifact.name)]);
      tasks := tasks[id := task];
      r := Added(artifact);
    }
  }

  function CancelDetail(reason: string): string {
    if reason == "" then "Canceled by user" else reason
  }

  // ---------------------------------------------------------------- runs

  datatype Op =
    | CreateOp(id: string, title: string, description: string)
    | UpdateOp(id: string, status: string, detail: string)
    | CancelOp(id: string, detail: string)
    | ArtifactOp(id: string, artifactId: string, name: string, content: string, mimeType: string)

  function Step(redact: Redaction, tasks: map<string, Task>, op: Op): map<string, Task> {
    match op
    case CreateOp(id, title, description) => tasks[id := NewTask(redact, id, title, description)]
    case UpdateOp(id, status, detail) =>
      if id in tasks && MayBecome(tasks[id], status) then tasks[id := WithStatus(redact, tasks[id], status, detail)] else tasks
    case CancelOp(id, detail) =>
      if id in tasks && MayBecome(tasks[id], "canceled") then
        tasks[id := WithStatus(redact, tasks[id], "canceled", CancelDetail(detail))]
      else tasks
    case ArtifactOp(id, artifactId, name, content, mimeType) =>
      if id in tasks && |content| <= MAX_ARTIFACT_SIZE then
        tasks[id := WithArtifact(redact, tasks[id], NewArtifact(redact, artifactId, name, content, mimeType))]
      else tasks
  }

  function RunOps(redact: Redaction, tasks: map<string, Task>, ops: seq<Op>): map<string, Task>
    decreases |ops|
  {
    if ops == [] then tasks else Step(redact, RunOps(redact, tasks, ops[..|ops| - 1]), ops[|ops| - 1])
  }

  // ---------------------------------------------------------------- the log agrees with the task

  /** The statuses of the log, in order. */
  function Changes(events: seq<Event>): seq<string> {
    if events == [] then []
    else
      var init := Changes(events[..|events| - 1]);
      var last := events[|events| - 1];
      if last.StatusChange? then init + [last.status] else init
  }

  /** The artifact ids of the log, in order. */
  function LoggedArtifacts(events: seq<Event>): seq<string> {
    if events == [] then []
    else
      var init := LoggedArtifacts(events[..|events| - 1]);
      var last := events[|events| - 1];
      if last.ArtifactAdded? then init + [last.artifactId] else init
  }

  function ArtifactIds(artifacts: seq<Artifact>): seq<string> {
    seq(|artifacts|, i requires 0 <= i < |artifacts| => artifacts[i].id)
  }

  /** The status is that of the last logged change, the first change is the creation, every logged status is valid
      and only the last may be terminal, and the logged artifacts are the task's artifacts. */
  predicate Consistent(t: Task) {
    var changes := Changes(t.events);
    && changes != [] && changes[0] == "submitted" && t.status == changes[|changes| - 1]
    && (forall i :: 0 <= i < |changes| ==> changes[i] in VALID_STATUSES)
    && (forall i :: 0 <= i < |changes| - 1 ==> changes[i] !in TERMINAL_STATUSES)
    && LoggedArtifacts(t.events) == ArtifactIds(t.artifacts)
  }

  lemma LogAppend(events: seq<Event>, e: Event)
    ensures Changes(events + [e]) == Changes(events) + if e.StatusChange? then [e.status] else []
    ensures LoggedArtifacts(events + [e]) == LoggedArtifacts(events) + if e.ArtifactAdded? then [e.artifactId] else []
  {
    assert (events + [e])[..|events|] == events;
  }

  lemma NewConsistent(redact: Redaction, id: string, title: string, description: string)
    ensures Consistent(NewTask(redact, id, title, description))
  {
    LogAppend([], StatusChange("submitted", "Task created"));
    assert [] + [StatusChange("submitted", "Task created")] == [StatusChange("submitted", "Task created")];
  }

  lemma StatusConsistent(redact: Redaction, t: Task, status: string, detail: string)
    requires Consistent(t) && MayBecome(t, status)
    ensures Consistent(WithStatus(redact, t, status, detail))
  {
    LogAppend(t.events, StatusChange(status, redact(detail)));
  }

  lemma ArtifactConsistent(redact: Redaction, t: Task, a: Artifact)
    requires Consistent(t)
    ensures Consistent(WithArtifact(redact, t, a))
  {
    LogAppend(t.events, ArtifactAdded(a.id, "Artifact added: " + a.name));
  }

  /** After every run each task and its event log agree. */
  lemma {:induction false} EventLogAgrees(redact: Redaction, tasks: map<string, Task>, ops: seq<Op>, id: string)
    requires forall i :: i in tasks ==> Consistent(tasks[i])
    requires id in RunOps(redact, tasks, ops)
    ensures Consistent(RunOps(redact, tasks, ops)[id])
    decreases |ops|
  {
    hide Consistent, MayBecome, NewTask, WithStatus, WithArtifact, NewArtifact;
    if ops != [] {
      var op := ops[|ops| - 1];
      var before := RunOps(redact, tasks, ops[..|ops| - 1]);
      if id in before {
        EventLogAgrees(redact, tasks, ops[..|ops| - 1], id);
      }
      if op.id == id {
        match op {
          case CreateOp(_, title, description) => NewConsistent(redact, id, title, description);
          case UpdateOp(_, status, detail) =>
            if id in before && MayBecome(before[id], status) {
              StatusConsistent(redact, before[id], status, detail);
            }
          case CancelOp(_, detail) =>
            if id in before && MayBecome(before[id], "canceled") {
              StatusConsistent(redact, before[id], "canceled", CancelDetail(detail));
            }
          case ArtifactOp(_, artifactId, name, content, mimeType) =>
            if id in before {
              ArtifactConsistent(redact, before[id], NewArtifact(redact, artifactId, name, content, mimeType));
            }
        }
      }
    }
  }

  // ---------------------------------------------------------------- ended tasks, other tasks

  /** The log of `after` continues that of `before`. */
  predicate Continues(before: Task, after: Task) {
    && |before.events| <= |after.events| && after.events[..|before.events|] == before.events
    && |before.artifacts| <= |after.artifacts| && after.artifacts[..|before.artifacts|] == before.artifacts
    && after.title == before.title && after.description == before.description
    && (before.status in TERMINAL_STATUSES ==> after.status == before.status && Changes(after.events) == Changes(before.events))
  }

  lemma StatusContinues(redact: Redaction, t: Task, status: string, detail: string)
    requires MayBecome(t, status)
    ensures Continues(t, WithStatus(redact, t, status, detail))
  {
    hide Changes;
  }

  lemma ArtifactContinues(redact: Redaction, t: Task, a: Artifact)
    ensures Continues(t, WithArtifact(redact, t, a))
  {
    hide Changes;
    LogAppend(t.events, ArtifactAdded(a.id, "Artifact added: " + a.name));
  }

  lemma ContinuesStep(redact: Redaction, tasks: map<string, Task>, op: Op, id: string)
    requires id in tasks && !(op.CreateOp? && op.id == id)
    ensures id in Step(redact, tasks, op) && Continues(tasks[id], Step(redact, tasks, op)[id])
    ensures op.id != id ==> Step(redact, tasks, op)[id] == tasks[id]
  {
    hide Continues, WithStatus, WithArtifact, NewTask, NewArtifact, MayBecome;
    ContinuesSelf(tasks[id]);
    if op.id == id {
      match op {
        case CreateOp(_, _, _) =>
        case UpdateOp(_, status, detail) =>
          if MayBecome(tasks[id], status) {
            StatusContinues(redact, tasks[id], status, detail);
          }
        case CancelOp(_, detail) =>
          if MayBecome(tasks[id], "canceled") {
            StatusContinues(redact, tasks[id], "canceled", CancelDetail(detail));
          }
        case ArtifactOp(_, artifactId, name, content, mimeType) =>
          ArtifactContinues(redact, tasks[id], NewArtifact(redact, artifactId, name, content, mimeType));
      }
    }
  }

  lemma ContinuesTwice(a: Task, b: Task, c: Task)
    requires Continues(a, b) && Continues(b, c)
    ensures Continues(a, c)
  {
    hide Changes;
    assert c.events[..|a.events|] == c.events[..|b.events|][..|a.events|];
    assert c.artifacts[..|a.artifacts|] == c.artifacts[..|b.artifacts|][..|a.artifacts|];
  }

  /** Over every run that does not create the task anew, its log and artifacts only grow at the end; once it has
      ended, its status and its status changes stay for good; and operations on other tasks leave it alone. */
  lemma {:induction false} EndedTasksStay(redact: Redaction, tasks: map<string, Task>, ops: seq<Op>, id: string)
    requires id in tasks
    requires forall i :: 0 <= i < |ops| ==> !(ops[i].CreateOp? && ops[i].id == id)
    ensures id in RunOps(redact, tasks, ops) && Continues(tasks[id], RunOps(redact, tasks, ops)[id])
    ensures (forall i :: 0 <= i < |ops| ==> ops[i].id != id) ==> RunOps(redact, tasks, ops)[id] == tasks[id]
    decreases |ops|
  {
    hide Step, Changes, Continues;
    if ops == [] {
      ContinuesSelf(tasks[id]);
    } else {
      var before := RunOps(redact, tasks, ops[..|ops| - 1]);
      EndedTasksStay(redact, tasks, ops[..|ops| - 1], id);
      ContinuesStep(redact, before, ops[|ops| - 1], id);
      ContinuesTwice(tasks[id], before[id], RunOps(redact, tasks, ops)[id]);
    }
  }

  lemma ContinuesSelf(t: Task)
    ensures Continues(t, t)
  {
  }
}
