/** Where everything that the A2A task store keeps comes from, over every run of its operations from an empty store, and
    what its getters hand out. */
module TaskLaws {
  import opened Text
  import opened TaskStore

  // ---------------------------------------------------------------- what the store keeps

  /** The title and the description are redacted from an operation that created the task. */
  ghost predicate CreatedBy(redact: Redaction, ops: seq<Op>, t: Task) {
    exists k :: 0 <= k < |ops| && ops[k].CreateOp? && ops[k].id == t.id
             && t.title == redact(ops[k].title) && t.description == redact(ops[k].description)
  }

  /** The artifact comes from an operation within the size limit, its name and content redacted. */
  ghost predicate AddedBy(redact: Redaction, ops: seq<Op>, id: string, a: Artifact) {
    exists k :: 0 <= k < |ops| && ops[k].ArtifactOp? && ops[k].id == id && |ops[k].content| <= 100_000
             && a == Artifact(ops[k].artifactId, redact(ops[k].name), redact(ops[k].content), ops[k].mimeType)
  }

  predicate Logs(redact: Redaction, op: Op, e: Event) {
    match op
    case CreateOp(_, _, _) => e == StatusChange("submitted", "Task created")
    case UpdateOp(_, status, detail) =>
      && e == StatusChange(status, redact(detail))
      && status in {"submitted", "working", "input_required", "completed", "failed", "canceled"}
    case CancelOp(_, reason) =>
      e == StatusChange("canceled", redact(if reason == "" then "Canceled by user" else reason))
    case ArtifactOp(_, artifactId, name, content, _) =>
      e == ArtifactAdded(artifactId, "Artifact added: " + redact(name)) && |content| <= 100_000
  }

  /** The event is the one that some operation on the task logs. */
  ghost predicate LoggedBy(redact: Redaction, ops: seq<Op>, id: string, e: Event) {
    exists k :: 0 <= k < |ops| && ops[k].id == id && Logs(redact, ops[k], e)
  }

  ghost predicate Sourced(redact: Redaction, ops: seq<Op>, t: Task) {
    && CreatedBy(redact, ops, t)
    && (forall i :: 0 <= i < |t.artifacts| ==> AddedBy(redact, ops, t.id, t.artifacts[i]))
    && (forall i :: 0 <= i < |t.events| ==> LoggedBy(redact, ops, t.id, t.events[i]))
  }

  lemma LoggedBefore(redact: Redaction, ops: seq<Op>, op: Op, id: string, e: Event)
    requires LoggedBy(redact, ops, id, e) || (op.id == id && Logs(redact, op, e))
    ensures LoggedBy(redact, ops + [op], id, e)
  {
    hide Logs;
    var all := ops + [op];
    if LoggedBy(redact, ops, id, e) {
      var k :| 0 <= k < |ops| && ops[k].id == id && Logs(redact, ops[k], e);
      assert all[k] == ops[k];
    } else {
      assert all[|ops|] == op;
    }
  }

  lemma AddedBefore(redact: Redaction, ops: seq<Op>, op: Op, id: string, a: Artifact)
    requires AddedBy(redact, ops, id, a) || AddedBy(redact, [op], id, a)
    ensures AddedBy(redact, ops + [op], id, a)
  {
    var all := ops + [op];
    if AddedBy(redact, ops, id, a) {
      var k :| 0 <= k < |ops| && ops[k].ArtifactOp? && ops[k].id == id && |ops[k].content| <= 100_000
            && a == Artifact(ops[k].artifactId, redact(ops[k].name), redact(ops[k].content), ops[k].mimeType);
      assert all[k] == ops[k];
    } else {
      assert all[|ops|] == op == [op][0];
    }
  }

  lemma SourcedBefore(redact: Redaction, ops: seq<Op>, op: Op, t: Task)
    requires Sourced(redact, ops, t)
    ensures Sourced(redact, ops + [op], t)
  {
    hide Logs, AddedBy, LoggedBy;
    var all := ops + [op];
    var k :| 0 <= k < |ops| && ops[k].CreateOp? && ops[k].id == t.id
          && t.title == redact(ops[k].title) && t.description == redact(ops[k].description);
    assert all[k] == ops[k];
    forall i | 0 <= i < |t.artifacts|
      ensures AddedBy(redact, all, t.id, t.artifacts[i])
    {
      AddedBefore(redact, ops, op, t.id, t.artifacts[i]);
    }
    forall i | 0 <= i < |t.events|
      ensures LoggedBy(redact, all, t.id, t.events[i])
    {
      LoggedBefore(redact, ops, op, t.id, t.events[i]);
    }
  }

  lemma NewSourced(redact: Redaction, ops: seq<Op>, op: Op)
    requires op.CreateOp?
    ensures Sourced(redact, ops + [op], NewTask(redact, op.id, op.title, op.description))
  {
    hide Logs, LoggedBy, AddedBy;
    var t := NewTask(redact, op.id, op.title, op.description);
    assert (ops + [op])[|ops|] == op;
    CreationLogged(redact, op);
    LoggedBefore(redact, ops, op, op.id, t.events[0]);
  }

  lemma CreationLogged(redact: Redaction, op: Op)
    requires op.CreateOp?
    ensures Logs(redact, op, StatusChange("submitted", "Task created"))
  {
  }

  /** A task that the operation continues by an event, and by an artifact if it adds one. */
  lemma ContinuedSourced(redact: Redaction, ops: seq<Op>, op: Op, t: Task, after: Task)
    requires Sourced(redact, ops, t) && op.id == t.id == after.id
    requires after.title == t.title && after.description == t.description
    requires after.events != [] && after.events[..|after.events| - 1] == t.events
    requires Logs(redact, op, after.events[|after.events| - 1])
    requires after.artifacts == t.artifacts
          || (exists a :: AddedBy(redact, [op], t.id, a) && after.artifacts == t.artifacts + [a])
    ensures Sourced(redact, ops + [op], after)
  {
    hide Logs, LoggedBy, AddedBy;
    SourcedBefore(redact, ops, op, t);
    var n := |after.events| - 1;
    LoggedBefore(redact, ops, op, t.id, after.events[n]);
    assert forall i :: 0 <= i < n ==> after.events[i] == t.events[i];
    if after.artifacts != t.artifacts {
      var a :| AddedBy(redact, [op], t.id, a) && after.artifacts == t.artifacts + [a];
      AddedBefore(redact, ops, op, t.id, a);
    }
  }

  lemma StatusSourced(redact: Redaction, ops: seq<Op>, op: Op, t: Task, status: string, detail: string)
    requires Sourced(redact, ops, t) && op.id == t.id && Logs(redact, op, StatusChange(status, redact(detail)))
    ensures Sourced(redact, ops + [op], WithStatus(redact, t, status, detail))
  {
    hide Sourced, Logs;
    ContinuedSourced(redact, ops, op, t, WithStatus(redact, t, status, detail));
  }

  lemma ArtifactSourced(redact: Redaction, ops: seq<Op>, op: Op, t: Task)
    requires Sourced(redact, ops, t) && op.id == t.id && op.ArtifactOp? && |op.content| <= 100_000
    ensures Sourced(redact, ops + [op],
                    WithArtifact(redact, t, NewArtifact(redact, op.artifactId, op.name, op.content, op.mimeType)))
  {
    hide Sourced;
    var a := NewArtifact(redact, op.artifactId, op.name, op.content, op.mimeType);
    assert [op][0] == op;
    assert AddedBy(redact, [op], t.id, a);
    ContinuedSourced(redact, ops, op, t, WithArtifact(redact, t, a));
  }

  /** Over every run from an empty store: each task stands under its id, its title and description, the name and content
      of each artifact and the detail of each event are redacted from what an operation on that task said, artifacts are
      within 100 000 characters, and logged statuses are valid. */
  lemma {:induction false} StoredIsRedacted(redact: Redaction, ops: seq<Op>, id: string)
    requires id in RunOps(redact, map[], ops)
    ensures RunOps(redact, map[], ops)[id].id == id && Sourced(redact, ops, RunOps(redact, map[], ops)[id])
    decreases |ops|
  {
    hide Sourced, Logs, NewTask, WithStatus, WithArtifact, NewArtifact, MayBecome;
    if ops != [] {
      var init, op := ops[..|ops| - 1], ops[|ops| - 1];
      var before := RunOps(redact, map[], init);
      assert ops == init + [op];
      if id in before {
        StoredIsRedacted(redact, init, id);
        SourcedBefore(redact, init, op, before[id]);
      }
      if op.id == id {
        StepSourced(redact, init, op, before, id);
      }
    }
  }

  lemma StepSourced(redact: Redaction, ops: seq<Op>, op: Op, before: map<string, Task>, id: string)
    requires op.id == id && id in Step(redact, before, op)
    requires id in before ==> before[id].id == id && Sourced(redact, ops, before[id])
    ensures Step(redact, before, op)[id].id == id && Sourced(redact, ops + [op], Step(redact, before, op)[id])
  {
    hide Sourced;
    if id in before {
      SourcedBefore(redact, ops, op, before[id]);
    }
    match op {
      case CreateOp(_, _, _) => NewSourced(redact, ops, op);
      case UpdateOp(_, status, detail) =>
        if id in before && MayBecome(before[id], status) {
          StatusSourced(redact, ops, op, before[id], status, detail);
        }
      case CancelOp(_, reason) =>
        if id in before && MayBecome(before[id], "canceled") {
          StatusSourced(redact, ops, op, before[id], "canceled", CancelDetail(reason));
        }
      case ArtifactOp(_, _, _, content, _) =>
        if id in before && |content| <= MAX_ARTIFACT_SIZE {
          ArtifactSourced(redact, ops, op, before[id]);
        }
    }
  }

  // ---------------------------------------------------------------- what the getters hand out

  /** Redacting twice is redacting once. */
  ghost predicate Settles(redact: Redaction) {
    forall s :: redact(redact(s)) == redact(s)
  }

  /** What a getter hands out keeps ids, kinds, statuses and order, and redacts every text. With a redaction that settles
      it is, but for the details of events, what the store holds. */
  lemma HandedOut(redact: Redaction, ops: seq<Op>, id: string)
    requires id in RunOps(redact, map[], ops)
    ensures var t := RunOps(redact, map[], ops)[id];
            var r := Redacted(redact, t);
            && r.id == t.id && r.status == t.status && |r.events| == |t.events|
            && r.title == redact(t.title) && r.description == redact(t.description)
            && (forall i :: 0 <= i < |r.events| ==>
                  r.events[i] == match t.events[i]
                                 case StatusChange(status, detail) => StatusChange(status, redact(detail))
                                 case ArtifactAdded(artifactId, detail) => ArtifactAdded(artifactId, redact(detail)))
            && (Settles(redact) ==> r == t.(events := r.events))
  {
    hide RunOps, LoggedBy, AddedBy;
    var t := RunOps(redact, map[], ops)[id];
    var r := Redacted(redact, t);
    StoredIsRedacted(redact, ops, id);
    if Settles(redact) {
      forall i | 0 <= i < |t.artifacts|
        ensures r.artifacts[i] == t.artifacts[i]
      {
        assert AddedBy(redact, ops, t.id, t.artifacts[i]);
        AddedSettles(redact, ops, t.id, t.artifacts[i]);
      }
      assert r.artifacts == t.artifacts;
    }
  }

  lemma AddedSettles(redact: Redaction, ops: seq<Op>, id: string, a: Artifact)
    requires Settles(redact) && AddedBy(redact, ops, id, a)
    ensures redact(a.name) == a.name && redact(a.content) == a.content
  {
  }
}
