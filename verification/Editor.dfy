/** The line-edit engine (`agent_loop_edit_mixin.py`): what each edit decides about a text, and the editor object
    that carries the decisions out on its files. */
module Editor {
  import opened Text
  import opened Insertion

  /** The tests the engine asks of other components: Python's parser, the secret detector, and whether a new
      `server.py` loses `create_app` or `run_app` (old text, new text). */
  datatype Checks = Checks(validPython: (string, string) -> bool,
                           secretLike: string -> bool,
                           dropsCritical: (string, string) -> bool)

  datatype Reason =
    | MissingParameter
    | FileNotFound
    | AnchorNotFound
    | AfterBlock
    | AfterDecorator
    | DuplicateRoute
    | BeforeInit
    | InvalidRange
    | PastEndOfFile
    | InvalidPython
    | SecretLike
    | CompleteModule
    | Destructive
    | SymbolRemoved

  /** `Keep` is a success that leaves the file as it is. */
  datatype Verdict = Refuse(reason: Reason) | Keep | Commit(text: string)

  function Apply(text: string, v: Verdict): string {
    if v.Commit? then v.text else text
  }

  // ---------------------------------------------------------------- shared steps

  /** Index of the first line containing the anchor. */
  function FirstIndex(lines: seq<string>, anchor: string): (r: Option<nat>)
    ensures r.Some? ==> r.value < |lines| && Contains(lines[r.value], anchor)
    ensures r.Some? ==> forall i :: 0 <= i < r.value ==> !Contains(lines[i], anchor)
    ensures r.None? ==> forall i :: 0 <= i < |lines| ==> !Contains(lines[i], anchor)
  {
    if lines == [] then None
    else if Contains(lines[0], anchor) then Some(0)
    else
      match FirstIndex(lines[1..], anchor)
      case Some(i) => Some(i + 1)
      case None => None
  }

  /** The anchor line of `insert_after`, with its fallback for the plain app initialisation. */
  function AfterIndex(lines: seq<string>, anchor: string): (r: Option<nat>)
    ensures r.Some? ==> r.value < |lines|
  {
    var direct := FirstIndex(lines, anchor);
    if direct.None? && Strip(anchor) == APP_INIT_ALIAS then FirstIndex(lines, APP_INIT_CALL) else direct
  }

  function EnsureNL(content: string): (r: string)
    ensures EndsNL(r)
  {
    if EndsNL(content) then content else content + "\n"
  }

  predicate IsPython(path: string) {
    EndsWith(path, ".py")
  }

  /** Syntax check, comparison with the text on disk, secret check of the new part, write. */
  function Finish(c: Checks, path: string, before: string, merged: string, insertion: string): Verdict {
    if IsPython(path) && !c.validPython(path, merged) then Refuse(InvalidPython)
    else if before == merged then Keep
    else if c.secretLike(insertion) then Refuse(SecretLike)
    else Commit(merged)
  }

  function Splice(lines: seq<string>, from: nat, to: nat, middle: string): string
    requires from <= to <= |lines|
  {
    Join(lines[..from] + [middle] + lines[to..])
  }

  /** The steps `insert_after` and `insert_before` share once the anchor line is known. */
  function InsertVerdict(c: Checks, path: string, text: string, idx: nat, insertion: string, after: bool): Verdict
    requires idx < |Lines(text)|
  {
    var lines := Lines(text);
    var point := if after then idx + 1 else idx;
    if RouteExists(lines, insertion) then Refuse(DuplicateRoute)
    else if RouteBeforeInit(lines, point, insertion) then Refuse(BeforeInit)
    else if NearAnchor(lines, idx, insertion, after) then Keep
    else Finish(c, path, text, Splice(lines, point, point, insertion), insertion)
  }

  function AfterInsertion(text: string, idx: nat, content: string): string
    requires idx < |Lines(text)|
  {
    Normalized(Lines(text)[idx], EnsureNL(content))
  }

  /** `_execute_insert_after` on the text of an existing file. */
  function AfterVerdict(c: Checks, path: string, text: string, anchor: string, content: string): Verdict {
    match AfterIndex(Lines(text), anchor)
    case None => Refuse(AnchorNotFound)
    case Some(idx) =>
      var insertion := AfterInsertion(text, idx, content);
      if AfterBlockHeader(Lines(text)[idx], insertion) then Refuse(AfterBlock)
      else if AfterDecoratorLine(Lines(text)[idx], insertion) then Refuse(AfterDecorator)
      else InsertVerdict(c, path, text, idx, insertion, true)
  }

  /** `_execute_insert_before` on the text of an existing file. */
  function BeforeVerdict(c: Checks, path: string, text: string, anchor: string, content: string): Verdict {
    match FirstIndex(Lines(text), anchor)
    case None => Refuse(AnchorNotFound)
    case Some(idx) => InsertVerdict(c, path, text, idx, EnsureNL(content), false)
  }

  /** `_execute_replace_range` on the text of an existing file; lines count from 1. */
  function ReplaceVerdict(c: Checks, path: string, text: string, start: int, end: int, content: string): Verdict {
    var lines := Lines(text);
    if start < 1 || end < start then Refuse(InvalidRange)
    else if end > |lines| then Refuse(PastEndOfFile)
    else
      var replacement := EnsureNL(content);
      if RouteExists(lines[..start - 1] + lines[end..], replacement) then Keep
      else Finish(c, path, text, Splice(lines, start - 1, end, replacement), replacement)
  }

  const MODULE_MARKERS := ["\ndef ", "\nasync def ", "\nclass ", "\n@pytest.fixture", "\napp = ", "\nclient = "]

  /** `looks_like_complete_python_module`. */
  predicate CompletePythonModule(content: string) {
    var stripped := LStrip(content);
    && (StartsWith(stripped, "import ") || StartsWith(stripped, "from "))
    && exists i :: 0 <= i < |MODULE_MARKERS| && Contains("\n" + stripped, MODULE_MARKERS[i])
  }

  function AppendedText(existing: string, content: string): string {
    existing + (if Terminated(existing) then "" else "\n") + content
  }

  /** `_execute_append_file`; a missing file counts as empty. */
  function AppendVerdict(c: Checks, path: string, existing: string, content: string): Verdict {
    if IsPython(path) && Strip(existing) != "" && CompletePythonModule(content) then Refuse(CompleteModule)
    else Finish(c, path, existing, AppendedText(existing, content), content)
  }

  /** An edit of an existing file, as the runs of `EditRuns` take it. */
  datatype Edit =
    | After(anchor: string, content: string)
    | Before(anchor: string, content: string)
    | Replace(start: int, end: int, content: string)
    | Append(content: string)

  function EditVerdict(c: Checks, path: string, text: string, e: Edit): Verdict {
    match e
    case After(anchor, content) => AfterVerdict(c, path, text, anchor, content)
    case Before(anchor, content) => BeforeVerdict(c, path, text, anchor, content)
    case Replace(start, end, content) => ReplaceVerdict(c, path, text, start, end, content)
    case Append(content) => AppendVerdict(c, path, text, content)
  }

  function Step(c: Checks, path: string, text: string, e: Edit): string {
    Apply(text, EditVerdict(c, path, text, e))
  }

  // ---------------------------------------------------------------- whole-file writes

  /** Index of the last occurrence of `ch` in `s`, plus one; 0 when there is none. */
  function AfterLast(s: string, ch: char): (n: nat)
    ensures n <= |s|
  {
    if s == "" then 0 else if s[|s| - 1] == ch then |s| else AfterLast(s[..|s| - 1], ch)
  }

  function BaseName(path: string): string {
    path[AfterLast(path, '/')..]
  }

  /** `os.path.splitext(path)[1].lower()`: leading periods do not start an extension. */
  function Extension(path: string): string {
    var name := BaseName(path);
    var dot := AfterLast(name, '.');
    if dot == 0 || (forall i :: 0 <= i < dot ==> name[i] == '.') then "" else Lower(name[dot - 1..])
  }

  predicate IsServer(path: string) {
    BaseName(path) == "server.py" || EndsWith(path, "web/server.py")
  }

  /** `_execute_write_file`; `existing` is the present content, if any. */
  function WriteVerdict(c: Checks, path: string, existing: Option<string>, content: string): Verdict {
    if existing == Some(content) then Keep
    else if existing.Some? && DestructiveWrite(Extension(path), |existing.value|, |content|) then Refuse(Destructive)
    else if existing.Some? && IsServer(path) && IsPython(path) && c.dropsCritical(existing.value, content) then
      Refuse(SymbolRemoved)
    else if IsPython(path) && !c.validPython(path, content) then Refuse(InvalidPython)
    else Commit(content)
  }

  // ---------------------------------------------------------------- the editor object

  class FileEditor {
    const checks: Checks
    var files: map<string, string>
    var modified: seq<string>

    constructor (checks: Checks, files: map<string, string>)
      ensures this.checks == checks && this.files == files && modified == []
    {
      this.checks := checks;
      this.files := files;
      modified := [];
    }

    /** The disk and the list of modified files after a safe edit that ended in `v`: a refused edit and a
        no-change edit leave both alone, a committed one writes one file and records its path. */
    twostate predicate Carried(path: string, v: Verdict)
      reads this
    {
      && files == (if v.Commit? then old(files)[path := v.text] else old(files))
      && modified == (if v.Commit? then old(modified) + [path] else old(modified))
    }

    /** `_commit_safe_edit`: only the new part is searched for secrets. */
    method CommitSafeEdit(path: string, merged: string, insertion: string) returns (ok: bool)
      modifies this`files
      ensures ok == !checks.secretLike(insertion)
      ensures files == if ok then old(files)[path := merged] else old(files)
    {
      if checks.secretLike(insertion) {
        return false;
      }
      files := files[path := merged];
      return true;
    }

    /** The common end of the safe edits. */
    method ValidateAndCommit(path: string, before: string, merged: string, insertion: string) returns (v: Verdict)
      modifies this
      ensures v == Finish(checks, path, before, merged, insertion)
      ensures Carried(path, v)
    {
      if IsPython(path) && !checks.validPython(path, merged) {
        return Refuse(InvalidPython);
      }
      if before == merged {
        return Keep;
      }
      var written := CommitSafeEdit(path, merged, insertion);
      if !written {
        return Refuse(SecretLike);
      }
      modified := modified + [path];
      return Commit(merged);
    }

    method InsertAfter(path: string, anchor: Option<string>, content: Option<string>) returns (v: Verdict)
      modifies this
      ensures v == if path == "" || anchor.None? || content.None? then Refuse(MissingParameter)
                   else if path !in old(files) then Refuse(FileNotFound)
                   else AfterVerdict(checks, path, old(files)[path], anchor.value, content.value)
      ensures Carried(path, v)
      ensures path != "" && path in old(files) && anchor.Some? && content.Some? ==>
                files == old(files)[path := Step(checks, path, old(files)[path], After(anchor.value, content.value))]
    {
      hide Lines, Contains, Strip, Normalized, FirstIndex, EnsureNL, RouteExists, RouteBeforeInit, NearAnchor,
           AfterBlockHeader, AfterDecoratorLine, Join, IsPython;
      if path == "" || anchor.None? || content.None? {
        return Refuse(MissingParameter);
      }
      if path !in files {
        return Refuse(FileNotFound);
      }
      var lines := Lines(files[path]);
      var found := FirstIndex(lines, anchor.value);
      if found.None? && Strip(anchor.value) == APP_INIT_ALIAS {
        found := FirstIndex(lines, APP_INIT_CALL);
      }
      if found.None? {
        return Refuse(AnchorNotFound);
      }
      var idx := found.value;
      var insertion := NormalizeIndent(lines[idx], EnsureNL(content.value));
      if AfterBlockHeader(lines[idx], insertion) {
        return Refuse(AfterBlock);
      }
      if AfterDecoratorLine(lines[idx], insertion) {
        return Refuse(AfterDecorator);
      }
      if RouteExists(lines, insertion) {
        return Refuse(DuplicateRoute);
      }
      if RouteBeforeInit(lines, idx + 1, insertion) {
        return Refuse(BeforeInit);
      }
      if NearAnchor(lines, idx, insertion, true) {
        return Keep;
      }
      v := ValidateAndCommit(path, files[path], Join(lines[..idx + 1] + [insertion] + lines[idx + 1..]), insertion);
    }

    method InsertBefore(path: string, anchor: Option<string>, content: Option<string>) returns (v: Verdict)
      modifies this
      ensures v == if path == "" || anchor.None? || content.None? then Refuse(MissingParameter)
                   else if path !in old(files) then Refuse(FileNotFound)
                   else BeforeVerdict(checks, path, old(files)[path], anchor.value, content.value)
      ensures Carried(path, v)
      ensures path != "" && path in old(files) && anchor.Some? && content.Some? ==>
                files == old(files)[path := Step(checks, path, old(files)[path], Before(anchor.value, content.value))]
    {
      hide Lines, Contains, Strip, Normalized, FirstIndex, EnsureNL, RouteExists, RouteBeforeInit, NearAnchor,
           AfterBlockHeader, AfterDecoratorLine, Join, IsPython;
      if path == "" || anchor.None? || content.None? {
        return Refuse(MissingParameter);
      }
      if path !in files {
        return Refuse(FileNotFound);
      }
      var lines := Lines(files[path]);
      var found := FirstIndex(lines, anchor.value);
      if found.None? {
        return Refuse(AnchorNotFound);
      }
      var idx := found.value;
      var insertion := EnsureNL(content.value);
      if RouteExists(lines, insertion) {
        return Refuse(DuplicateRoute);
      }
      if RouteBeforeInit(lines, idx, insertion) {
        return Refuse(BeforeInit);
      }
      if NearAnchor(lines, idx, insertion, false) {
        return Keep;
      }
      v := ValidateAndCommit(path, files[path], Join(lines[..idx] + [insertion] + lines[idx..]), insertion);
    }

    method ReplaceRange(path: string, start: Option<int>, end: Option<int>, content: Option<string>) returns (v: Verdict)
      modifies this
      ensures v == if path == "" || start.None? || end.None? || content.None? then Refuse(MissingParameter)
                   else if start.value < 1 || end.value < start.value then Refuse(InvalidRange)
                   else if path !in old(files) then Refuse(FileNotFound)
                   else ReplaceVerdict(checks, path, old(files)[path], start.value, end.value, content.value)
      ensures Carried(path, v)
      ensures path != "" && path in old(files) && start.Some? && end.Some? && content.Some? ==>
                files == old(files)[path := Step(checks, path, old(files)[path], Replace(start.value, end.value, content.value))]
    {
      hide Lines, Contains, Strip, Normalized, FirstIndex, EnsureNL, RouteExists, RouteBeforeInit, NearAnchor,
           AfterBlockHeader, AfterDecoratorLine, Join, IsPython;
      if path == "" || start.None? || end.None? || content.None? {
        return Refuse(MissingParameter);
      }
      if start.value < 1 || end.value < start.value {
        return Refuse(InvalidRange);
      }
      if path !in files {
        return Refuse(FileNotFound);
      }
      var lines := Lines(files[path]);
      if end.value > |lines| {
        return Refuse(PastEndOfFile);
      }
      var replacement := EnsureNL(content.value);
      if RouteExists(lines[..start.value - 1] + lines[end.value..], replacement) {
        return Keep;
      }
      v := ValidateAndCommit(path, files[path],
                             Join(lines[..start.value - 1] + [replacement] + lines[end.value..]), replacement);
    }

    method AppendFile(path: string, content: Option<string>) returns (v: Verdict)
      modifies this
      ensures v == if path == "" || content.None? then Refuse(MissingParameter)
                   else AppendVerdict(checks, path, if path in old(files) then old(files)[path] else "", content.value)
      ensures Carried(path, v)
      ensures path != "" && path in old(files) && content.Some? ==>
                files == old(files)[path := Step(checks, path, old(files)[path], Append(content.value))]
    {
      if path == "" || content.None? {
        return Refuse(MissingParameter);
      }
      var existing := "";
      if path in files {
        existing := files[path];
      }
      if IsPython(path) && Strip(existing) != "" && CompletePythonModule(content.value) {
        return Refuse(CompleteModule);
      }
      var sep := if existing == "" || EndsNL(existing) then "" else "\n";
      v := ValidateAndCommit(path, existing, existing + sep + content.value, content.value);
    }

    /** Unlike the safe edits, a write of the content already on disk is recorded as a modification. */
    method WriteFile(path: string, content: Option<string>) returns (v: Verdict)
      modifies this
      ensures v == if path == "" || content.None? then Refuse(MissingParameter)
                   else WriteVerdict(checks, path, if path in old(files) then Some(old(files)[path]) else None, content.value)
      ensures files == if v.Commit? then old(files)[path := v.text] else old(files)
      ensures path in old(files) ==> files == old(files)[path := Apply(old(files)[path], v)]
      ensures modified == if v.Refuse? then old(modified) else old(modified) + [path]
    {
      hide Extension, IsServer, IsPython, DestructiveWrite;
      if path == "" || content.None? {
        return Refuse(MissingParameter);
      }
      if path in files {
        var existing := files[path];
        if existing == content.value {
          modified := modified + [path];
          return Keep;
        }
        if DestructiveWrite(Extension(path), |existing|, |content.value|) {
          return Refuse(Destructive);
        }
        if IsServer(path) && IsPython(path) && checks.dropsCritical(existing, content.value) {
          return Refuse(SymbolRemoved);
        }
      }
      if IsPython(path) && !checks.validPython(path, content.value) {
        return Refuse(InvalidPython);
      }
      files := files[path := content.value];
      modified := modified + [path];
      return Commit(content.value);
    }
  }
}
