/** Scoring, normalising and refining an advisory payload (`scripts/igris_api_helper.py`). Numbers are reals. */
module Quality {
  import opened Text

  // ---------------------------------------------------------------- payloads

  /** A confidence as the model gave it: a number, a text with what `float` makes of it, or anything else. */
  datatype Confidence = Number(value: real) | Words(text: string, parsed: Option<real>) | Other

  /** The fields that the scoring reads, as texts; `tests` is absent when the field is not a list. */
  datatype Payload = Payload(diagnosis: string, strategy: string, tests: Option<seq<string>>, confidence: Confidence)

  datatype Phase = Repair | Escalation | Rank

  datatype Gap = Testability | RootCause | MigrationSafety | Sequencing

  function Coerce(c: Confidence): real {
    match c
    case Number(value) => value
    case Words(text, parsed) =>
      var s := Lower(Strip(text));
      if s == "low" then 0.25
      else if s == "medium" || s == "moderate" then 0.5
      else if s == "high" then 0.8
      else if s == "very_high" || s == "very-high" then 0.9
      else if parsed.Some? then parsed.value
      else 0.0
    case Other => 0.0
  }

  /** The stripped tests that are not blank. */
  function Kept(tests: seq<string>): seq<string> {
    if tests == [] then []
    else (if Strip(tests[0]) != "" then [Strip(tests[0])] else []) + Kept(tests[1..])
  }

  function TestsOf(p: Payload): seq<string> {
    if p.tests.Some? then p.tests.value else []
  }

  function Min(a: real, b: real): real {
    if a <= b then a else b
  }

  function Max(a: real, b: real): real {
    if a >= b then a else b
  }

  // ---------------------------------------------------------------- scores and gate

  predicate HasTests(p: Payload) {
    |Kept(TestsOf(p))| >= 2
  }

  predicate HasDetail(p: Payload) {
    |Strip(p.strategy)| >= 80 && |Strip(p.diagnosis)| >= 80
  }

  /** `_quality_score_response`. */
  function Score(p: Payload): real {
    Min(1.0, 0.35 + (if HasDetail(p) then 0.35 else 0.0) + (if HasTests(p) then 0.20 else 0.0)
             + Min(0.10, Coerce(p.confidence) * 0.10))
  }

  function JoinSpaced(ts: seq<string>): string {
    if ts == [] then "" else if |ts| == 1 then Lower(ts[0]) else Lower(ts[0]) + " " + JoinSpaced(ts[1..])
  }

  predicate ContainsAny(s: string, words: seq<string>) {
    exists i :: 0 <= i < |words| && Contains(s, words[i])
  }

  /** `_phase_quality_gaps`. */
  function Gaps(p: Payload, phase: Phase): (gaps: seq<Gap>)
    ensures |gaps| <= 2
  {
    var diagnosis, strategy := Lower(Strip(p.diagnosis)), Lower(Strip(p.strategy));
    var testGap := if |TestsOf(p)| < 2 || !Contains(JoinSpaced(TestsOf(p)), "pytest") then [Testability] else [];
    testGap +
    match phase
    case Repair =>
      if ContainsAny(diagnosis + " " + strategy, ["root cause", "invariant", "regression"]) then [] else [RootCause]
    case Escalation =>
      if ContainsAny(diagnosis + " " + strategy, ["migration", "rollback", "safety"]) then [] else [MigrationSafety]
    case Rank =>
      if ContainsAny(strategy, ["sequence", "rollout", "step"]) then [] else [Sequencing]
  }

  /** `_quality_score_response_phase`. */
  function PhaseScore(p: Payload, phase: Phase): real {
    Max(0.0, Min(1.0, Score(p) - 0.06 * |Gaps(p, phase)| as real))
  }

  /** `_passes_quality_gate`. */
  predicate PassesGate(p: Payload, floor: real) {
    HasTests(p) && HasDetail(p) && Score(p) >= floor
  }

  // ---------------------------------------------------------------- normalisation

  // The verifier looks into the characters of short literals only, so the first word of a long text whose characters
  // matter is a literal of its own, here and below.

  const REPAIR_TESTS := [
    "pytest" + " -q tests/test_targeted.py::test_regression_case",
    "pytest" + " -q -k failing_case_name"]

  const BLOCKED_TESTS := [
    "pytest" + " -q tests/test_supervisor_flow.py::test_rank_progress",
    "python" + " -m igris.cli.rank --dry-run --goal '<goal>'"]

  const DECOMPOSITION_TESTS := [
    "pytest" + " -q tests/test_self_repair_supervisor.py::test_decomposition_policy",
    "pytest" + " -q tests/test_assignment_router_gpu_escalation.py"]

  const OTHER_TESTS := ["pytest" + " -q tests/test_targeted.py", "pytest" + " -q -k regression"]

  function DefaultTests(failureClass: string): seq<string> {
    var fc := Lower(failureClass);
    if fc == "pytest_failure" then REPAIR_TESTS
    else if fc == "reasoning_loop_blocked" then BLOCKED_TESTS
    else if fc == "decomposition_required" then DECOMPOSITION_TESTS
    else OTHER_TESTS
  }

  /** The first occurrences, in order. */
  function Dedup(ts: seq<string>): seq<string> {
    if ts == [] then []
    else
      var init := ts[..|ts| - 1];
      if ts[|ts| - 1] in init then Dedup(init) else Dedup(init) + [ts[|ts| - 1]]
  }

  function FirstFour(ts: seq<string>): seq<string> {
    if |ts| <= 4 then ts else ts[..4]
  }

  const DIAGNOSIS_NOTE :=
    " Root-cause" + " likely involves contract drift or missing execution invariant; verify failing path, expected invariant, and concrete mismatch in the observed state."

  const STRATEGY_NOTE :=
    " Apply" + " minimal targeted patch on the failing path, then run focused regression tests before broader validation to confirm both fix correctness and absence of side effects."

  function NormalTests(p: Payload, failureClass: string): seq<string> {
    var kept := Kept(TestsOf(p));
    FirstFour(Dedup(if |kept| < 2 then kept + DefaultTests(failureClass) else kept))
  }

  function Extended(text: string, note: string): string {
    if |Strip(text)| < 80 then Strip(Strip(text) + note) else text
  }

  /** `_normalize_quality_payload`. */
  function Normalized(p: Payload, failureClass: string): Payload {
    Payload(Extended(p.diagnosis, DIAGNOSIS_NOTE), Extended(p.strategy, STRATEGY_NOTE),
            Some(NormalTests(p, failureClass)),
            if Coerce(p.confidence) < 0.9 then Number(0.9) else p.confidence)
  }

  /** The de-duplicating loop of the normaliser. */
  method Deduplicate(tests: seq<string>) returns (deduped: seq<string>)
    ensures deduped == Dedup(tests)
  {
    var seen: set<string> := {};
    deduped := [];
    for i := 0 to |tests|
      invariant deduped == Dedup(tests[..i])
      invariant forall t :: t in seen <==> t in tests[..i]
    {
      assert tests[..i + 1][..i] == tests[..i];
      if tests[i] !in seen {
        deduped := deduped + [tests[i]];
        seen := seen + {tests[i]};
      }
    }
    assert tests[..|tests|] == tests;
  }

  method Normalize(p: Payload, failureClass: string) returns (n: Payload)
    ensures n == Normalized(p, failureClass)
  {
    hide Kept, DefaultTests, Coerce, Strip, Dedup;
    var tests := Kept(TestsOf(p));
    if |tests| < 2 {
      tests := tests + DefaultTests(failureClass);
    }
    var deduped := Deduplicate(tests);
    n := p.(tests := Some(if |deduped| <= 4 then deduped else deduped[..4]));
    var diagnosis, strategy := Strip(p.diagnosis), Strip(p.strategy);
    if |diagnosis| < 80 {
      n := n.(diagnosis := Strip(diagnosis + DIAGNOSIS_NOTE));
    }
    if |strategy| < 80 {
      n := n.(strategy := Strip(strategy + STRATEGY_NOTE));
    }
    if Coerce(n.confidence) < 0.9 {
      n := n.(confidence := Number(0.9));
    }
  }

  // ---------------------------------------------------------------- the normaliser meets the gate

  /** The extended texts always reach the length the gate asks for. */
  lemma NoteSurvives(text: string, note: string, core: string)
    requires note == " " + core && Tight(core)
    ensures |Strip(Strip(Strip(text) + note))| >= |core|
  {
    hide Strip;
    var t := Strip(text) + note;
    assert OccursAt(core, core, 0);
    assert t == (Strip(text) + " ") + core + "";
    ContainsInContext(Strip(text) + " ", core, "", core);
    TightSurvivesStrip(t, core);
    TightSurvivesStrip(Strip(t), core);
  }

  lemma ExtendedIsLong(text: string, note: string)
    requires |note| > 80 && note[0] == ' ' && Tight(note[1..])
    ensures |Strip(Extended(text, note))| >= 80
  {
    hide Strip, Tight;
    assert note == " " + note[1..];
    NoteSurvives(text, note, note[1..]);
  }

  lemma NotesAreLong()
    ensures |DIAGNOSIS_NOTE| > 80 && DIAGNOSIS_NOTE[0] == ' ' && Tight(DIAGNOSIS_NOTE[1..])
    ensures |STRATEGY_NOTE| > 80 && STRATEGY_NOTE[0] == ' ' && Tight(STRATEGY_NOTE[1..])
  {
    assert DIAGNOSIS_NOTE[1] == " Root-cause"[1] && DIAGNOSIS_NOTE[|DIAGNOSIS_NOTE| - 1] == '.';
    assert STRATEGY_NOTE[1] == " Apply"[1] && STRATEGY_NOTE[|STRATEGY_NOTE| - 1] == '.';
    PrintableIsInk('R');
    PrintableIsInk('A');
    PrintableIsInk('.');
  }

  lemma {:induction false} DedupKeeps(ts: seq<string>)
    ensures forall t :: t in Dedup(ts) <==> t in ts
    ensures forall i, j :: 0 <= i < j < |Dedup(ts)| ==> Dedup(ts)[i] != Dedup(ts)[j]
  {
    if ts != [] {
      var init := ts[..|ts| - 1];
      DedupKeeps(init);
      assert ts == init + [ts[|ts| - 1]];
    }
  }

  /** At least two different texts. */
  predicate TwoDifferent(ts: seq<string>) {
    exists i, j :: 0 <= i < j < |ts| && ts[i] != ts[j]
  }

  lemma DedupTwo(ts: seq<string>)
    ensures |FirstFour(Dedup(ts))| >= 2 <==> TwoDifferent(ts)
  {
    DedupKeeps(ts);
    var d := Dedup(ts);
    if |d| >= 2 {
      assert d[0] in ts && d[1] in ts && d[0] != d[1];
      var i :| 0 <= i < |ts| && ts[i] == d[0];
      var j :| 0 <= j < |ts| && ts[j] == d[1];
      assert if i < j then ts[i] != ts[j] else ts[j] != ts[i];
    }
    if i, j :| 0 <= i < j < |ts| && ts[i] != ts[j] {
      assert ts[i] in d && ts[j] in d;
    }
  }

  predicate Stripped(ts: seq<string>) {
    forall i :: 0 <= i < |ts| ==> Strip(ts[i]) == ts[i] && ts[i] != ""
  }

  lemma StripTwice(s: string)
    ensures Strip(Strip(s)) == Strip(s)
  {
    StripIsTight(s);
    StripShape(s);
    if !Blank(s) {
      var w := Strip(s);
      assert Lead(w) == 0 && Trail(w) == |w|;
    }
  }

  lemma {:induction false} KeptStripped(tests: seq<string>)
    ensures Stripped(Kept(tests))
  {
    if tests != [] {
      StripTwice(tests[0]);
      KeptStripped(tests[1..]);
    }
  }

  lemma {:induction false} KeptOfStripped(ts: seq<string>)
    requires Stripped(ts)
    ensures Kept(ts) == ts
  {
    if ts != [] {
      KeptOfStripped(ts[1..]);
    }
  }

  lemma TightIsStripped(s: string)
    requires Tight(s)
    ensures Strip(s) == s && s != ""
  {
    assert Lead(s) == 0 && Trail(s) == |s|;
  }

  lemma PairOfTests(a: string, b: string)
    requires a != "" && b != "" && Printable(a[0]) && Printable(b[0])
    requires Printable(a[|a| - 1]) && Printable(b[|b| - 1]) && |a| != |b|
    ensures Stripped([a, b]) && TwoDifferent([a, b])
  {
    PrintableIsInk(a[0]);
    PrintableIsInk(b[0]);
    PrintableIsInk(a[|a| - 1]);
    PrintableIsInk(b[|b| - 1]);
    TightIsStripped(a);
    TightIsStripped(b);
    assert [a, b][0] != [a, b][1];
  }

  lemma RepairTests()
    ensures Stripped(REPAIR_TESTS) && TwoDifferent(REPAIR_TESTS)
  {
    PairOfTests(REPAIR_TESTS[0], REPAIR_TESTS[1]);
  }

  lemma BlockedTests()
    ensures Stripped(BLOCKED_TESTS) && TwoDifferent(BLOCKED_TESTS)
  {
    PairOfTests(BLOCKED_TESTS[0], BLOCKED_TESTS[1]);
  }

  lemma DecompositionTests()
    ensures Stripped(DECOMPOSITION_TESTS) && TwoDifferent(DECOMPOSITION_TESTS)
  {
    PairOfTests(DECOMPOSITION_TESTS[0], DECOMPOSITION_TESTS[1]);
  }

  lemma OtherTests()
    ensures Stripped(OTHER_TESTS) && TwoDifferent(OTHER_TESTS)
  {
    PairOfTests(OTHER_TESTS[0], OTHER_TESTS[1]);
  }

  lemma DefaultsAreTests(failureClass: string)
    ensures Stripped(DefaultTests(failureClass)) && TwoDifferent(DefaultTests(failureClass))
  {
    hide Lower, Stripped, TwoDifferent;
    RepairTests();
    BlockedTests();
    DecompositionTests();
    OtherTests();
  }

  lemma {:induction false} SubsetStripped(a: seq<string>, b: seq<string>)
    requires Stripped(b) && forall t :: t in a ==> t in b
    ensures Stripped(a)
  {
    forall i | 0 <= i < |a|
      ensures Strip(a[i]) == a[i] && a[i] != ""
    {
      assert a[i] in b;
      var j :| 0 <= j < |b| && b[j] == a[i];
    }
  }

  /** The payload has fewer than two tests, or at least two different ones. */
  predicate TestsUsable(p: Payload) {
    |Kept(TestsOf(p))| < 2 || TwoDifferent(Kept(TestsOf(p)))
  }

  /** The tests before de-duplication. */
  function Gathered(p: Payload, failureClass: string): seq<string> {
    var kept := Kept(TestsOf(p));
    if |kept| < 2 then kept + DefaultTests(failureClass) else kept
  }

  lemma GatheredTests(p: Payload, failureClass: string)
    ensures Stripped(Gathered(p, failureClass))
    ensures TwoDifferent(Gathered(p, failureClass)) <==> TestsUsable(p)
  {
    hide Strip, DefaultTests, Stripped, Kept;
    var kept, defaults := Kept(TestsOf(p)), DefaultTests(failureClass);
    KeptStripped(TestsOf(p));
    DefaultsAreTests(failureClass);
    BothStripped(kept, defaults);
    if |kept| < 2 {
      var i, j :| 0 <= i < j < |defaults| && defaults[i] != defaults[j];
      var all := kept + defaults;
      assert all[|kept| + i] == defaults[i] && all[|kept| + j] == defaults[j];
    }
  }

  lemma NormalTestsCount(p: Payload, failureClass: string)
    ensures Kept(NormalTests(p, failureClass)) == NormalTests(p, failureClass)
    ensures |NormalTests(p, failureClass)| >= 2 <==> TestsUsable(p)
  {
    hide DefaultTests, Stripped, Kept, TwoDifferent, TestsUsable, Dedup;
    var all := Gathered(p, failureClass);
    GatheredTests(p, failureClass);
    DedupKeeps(all);
    DedupTwo(all);
    SubsetStripped(FirstFour(Dedup(all)), all);
    KeptOfStripped(FirstFour(Dedup(all)));
  }

  lemma BothStripped(a: seq<string>, b: seq<string>)
    requires Stripped(a) && Stripped(b)
    ensures Stripped(a + b)
  {
  }

  /** After normalisation a payload passes the gate at every floor up to 0.99, except exactly when all its tests,
      two or more, were the same. */
  lemma NormalizedMeetsGate(p: Payload, failureClass: string, floor: real)
    requires floor <= 0.99
    ensures PassesGate(Normalized(p, failureClass), floor) <==> TestsUsable(p)
  {
    hide Strip, Kept, NormalTests, Extended, TestsUsable, Tight;
    NotesAreLong();
    ExtendedIsLong(p.diagnosis, DIAGNOSIS_NOTE);
    ExtendedIsLong(p.strategy, STRATEGY_NOTE);
    NormalTestsCount(p, failureClass);
    var n := Normalized(p, failureClass);
    assert HasDetail(n);
    assert Coerce(n.confidence) >= 0.9;
  }

  // ---------------------------------------------------------------- ranges

  /** The documented range of 0 to 1 holds exactly when the stated confidence is not too far below zero. */
  lemma ScoreRange(p: Payload)
    ensures Score(p) <= 1.0
    ensures 0.0 <= Score(p) <==>
            Coerce(p.confidence) >= -3.5 - (if HasDetail(p) then 3.5 else 0.0) - (if HasTests(p) then 2.0 else 0.0)
    ensures forall phase :: 0.0 <= PhaseScore(p, phase) <= 1.0
  {
  }

  // ---------------------------------------------------------------- the refinement loop

  /** What one pass of the loop brings: an exception, or the candidate payloads of the model calls. */
  datatype Pass = Raised | Candidates(payloads: seq<Payload>)

  /** `max(candidates, key=phase score)`: the earliest of the best. */
  function BestOf(candidates: seq<Payload>, phase: Phase): Payload
    requires candidates != []
  {
    var last := candidates[|candidates| - 1];
    if |candidates| == 1 then last
    else
      var best := BestOf(candidates[..|candidates| - 1], phase);
      if PhaseScore(last, phase) > PhaseScore(best, phase) then last else best
  }

  method Best(candidates: seq<Payload>, phase: Phase) returns (best: Payload)
    requires candidates != []
    ensures best == BestOf(candidates, phase) && best in candidates
    ensures forall i :: 0 <= i < |candidates| ==> PhaseScore(candidates[i], phase) <= PhaseScore(best, phase)
  {
    hide PhaseScore;
    best := candidates[0];
    for k := 1 to |candidates|
      invariant best == BestOf(candidates[..k], phase) && best in candidates
      invariant forall i :: 0 <= i < k ==> PhaseScore(candidates[i], phase) <= PhaseScore(best, phase)
    {
      assert candidates[..k + 1][..k] == candidates[..k];
      if PhaseScore(candidates[k], phase) > PhaseScore(best, phase) {
        best := candidates[k];
      }
    }
    assert candidates[..|candidates|] == candidates;
  }

  /** The payload that the loop arrives at, pass by pass: a candidate replaces the payload when it is at least
      as good. */
  function Refined(p: Payload, phase: Phase, floor: real, passes: seq<Pass>): Payload
    decreases |passes|
  {
    if passes == [] || PassesGate(p, floor) || passes[0].Raised? then p
    else
      var candidates := passes[0].payloads;
      var better := candidates != [] && PhaseScore(BestOf(candidates, phase), phase) >= PhaseScore(p, phase);
      Refined(if better then BestOf(candidates, phase) else p, phase, floor, passes[1..])
  }

  /** Some candidate of the first `n` passes is `p`. */
  ghost predicate Offered(passes: seq<Pass>, n: nat, p: Payload) {
    exists i :: 0 <= i < n && i < |passes| && passes[i].Candidates? && p in passes[i].payloads
  }

  /** The refinement loop: `passes` is what the model calls of each pass would bring. The result is at least as
      good as the start and as every candidate offered in the passes carried out, and the loop only ends early at
      a payload that passes the gate or at an exception. */
  method Refine(initial: Payload, phase: Phase, floor: real, maxPasses: int, passes: seq<Pass>)
    returns (result: Payload, applied: bool, ghost done: nat)
    requires |passes| >= maxPasses
    ensures result == Refined(initial, phase, floor, passes[..if maxPasses < 0 then 0 else maxPasses])
    ensures PhaseScore(result, phase) >= PhaseScore(initial, phase)
    ensures forall p :: Offered(passes, done, p) ==> PhaseScore(p, phase) <= PhaseScore(result, phase)
    ensures if applied then Offered(passes, done, result) else result == initial
    ensures done == 0 || done <= maxPasses
    ensures done < maxPasses ==> PassesGate(result, floor) || passes[done].Raised?
  {
    hide PhaseScore, PassesGate, BestOf;
    ghost var budget := passes[..if maxPasses < 0 then 0 else maxPasses];
    assert budget[0..] == budget;
    result := initial;
    applied := false;
    done := 0;
    var pass := 0;
    while pass < maxPasses
      invariant done == pass && (pass == 0 || pass <= maxPasses)
      invariant Refined(result, phase, floor, budget[pass..]) == Refined(initial, phase, floor, budget)
      invariant PhaseScore(result, phase) >= PhaseScore(initial, phase)
      invariant forall p :: Offered(passes, done, p) ==> PhaseScore(p, phase) <= PhaseScore(result, phase)
      invariant if applied then Offered(passes, done, result) else result == initial
    {
      assert budget[pass..][0] == passes[pass] && budget[pass..][1..] == budget[pass + 1..];
      if PassesGate(result, floor) || passes[pass].Raised? {
        break;
      }
      var candidates := passes[pass].payloads;
      if candidates != [] {
        var best := Best(candidates, phase);
        if PhaseScore(best, phase) >= PhaseScore(result, phase) {
          result := best;
          applied := true;
        }
      }
      pass := pass + 1;
      done := pass;
    }
  }

  // ---------------------------------------------------------------- the end of the boost

  /** The last steps of the boost: normalise once more and raise the confidence to the model's minimum. */
  function Finished(p: Payload, failureClass: string, minimum: real): Payload {
    var n := Normalized(p, failureClass);
    if Coerce(n.confidence) < minimum then n.(confidence := Number(minimum)) else n
  }

  /** Whatever the passes brought, the final payload meets any default floor unless its tests were all the same. */
  lemma FinishedMeetsGate(p: Payload, failureClass: string, minimum: real, floor: real)
    requires floor <= 0.99
    ensures PassesGate(Finished(p, failureClass, minimum), floor) <==> TestsUsable(p)
  {
    hide Strip, Kept, NormalTests, Extended, TestsUsable, Tight;
    NotesAreLong();
    ExtendedIsLong(p.diagnosis, DIAGNOSIS_NOTE);
    ExtendedIsLong(p.strategy, STRATEGY_NOTE);
    NormalTestsCount(p, failureClass);
    var f := Finished(p, failureClass, minimum);
    assert HasDetail(f);
    assert Coerce(f.confidence) >= 0.9;
  }
}
