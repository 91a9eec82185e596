/** The structural fallback of the refinement: an advisory built from a sectional plan replaces a payload that failed
    the gate (`scripts/igris_api_helper.py`, `_advisory_from_sectional_plan` and the end of `main`). */
module Fallback {
  import opened Text
  import opened Quality

  /** The parts of the model's plan that the scoring of the advisory sees, as texts; a field that is no list counts
      as empty. */
  datatype Plan = Plan(rollout: seq<string>, tests: seq<string>)

  // As in Quality, words whose characters matter are literals of their own.

  const DIAGNOSIS :=
    "Main" + " risk is partial architectural coverage or unstable sequencing across memory layers. Section-by-section decomposition is used to keep changes testable and auditable."

  const STRATEGY_START := "Execute" + " ordered "
  const STRATEGY_MIDDLE :=
    " with per-section file edits, validate each section with focused pytest, then run integration "
  const STRATEGY_END := " for retrieval/context/"

  const STRATEGY :=
    STRATEGY_START + "rollout" + STRATEGY_MIDDLE + "regression" + STRATEGY_END + "migration" + " consistency."

  const PLAN_TESTS := [
    "pytest" + " -q tests/test_memory_chunker.py",
    "pytest" + " -q tests/test_memory_content_store.py",
    "pytest" + " -q tests/test_memory_retrieval.py"]

  function FirstSix(ts: seq<string>): seq<string> {
    if |ts| <= 6 then ts else ts[..6]
  }

  /** `"; ".join(steps)`. */
  function JoinSteps(ts: seq<string>): string {
    if ts == [] then "" else if |ts| == 1 then ts[0] else ts[0] + "; " + JoinSteps(ts[1..])
  }

  function AdvisoryTests(plan: Plan): seq<string> {
    if |plan.tests| < 2 then PLAN_TESTS else FirstSix(plan.tests)
  }

  /** `_advisory_from_sectional_plan`. */
  function Advisory(plan: Plan): Payload {
    Payload(DIAGNOSIS, STRATEGY + " Rollout: " + JoinSteps(FirstSix(plan.rollout)), Some(AdvisoryTests(plan)), Number(0.96))
  }

  /** The fallback is used: the payload fails the gate and scores no better than the advisory, phase aside. */
  predicate Adopts(result: Payload, plan: Option<Plan>, floor: real) {
    !PassesGate(result, floor) && plan.Some? && Score(Advisory(plan.value)) >= Score(result)
  }

  /** The payload after the fallback; the plan is absent when the call failed or brought no object. */
  function AfterFallback(result: Payload, plan: Option<Plan>, floor: real): Payload {
    if Adopts(result, plan, floor) then Advisory(plan.value) else result
  }

  // ---------------------------------------------------------------- what every advisory scores

  lemma LowerContains(s: string, t: string)
    requires Contains(s, t)
    ensures Contains(Lower(s), Lower(t))
  {
    var i :| 0 <= i <= |s| - |t| && OccursAt(s, t, i);
    assert Lower(s)[i..i + |t|] == Lower(t);
    assert OccursAt(Lower(s), Lower(t), i);
  }

  lemma TextsAreTight()
    ensures Tight(DIAGNOSIS) && |DIAGNOSIS| >= 80
    ensures Tight(STRATEGY) && |STRATEGY| >= 80
  {
    PrintableIsInk('M');
    PrintableIsInk('E');
    PrintableIsInk('.');
    assert DIAGNOSIS[0] == "Main"[0] && DIAGNOSIS[|DIAGNOSIS| - 1] == '.';
    assert STRATEGY[0] == "Execute"[0] && STRATEGY[|STRATEGY| - 1] == " consistency."[12];
  }

  lemma StrategyWords()
    ensures Contains(STRATEGY, "rollout") && Contains(STRATEGY, "regression") && Contains(STRATEGY, "migration")
  {
    hide STRATEGY_START, STRATEGY_MIDDLE, STRATEGY_END, Contains;
    ContainsItself("rollout");
    ContainsItself("regression");
    ContainsItself("migration");
    var early := STRATEGY_START + "rollout" + STRATEGY_MIDDLE;
    var late := STRATEGY_END + "migration" + " consistency.";
    ContainsInContext(STRATEGY_START, "rollout", STRATEGY_MIDDLE + "regression" + late, "rollout");
    assert STRATEGY == STRATEGY_START + "rollout" + (STRATEGY_MIDDLE + "regression" + late);
    ContainsInContext(early, "regression", late, "regression");
    assert STRATEGY == early + "regression" + late;
    ContainsInContext(early + "regression" + STRATEGY_END, "migration", " consistency.", "migration");
  }

  lemma LowerWords()
    ensures Lower("rollout") == "rollout" && Lower("regression") == "regression" && Lower("migration") == "migration"
  {
  }

  /** The words of the fixed text survive stripping, lowering and whatever the plan's rollout adds. */
  lemma WordSurvives(word: string, rest: string)
    requires Contains(STRATEGY, word) && Lower(word) == word
    ensures Contains(Lower(Strip(STRATEGY + rest)), word)
    ensures forall front :: Contains(front + Lower(Strip(STRATEGY + rest)), word)
  {
    hide Strip, Lower, Contains;
    FixedTextSurvives(rest);
    ContainsTransitive(Strip(STRATEGY + rest), STRATEGY, word);
    LowerContains(Strip(STRATEGY + rest), word);
    var s := Lower(Strip(STRATEGY + rest));
    forall front: string
      ensures Contains(front + s, word)
    {
      ContainsInContext(front, s, "", word);
      assert front + s + "" == front + s;
    }
  }

  lemma FixedTextSurvives(rest: string)
    ensures Contains(Strip(STRATEGY + rest), STRATEGY)
  {
    hide Strip, Contains, Tight;
    TextsAreTight();
    ContainsItself(STRATEGY);
    ContainsInContext("", STRATEGY, rest, STRATEGY);
    assert "" + STRATEGY + rest == STRATEGY + rest;
    TightSurvivesStrip(STRATEGY + rest, STRATEGY);
  }

  lemma LongerThanPart(s: string, t: string)
    requires Contains(s, t)
    ensures |s| >= |t|
  {
  }

  lemma AdvisoryDetail(plan: Plan)
    ensures HasDetail(Advisory(plan))
  {
    hide Strip, Contains, Tight;
    var rest := " Rollout: " + JoinSteps(FirstSix(plan.rollout));
    TextsAreTight();
    TightIsStripped(DIAGNOSIS);
    FixedTextSurvives(rest);
    LongerThanPart(Strip(STRATEGY + rest), STRATEGY);
    assert Advisory(plan).strategy == STRATEGY + rest;
  }

  lemma AdvisoryScore(plan: Plan)
    ensures Score(Advisory(plan)) == if HasTests(Advisory(plan)) then 0.996 else 0.796
  {
    hide HasDetail, HasTests;
    AdvisoryDetail(plan);
    assert Coerce(Advisory(plan).confidence) == 0.96;
  }

  /** The advisory passes the gate exactly when two of its tests are not blank and the floor is at most 0.996. */
  lemma AdvisoryMeetsGate(plan: Plan, floor: real)
    ensures PassesGate(Advisory(plan), floor) <==> HasTests(Advisory(plan)) && floor <= 0.996
  {
    hide HasDetail, HasTests;
    AdvisoryDetail(plan);
    AdvisoryScore(plan);
  }

  predicate MentionsPytest(plan: Plan) {
    Contains(JoinSpaced(AdvisoryTests(plan)), "pytest")
  }

  lemma WordAmong(s: string, words: seq<string>, i: nat)
    requires i < |words| && Contains(s, words[i])
    ensures ContainsAny(s, words)
  {
    hide Contains;
  }

  /** A strategy that starts with the fixed text has the words that every phase looks for. */
  lemma FixedTextGaps(p: Payload, rest: string, phase: Phase)
    requires p.strategy == STRATEGY + rest && |TestsOf(p)| >= 2
    ensures Gaps(p, phase) == if Contains(JoinSpaced(TestsOf(p)), "pytest") then [] else [Testability]
  {
    hide Strip, Contains, Lower, ContainsAny, JoinSpaced;
    var diagnosis, strategy := Lower(Strip(p.diagnosis)), Lower(Strip(p.strategy));
    StrategyWords();
    LowerWords();
    WordSurvives("rollout", rest);
    WordSurvives("regression", rest);
    WordSurvives("migration", rest);
    match phase {
      case Repair => WordAmong(diagnosis + " " + strategy, ["root cause", "invariant", "regression"], 2);
      case Escalation => WordAmong(diagnosis + " " + strategy, ["migration", "rollback", "safety"], 0);
      case Rank => WordAmong(strategy, ["sequence", "rollout", "step"], 1);
    }
  }

  /** The only gap an advisory can have is that none of its tests mentions pytest. */
  lemma AdvisoryGaps(plan: Plan, phase: Phase)
    ensures Gaps(Advisory(plan), phase) == if MentionsPytest(plan) then [] else [Testability]
  {
    hide Contains, JoinSpaced, Gaps;
    FixedTextGaps(Advisory(plan), " Rollout: " + JoinSteps(FirstSix(plan.rollout)), phase);
  }

  // ---------------------------------------------------------------- what the fallback does to the phase score

  lemma AdvisoryPhaseScore(plan: Plan, phase: Phase)
    ensures PhaseScore(Advisory(plan), phase) == Score(Advisory(plan)) - if MentionsPytest(plan) then 0.0 else 0.06
  {
    hide Score, Gaps, MentionsPytest, Advisory;
    AdvisoryScore(plan);
    AdvisoryGaps(plan, phase);
    assert 0.06 * 0 as real == 0.0 && 0.06 * 1 as real == 0.06;
  }

  lemma PhaseScoreAtMost(p: Payload, phase: Phase)
    ensures PhaseScore(p, phase) <= Max(0.0, Score(p))
  {
    hide Score, Gaps;
    assert 0.06 * |Gaps(p, phase)| as real >= 0.0;
  }

  /** The fallback never lowers the plain score, and costs at most 0.06 of the phase score. */
  lemma FallbackLoss(result: Payload, plan: Option<Plan>, floor: real, phase: Phase)
    ensures Score(AfterFallback(result, plan, floor)) >= Score(result)
    ensures PhaseScore(AfterFallback(result, plan, floor), phase) >= PhaseScore(result, phase) - 0.06
  {
    hide Score, PhaseScore, PassesGate, Advisory, MentionsPytest;
    if Adopts(result, plan, floor) {
      AdvisoryScore(plan.value);
      AdvisoryPhaseScore(plan.value, phase);
      PhaseScoreAtMost(result, phase);
    }
  }

  /** Exactly when the fallback keeps the phase score from falling: it is not used, or the tests of the plan mention
      pytest, or the payload it replaces was 0.06 below the advisory's plain score. */
  lemma FallbackHarmless(result: Payload, plan: Option<Plan>, floor: real, phase: Phase)
    ensures PhaseScore(AfterFallback(result, plan, floor), phase) >= PhaseScore(result, phase)
       <==> || !Adopts(result, plan, floor)
            || MentionsPytest(plan.value)
            || PhaseScore(result, phase) <= Score(Advisory(plan.value)) - 0.06
  {
    hide Score, PhaseScore, PassesGate, Advisory, MentionsPytest;
    if Adopts(result, plan, floor) {
      AdvisoryScore(plan.value);
      AdvisoryPhaseScore(plan.value, phase);
      PhaseScoreAtMost(result, phase);
    }
  }

  // ---------------------------------------------------------------- an instance

  const GOOD := Payload(DIAGNOSIS, STRATEGY, Some(["pytest -q", "pytest -x tests"]), Number(0.5))
  const BARE := Plan([], ["make", "tox"])

  lemma PairKept(a: string, b: string)
    requires a != "" && b != "" && Printable(a[0]) && Printable(b[0])
    requires Printable(a[|a| - 1]) && Printable(b[|b| - 1]) && |a| != |b|
    ensures Kept([a, b]) == [a, b]
  {
    PairOfTests(a, b);
    KeptOfStripped([a, b]);
  }

  lemma JoinPair(a: string, b: string)
    ensures JoinSpaced([a, b]) == Lower(a) + " " + Lower(b)
  {
    assert [a, b][1..] == [b];
  }

  lemma GoodPayload(phase: Phase)
    ensures Gaps(GOOD, phase) == [] && Score(GOOD) == 0.95
  {
    hide Strip, Kept, Contains, Tight, JoinSpaced, Gaps, Lower;
    TextsAreTight();
    TightIsStripped(DIAGNOSIS);
    TightIsStripped(STRATEGY);
    PairKept("pytest -q", "pytest -x tests");
    JoinPair("pytest -q", "pytest -x tests");
    ContainsItself("pytest");
    ContainsInContext("", "pytest", " -q", "pytest");
    assert "" + "pytest" + " -q" == "pytest -q";
    LowerContains("pytest -q", "pytest");
    LowerPytest();
    var t := Lower("pytest -q");
    ContainsInContext("", t, " " + Lower("pytest -x tests"), "pytest");
    assert "" + t + (" " + Lower("pytest -x tests")) == t + " " + Lower("pytest -x tests");
    assert STRATEGY + "" == STRATEGY;
    FixedTextGaps(GOOD, "", phase);
  }

  lemma LowerPytest()
    ensures Lower("pytest") == "pytest"
  {
  }

  lemma BarePlan()
    ensures !MentionsPytest(BARE) && HasTests(Advisory(BARE))
  {
    hide Kept, Strip;
    PairKept("make", "tox");
    JoinPair("make", "tox");
    assert Lower("make") == "make" && Lower("tox") == "tox";
    assert "make" + " " + "tox" == "make tox";
    assert "pytest"[0] == 'p' && 'p' !in "make tox";
    assert forall i :: OccursAt("make tox", "pytest", i) ==> "make tox"[i] == "make tox"[i..i + 6][0];
  }

  /** In every phase a plan whose two tests do not mention pytest takes a payload without gaps from 0.95 to 0.936, at
      the floor of 0.97 that the escalation phase has by default. */
  lemma FallbackMayLowerPhaseScore(phase: Phase)
    ensures AfterFallback(GOOD, Some(BARE), 0.97) == Advisory(BARE)
    ensures PhaseScore(GOOD, phase) == 0.95 && PhaseScore(Advisory(BARE), phase) == 0.936
  {
    hide Score, Gaps, MentionsPytest, Advisory, GOOD, BARE, HasTests, HasDetail;
    GoodPayload(phase);
    BarePlan();
    AdvisoryScore(BARE);
    AdvisoryPhaseScore(BARE, phase);
    assert 0.06 * 0 as real == 0.0;
  }
}
