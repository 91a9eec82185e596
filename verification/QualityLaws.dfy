/** What the scores, the gate, the refinement and the normaliser of `Quality` mean for a payload, in its own texts and
    in the words and numbers of `scripts/igris_api_helper.py`. */
module QualityLaws {
  import opened Text
  import opened Quality
  import Fallback

  // ---------------------------------------------------------------- tests

  /** One after the other, the tests that are not blank are kept, stripped. */
  lemma {:induction false} KeptAppend(a: seq<string>, b: seq<string>)
    ensures Kept(a + b) == Kept(a) + Kept(b)
  {
    hide Strip;
    if a == [] {
      assert a + b == b;
    } else {
      KeptAppend(a[1..], b);
      assert (a + b)[1..] == a[1..] + b;
      Regrouped(if Strip(a[0]) != "" then [Strip(a[0])] else [], Kept(a[1..]), Kept(b));
    }
  }

  lemma KeptOne(t: string)
    ensures Kept([t]) == if Blank(t) then [] else [Strip(t)]
  {
    hide Strip;
    StripShape(t);
    assert [t][1..] == [];
  }

  /** Two of the tests, at different places, are not blank. */
  predicate TwoTests(ts: seq<string>) {
    exists i, j :: 0 <= i < j < |ts| && !Blank(ts[i]) && !Blank(ts[j])
  }

  lemma {:induction false} KeptSome(ts: seq<string>)
    ensures Kept(ts) == [] <==> forall i :: 0 <= i < |ts| ==> Blank(ts[i])
  {
    hide Strip, Blank;
    if ts != [] {
      KeptSome(ts[1..]);
      StripShape(ts[0]);
      assert forall i :: 1 <= i < |ts| ==> ts[i] == ts[1..][i - 1];
    }
  }

  lemma {:induction false} KeptTwo(ts: seq<string>)
    ensures |Kept(ts)| >= 2 <==> TwoTests(ts)
  {
    hide Strip, Blank;
    if ts != [] {
      KeptTwo(ts[1..]);
      KeptSome(ts[1..]);
      StripShape(ts[0]);
      assert forall i :: 1 <= i < |ts| ==> ts[i] == ts[1..][i - 1];
      if i, j :| 0 <= i < j < |ts| && !Blank(ts[i]) && !Blank(ts[j]) {
        assert ts[1..][j - 1] == ts[j];
      }
      if !Blank(ts[0]) && Kept(ts[1..]) != [] {
        var j :| 0 <= j < |ts[1..]| && !Blank(ts[1..][j]);
        assert !Blank(ts[j + 1]);
      }
      if i, j :| 0 <= i < j < |ts[1..]| && !Blank(ts[1..][i]) && !Blank(ts[1..][j]) {
        assert !Blank(ts[i + 1]) && !Blank(ts[j + 1]);
      }
    }
  }

  // ---------------------------------------------------------------- the plain score and the gate

  predicate Detailed(p: Payload) {
    |Strip(p.diagnosis)| >= 80 && |Strip(p.strategy)| >= 80
  }

  predicate Tested(p: Payload) {
    p.tests.Some? && TwoTests(p.tests.value)
  }

  /** The plain score: 0.35, as much again for two long texts, 0.20 for two tests, and a tenth of the confidence, up to
      0.10. The source's cap at 1 never applies. */
  lemma ScoreMeans(p: Payload)
    ensures var c := Coerce(p.confidence);
            Score(p) == 0.35 + (if Detailed(p) then 0.35 else 0.0) + (if Tested(p) then 0.20 else 0.0)
                      + (if c <= 1.0 then c * 0.10 else 0.10)
  {
    hide Strip, Kept, TwoTests;
    KeptTwo(TestsOf(p));
    KeptTwo([]);
    NoTests();
  }

  lemma NoTests()
    ensures !TwoTests([])
  {
  }

  /** The gate asks for the two long texts, the two tests, and a confidence that makes up what the floor has above
      0.90; no payload passes a floor above 1. */
  lemma GateMeans(p: Payload, floor: real)
    ensures PassesGate(p, floor) <==>
            Detailed(p) && Tested(p) && floor <= 1.0 && Coerce(p.confidence) >= 10.0 * floor - 9.0
  {
    hide Strip, Kept, TwoTests, Score;
    ScoreMeans(p);
    KeptTwo(TestsOf(p));
    NoTests();
  }

  // ---------------------------------------------------------------- what a phase takes off

  predicate NoBlank(w: string) {
    w != "" && forall k :: 0 <= k < |w| ==> w[k] != ' '
  }

  /** A word without blanks does not reach over the blank between two texts. */
  lemma BesideBlank(a: string, b: string, w: string)
    requires NoBlank(w)
    ensures Contains(a + " " + b, w) <==> Contains(a, w) || Contains(b, w)
  {
    hide NoBlank;
    var s := a + " " + b;
    if Contains(a, w) || Contains(b, w) {
      EitherSide(a, b, w);
    } else if p :| 0 <= p <= |s| - |w| && OccursAt(s, w, p) {
      OccursChars(s, w, p);
      OneSide(s, w, p, |a|);
      OnOneSide(a, b, w, p);
    }
  }

  lemma OneSide(s: string, w: string, p: nat, n: nat)
    requires p + |w| <= |s| && n < |s| && s[n] == ' ' && NoBlank(w)
    requires forall k :: 0 <= k < |w| ==> s[p + k] == w[k]
    ensures p + |w| <= n || n < p
  {
    if p <= n < p + |w| {
      InsideOccurrence(s, w, p, n);
    }
  }

  lemma EitherSide(a: string, b: string, w: string)
    requires Contains(a, w) || Contains(b, w)
    ensures Contains(a + " " + b, w)
  {
    hide Contains;
    if Contains(a, w) {
      ContainsInContext("", a, " " + b, w);
      assert "" + a + (" " + b) == a + " " + b;
    } else {
      ContainsInContext(a + " ", b, "", w);
      assert a + " " + b + "" == a + " " + b;
    }
  }

  lemma AcrossBlank(a: string, b: string, u: string, v: string)
    requires EndsWith(a, u) && StartsWith(b, v)
    ensures Contains(a + " " + b, u + " " + v)
  {
    hide Contains;
    var w := u + " " + v;
    assert a == a[..|a| - |u|] + u && b == v + b[|v|..];
    ContainsItself(w);
    ContainsInContext(a[..|a| - |u|], w, b[|v|..], w);
    assert a[..|a| - |u|] + w + b[|v|..] == a + " " + b;
  }

  /** A word of two parts stands in two texts with a blank between them when one of them holds it, or when it is
      divided over the two. */
  lemma TwoPartsBesideBlank(a: string, b: string, u: string, v: string)
    requires NoBlank(u) && NoBlank(v)
    ensures Contains(a + " " + b, u + " " + v) <==>
            || Contains(a, u + " " + v) || Contains(b, u + " " + v)
            || (EndsWith(a, u) && StartsWith(b, v))
  {
    hide EndsWith, StartsWith, NoBlank;
    var s, w := a + " " + b, u + " " + v;
    if Contains(a, w) || Contains(b, w) {
      EitherSide(a, b, w);
    } else if EndsWith(a, u) && StartsWith(b, v) {
      AcrossBlank(a, b, u, v);
    } else if p :| 0 <= p <= |s| - |w| && OccursAt(s, w, p) {
      OccursChars(s, w, p);
      Divided(a, b, u, v, p);
      OnOneSide(a, b, w, p);
    }
  }

  lemma OnOneSide(a: string, b: string, w: string, p: nat)
    requires OccursAt(a + " " + b, w, p) && (p + |w| <= |a| || |a| < p)
    ensures Contains(a, w) || Contains(b, w)
  {
    hide Contains, OccursAt;
    var s := a + " " + b;
    if p + |w| <= |a| {
      OccursInSlice(s, w, p, 0, |a|);
      assert s[0..|a|] == a;
    } else {
      Bounds(s, w, p);
      OccursInSlice(s, w, p, |a| + 1, |s|);
      assert s[|a| + 1..|s|] == b;
    }
  }

  lemma Bounds(s: string, w: string, p: nat)
    requires OccursAt(s, w, p)
    ensures p + |w| <= |s|
  {
  }

  lemma Divided(a: string, b: string, u: string, v: string, p: nat)
    requires NoBlank(u) && NoBlank(v)
    requires p + |u + " " + v| <= |a + " " + b|
    requires forall k :: 0 <= k < |u + " " + v| ==> (a + " " + b)[p + k] == (u + " " + v)[k]
    ensures p + |u + " " + v| <= |a| || |a| < p || (EndsWith(a, u) && StartsWith(b, v))
  {
    var s, w := a + " " + b, u + " " + v;
    if p <= |a| < p + |w| {
      InsideOccurrence(s, w, p, |a|);
      assert w[|a| - p] == ' ';
      assert forall k :: 0 <= k < |v| ==> w[|u| + 1 + k] == v[k];
      assert |a| - p == |u|;
      forall k | 0 <= k < |u|
        ensures a[|a| - |u| + k] == u[k]
      {
        assert s[p + k] == w[k];
      }
      forall k | 0 <= k < |v|
        ensures b[k] == v[k]
      {
        assert s[p + (|u| + 1 + k)] == w[|u| + 1 + k];
      }
      assert a[|a| - |u|..] == u && b[..|v|] == v;
    }
  }

  lemma {:induction false} JoinSpacedHolds(ts: seq<string>, w: string)
    requires NoBlank(w)
    ensures Contains(JoinSpaced(ts), w) <==> exists i :: 0 <= i < |ts| && Contains(Lower(ts[i]), w)
  {
    hide Contains, Lower;
    if |ts| == 0 {
      NothingHolds(w);
    } else if |ts| > 1 {
      JoinSpacedHolds(ts[1..], w);
      BesideBlank(Lower(ts[0]), JoinSpaced(ts[1..]), w);
      assert forall i :: 1 <= i < |ts| ==> ts[i] == ts[1..][i - 1];
      if i :| 0 <= i < |ts[1..]| && Contains(Lower(ts[1..][i]), w) {
        assert Contains(Lower(ts[i + 1]), w);
      }
    }
  }

  lemma NothingHolds(w: string)
    requires w != ""
    ensures !Contains("", w)
  {
  }

  /** There are two tests, blank ones included, and one of them mentions pytest. */
  predicate Runnable(p: Payload) {
    && p.tests.Some? && |p.tests.value| >= 2
    && exists i :: 0 <= i < |p.tests.value| && Contains(Lower(p.tests.value[i]), "pytest")
  }

  /** The texts of the payload name what the phase is about. */
  predicate Names(p: Payload, phase: Phase) {
    var d, s := Lower(Strip(p.diagnosis)), Lower(Strip(p.strategy));
    match phase
    case Repair =>
      || Contains(d, "root" + " " + "cause") || Contains(s, "root" + " " + "cause")
      || (EndsWith(d, "root") && StartsWith(s, "cause"))
      || Contains(d, "invariant") || Contains(s, "invariant")
      || Contains(d, "regression") || Contains(s, "regression")
    case Escalation =>
      || Contains(d, "migration") || Contains(s, "migration")
      || Contains(d, "rollback") || Contains(s, "rollback")
      || Contains(d, "safety") || Contains(s, "safety")
    case Rank => Contains(s, "sequence") || Contains(s, "rollout") || Contains(s, "step")
  }

  lemma OneOfThree(s: string, a: string, b: string, c: string)
    ensures ContainsAny(s, [a, b, c]) <==> Contains(s, a) || Contains(s, b) || Contains(s, c)
  {
    hide Contains;
    var words := [a, b, c];
    assert words[0] == a && words[1] == b && words[2] == c;
  }

  lemma PhaseWords()
    ensures NoBlank("pytest") && NoBlank("root") && NoBlank("cause") && NoBlank("invariant") && NoBlank("regression")
    ensures NoBlank("migration") && NoBlank("rollback") && NoBlank("safety")
    ensures "root cause" == "root" + " " + "cause"
  {
  }

  lemma RepairNames(p: Payload)
    ensures var d, s := Lower(Strip(p.diagnosis)), Lower(Strip(p.strategy));
            ContainsAny(d + " " + s, ["root cause", "invariant", "regression"]) <==> Names(p, Repair)
  {
    hide Strip, Lower, Contains, ContainsAny, NoBlank, StartsWith, EndsWith;
    var d, s := Lower(Strip(p.diagnosis)), Lower(Strip(p.strategy));
    PhaseWords();
    OneOfThree(d + " " + s, "root cause", "invariant", "regression");
    TwoPartsBesideBlank(d, s, "root", "cause");
    BesideBlank(d, s, "invariant");
    BesideBlank(d, s, "regression");
  }

  lemma EscalationNames(p: Payload)
    ensures var d, s := Lower(Strip(p.diagnosis)), Lower(Strip(p.strategy));
            ContainsAny(d + " " + s, ["migration", "rollback", "safety"]) <==> Names(p, Escalation)
  {
    hide Strip, Lower, Contains, ContainsAny, NoBlank;
    var d, s := Lower(Strip(p.diagnosis)), Lower(Strip(p.strategy));
    PhaseWords();
    OneOfThree(d + " " + s, "migration", "rollback", "safety");
    BesideBlank(d, s, "migration");
    BesideBlank(d, s, "rollback");
    BesideBlank(d, s, "safety");
  }

  lemma GapsMean(p: Payload, phase: Phase)
    ensures |Gaps(p, phase)| == (if Runnable(p) then 0 else 1) + (if Names(p, phase) then 0 else 1)
  {
    hide Strip, Lower, Contains, ContainsAny, NoBlank, JoinSpaced;
    PhaseWords();
    JoinSpacedHolds(TestsOf(p), "pytest");
    RepairNames(p);
    EscalationNames(p);
    OneOfThree(Lower(Strip(p.strategy)), "sequence", "rollout", "step");
  }

  /** The phase score takes 0.06 off the plain score for tests that are not runnable, and 0.06 more for texts that do
      not name what the phase is about; nothing else, and never below 0. */
  lemma PhaseScoreMeans(p: Payload, phase: Phase)
    ensures var s := Score(p) - (if Runnable(p) then 0.0 else 0.06) - (if Names(p, phase) then 0.0 else 0.06);
            PhaseScore(p, phase) == if s >= 0.0 then s else 0.0
  {
    hide Gaps, Names, Runnable, Strip;
    GapsMean(p, phase);
    ScoreRange(p);
    assert 0.06 * 0 as real == 0.0 && 0.06 * 1 as real == 0.06 && 0.06 * 2 as real == 0.12;
  }

  // ---------------------------------------------------------------- which candidate the refinement takes

  /** The best candidate is the first one of the highest phase score. */
  lemma {:induction false} BestIsFirst(candidates: seq<Payload>, phase: Phase) returns (k: nat)
    requires candidates != []
    ensures k < |candidates| && BestOf(candidates, phase) == candidates[k]
    ensures forall i :: 0 <= i < |candidates| ==> PhaseScore(candidates[i], phase) <= PhaseScore(candidates[k], phase)
    ensures forall i :: 0 <= i < k ==> PhaseScore(candidates[i], phase) < PhaseScore(candidates[k], phase)
  {
    hide PhaseScore;
    var n := |candidates| - 1;
    if n == 0 {
      k := 0;
    } else {
      k := BestIsFirst(candidates[..n], phase);
      if PhaseScore(candidates[n], phase) > PhaseScore(candidates[k], phase) {
        k := n;
      }
    }
  }

  /** One pass: the best candidate replaces a payload that fails the gate exactly when it scores no less in the phase. */
  lemma OnePass(p: Payload, phase: Phase, floor: real, candidates: seq<Payload>)
    requires !PassesGate(p, floor) && candidates != []
    ensures var r := Refined(p, phase, floor, [Candidates(candidates)]);
            r == if PhaseScore(BestOf(candidates, phase), phase) >= PhaseScore(p, phase) then BestOf(candidates, phase) else p
  {
    hide PhaseScore, PassesGate, BestOf;
    var passes := [Candidates(candidates)];
    assert passes[1..] == [];
  }

  lemma {:induction false} RefinedRises(p: Payload, phase: Phase, floor: real, passes: seq<Pass>)
    ensures PhaseScore(Refined(p, phase, floor, passes), phase) >= PhaseScore(p, phase)
    decreases |passes|
  {
    hide PhaseScore, PassesGate, BestOf;
    if passes != [] && !PassesGate(p, floor) && passes[0].Candidates? {
      var candidates := passes[0].payloads;
      var better := candidates != [] && PhaseScore(BestOf(candidates, phase), phase) >= PhaseScore(p, phase);
      RefinedRises(if better then BestOf(candidates, phase) else p, phase, floor, passes[1..]);
    }
  }

  /** Whatever the payload and the later passes, the refinement never ends with a candidate that does not name what the
      phase is about when the same pass offers one that does, is as runnable, and scores less than 0.06 below it. */
  lemma NamedPreferred(p: Payload, phase: Phase, floor: real, candidates: seq<Payload>, rest: seq<Pass>,
                       unnamed: Payload, named: Payload)
    requires !PassesGate(p, floor) && unnamed in candidates && named in candidates
    requires Runnable(unnamed) && Runnable(named) && !Names(unnamed, phase) && Names(named, phase)
    requires Score(named) > Score(unnamed) - 0.06 && Score(named) > 0.0
    ensures Refined(p, phase, floor, [Candidates(candidates)] + rest) != unnamed
  {
    hide PhaseScore, PassesGate, BestOf, Score, Names, Runnable;
    var passes := [Candidates(candidates)] + rest;
    assert passes[0] == Candidates(candidates) && passes[1..] == rest;
    var k := BestIsFirst(candidates, phase);
    var best := BestOf(candidates, phase);
    PhaseScoreMeans(unnamed, phase);
    PhaseScoreMeans(named, phase);
    RefinedRises(if PhaseScore(best, phase) >= PhaseScore(p, phase) then best else p, phase, floor, rest);
  }

  // ---------------------------------------------------------------- what the words of a confidence stand for

  /** Spaces around a word are stripped. */
  lemma PaddedStrip(pre: string, w: string, post: string)
    requires Blank(pre) && Tight(w) && Blank(post)
    ensures Strip(pre + w + post) == w
  {
    hide Lead, Trail, IsSpace;
    var s := pre + w + post;
    assert forall i :: 0 <= i < |pre| ==> s[i] == pre[i];
    assert forall i :: |pre| <= i < |pre| + |w| ==> s[i] == w[i - |pre|];
    assert forall i :: |pre| + |w| <= i < |s| ==> s[i] == post[i - |pre| - |w|];
    assert s[|pre|] == w[0] && s[|pre| + |w| - 1] == w[|w| - 1];
    assert forall i :: 0 <= i < |pre| ==> IsSpace(s[i]);
    assert forall i :: |pre| + |w| <= i < |s| ==> IsSpace(s[i]);
    assert Lead(s) == |pre| && Trail(s) == |pre| + |w|;
    assert s[|pre|..|pre| + |w|] == w;
  }

  /** A word in any mix of cases, between spaces, counts as its number; `float` is asked for the rest alone. */
  lemma CoerceWords(pre: string, w: string, post: string, parsed: Option<real>)
    requires Blank(pre) && Tight(w) && Blank(post)
    ensures var c, word := Coerce(Words(pre + w + post, parsed)), Lower(w);
            && (word == "low" ==> c == 0.25)
            && (word == "medium" || word == "moderate" ==> c == 0.5)
            && (word == "high" ==> c == 0.8)
            && (word == "very_high" || word == "very-high" ==> c == 0.9)
            && (word !in ["low", "medium", "moderate", "high", "very_high", "very-high"] ==>
                  c == if parsed.Some? then parsed.value else 0.0)
  {
    hide Strip, Lower;
    PaddedStrip(pre, w, post);
    var names := ["low", "medium", "moderate", "high", "very_high", "very-high"];
    assert names[0] == "low" && names[1] == "medium" && names[2] == "moderate" && names[3] == "high";
    assert names[4] == "very_high" && names[5] == "very-high";
    assert |"low"| == 3 && |"medium"| == 6 && |"moderate"| == 8 && |"high"| == 4;
    assert |"very_high"| == 9 && |"very-high"| == 9;
  }

  // ---------------------------------------------------------------- the payload's own tests and texts come first

  /** Removing repetitions from the front part of a list gives the front part of the result. */
  lemma {:induction false} DedupPrefix(a: seq<string>, b: seq<string>)
    ensures |Dedup(a)| <= |Dedup(a + b)| && Dedup(a + b)[..|Dedup(a)|] == Dedup(a)
    decreases |b|
  {
    if b == [] {
      assert a + b == a;
    } else {
      var init, all := b[..|b| - 1], a + b;
      DedupPrefix(a, init);
      assert all[..|all| - 1] == a + init;
    }
  }

  lemma {:induction false} DedupLength(ts: seq<string>)
    ensures |Dedup(ts)| <= |ts|
  {
    if ts != [] {
      DedupLength(ts[..|ts| - 1]);
    }
  }

  /** The first four of the payload's own different tests come first, in their order. */
  lemma OwnTestsFirst(p: Payload, failureClass: string, k: nat)
    requires k < |Dedup(Kept(TestsOf(p)))| && k < 4
    ensures k < |NormalTests(p, failureClass)| <= 4
    ensures NormalTests(p, failureClass)[k] == Dedup(Kept(TestsOf(p)))[k]
  {
    hide DefaultTests, Kept, Dedup;
    var own, all := Kept(TestsOf(p)), Gathered(p, failureClass);
    DedupPrefix(own, all[|own|..]);
    assert own + all[|own|..] == all;
  }

  lemma {:induction false} DedupDistinct(ts: seq<string>)
    requires forall i, j :: 0 <= i < j < |ts| ==> ts[i] != ts[j]
    ensures Dedup(ts) == ts
  {
    if ts != [] {
      var init := ts[..|ts| - 1];
      DedupDistinct(init);
      assert ts == init + [ts[|ts| - 1]];
    }
  }

  /** Two to four different tests are all that is left of themselves; nothing is added. */
  lemma OwnTestsStay(p: Payload, failureClass: string)
    requires 2 <= |Kept(TestsOf(p))| <= 4
    requires forall i, j :: 0 <= i < j < |Kept(TestsOf(p))| ==> Kept(TestsOf(p))[i] != Kept(TestsOf(p))[j]
    ensures NormalTests(p, failureClass) == Kept(TestsOf(p))
  {
    hide DefaultTests, Kept, Dedup;
    DedupDistinct(Kept(TestsOf(p)));
  }

  /** With fewer than two tests of its own a payload has at most three, which hold all the defaults. */
  lemma DefaultsAdded(p: Payload, failureClass: string)
    requires |Kept(TestsOf(p))| < 2
    ensures forall t :: t in NormalTests(p, failureClass) <==> t in Kept(TestsOf(p)) || t in DefaultTests(failureClass)
  {
    hide Kept, Dedup, Lower;
    var all := Kept(TestsOf(p)) + DefaultTests(failureClass);
    DedupKeeps(all);
    DedupLength(all);
    assert |DefaultTests(failureClass)| == 2;
  }

  /** Which tests stand in for which failure class, in any case of its letters. */
  lemma DefaultsByClass(failureClass: string)
    ensures var ts, fc := DefaultTests(failureClass), Lower(failureClass);
            && (fc == "pytest_failure" ==>
                  ts == ["pytest" + " -q tests/test_targeted.py::test_regression_case",
                         "pytest" + " -q -k failing_case_name"])
            && (fc == "reasoning_loop_blocked" ==>
                  ts == ["pytest" + " -q tests/test_supervisor_flow.py::test_rank_progress",
                         "python" + " -m igris.cli.rank --dry-run --goal '<goal>'"])
            && (fc == "decomposition_required" ==>
                  ts == ["pytest" + " -q tests/test_self_repair_supervisor.py::test_decomposition_policy",
                         "pytest" + " -q tests/test_assignment_router_gpu_escalation.py"])
            && (fc !in {"pytest_failure", "reasoning_loop_blocked", "decomposition_required"} ==>
                  ts == ["pytest" + " -q tests/test_targeted.py", "pytest" + " -q -k regression"])
  {
    hide Lower;
    assert "pytest_failure"[0] == 'p' && "reasoning_loop_blocked"[0] == 'r' && "decomposition_required"[0] == 'd';
  }

  lemma StartsLower(w: string, rest: string)
    requires Lower(w) == w
    ensures Contains(Lower(w + rest), w)
  {
    assert Lower(w + rest)[0..|w|] == Lower(w);
    assert OccursAt(Lower(w + rest), w, 0);
  }

  lemma DefaultRunsPytest(failureClass: string)
    ensures |DefaultTests(failureClass)| == 2 && Contains(Lower(DefaultTests(failureClass)[0]), "pytest")
  {
    hide Lower, Contains;
    Fallback.LowerPytest();
    StartsLower("pytest", " -q tests/test_targeted.py::test_regression_case");
    StartsLower("pytest", " -q tests/test_supervisor_flow.py::test_rank_progress");
    StartsLower("pytest", " -q tests/test_self_repair_supervisor.py::test_decomposition_policy");
    StartsLower("pytest", " -q tests/test_targeted.py");
  }

  /** So a payload with fewer than two tests is runnable once it is normalised, whatever the failure class. */
  lemma NormalizedRunnable(p: Payload, failureClass: string)
    requires |Kept(TestsOf(p))| < 2
    ensures Runnable(Normalized(p, failureClass))
  {
    hide Kept, Lower, Contains, DefaultTests, NormalTests, Extended;
    var ts := NormalTests(p, failureClass);
    DefaultsAdded(p, failureClass);
    DefaultRunsPytest(failureClass);
    assert DefaultTests(failureClass)[0] in DefaultTests(failureClass);
    assert DefaultTests(failureClass)[0] in ts;
    var i :| 0 <= i < |ts| && ts[i] == DefaultTests(failureClass)[0];
    NormalTestsCount(p, failureClass);
    assert TestsUsable(p);
  }

  /** A long text stays as it is; a short one, stripped, is continued by the note. */
  lemma ExtendedMeans(text: string, note: string)
    requires |note| > 80 && note[0] == ' ' && Tight(note[1..])
    ensures Extended(text, note) == if |Strip(text)| >= 80 then text
                                    else if Blank(text) then note[1..] else Strip(text) + note
  {
    hide Strip, IsSpace;
    StripShape(text);
    var own := Strip(text);
    if Blank(text) {
      SpaceIsBlank();
      assert own + note == " " + note[1..] + "";
      PaddedStrip(" ", note[1..], "");
    } else {
      StripIsTight(text);
      var s := own + note;
      assert s[0] == own[0] && s[|s| - 1] == note[1..][|note| - 2];
      assert s == "" + s + "";
      PaddedStrip("", s, "");
    }
  }

  lemma SpaceIsBlank()
    ensures Blank(" ")
  {
  }

  /** The payload's own texts are kept, in front of what is added, and a confidence of at least 0.9 is too. */
  lemma OwnTextsFirst(p: Payload, failureClass: string)
    ensures var n := Normalized(p, failureClass);
            && (|Strip(p.diagnosis)| >= 80 ==> n.diagnosis == p.diagnosis)
            && (|Strip(p.strategy)| >= 80 ==> n.strategy == p.strategy)
            && StartsWith(Strip(n.diagnosis), Strip(p.diagnosis))
            && StartsWith(Strip(n.strategy), Strip(p.strategy))
            && Coerce(n.confidence) == if Coerce(p.confidence) >= 0.9 then Coerce(p.confidence) else 0.9
  {
    hide Strip, NormalTests, Extended, Tight;
    NotesAreLong();
    OwnTextFirst(p.diagnosis, DIAGNOSIS_NOTE);
    OwnTextFirst(p.strategy, STRATEGY_NOTE);
    ExtendedMeans(p.diagnosis, DIAGNOSIS_NOTE);
    ExtendedMeans(p.strategy, STRATEGY_NOTE);
  }

  lemma OwnTextFirst(text: string, note: string)
    requires |note| > 80 && note[0] == ' ' && Tight(note[1..])
    ensures StartsWith(Strip(Extended(text, note)), Strip(text))
  {
    hide Strip, IsSpace, Extended;
    ExtendedMeans(text, note);
    StripShape(text);
    var own := Strip(text);
    if |own| < 80 && !Blank(text) {
      StripIsTight(text);
      var s := own + note;
      assert s[0] == own[0] && s[|s| - 1] == note[1..][|note| - 2];
      assert s == "" + s + "";
      PaddedStrip("", s, "");
    }
  }

  /** The end of the boost changes the confidence alone, and raises it to the model's minimum. */
  lemma FinishedMeans(p: Payload, failureClass: string, minimum: real)
    ensures var f, n := Finished(p, failureClass, minimum), Normalized(p, failureClass);
            && f.diagnosis == n.diagnosis && f.strategy == n.strategy && f.tests == n.tests
            && Coerce(f.confidence) >= minimum && Coerce(f.confidence) >= Coerce(n.confidence)
            && (Coerce(f.confidence) == minimum || f == n)
  {
    hide Normalized;
  }

  // ---------------------------------------------------------------- the advisory of a plan

  /** An advisory is runnable exactly when its plan has fewer than two tests, so that the fixed ones stand in, or when one
      of the plan's first six mentions pytest. */
  lemma AdvisoryRunnable(plan: Fallback.Plan)
    ensures Runnable(Fallback.Advisory(plan)) <==>
            || |plan.tests| < 2
            || exists i :: 0 <= i < |plan.tests| && i < 6 && Contains(Lower(plan.tests[i]), "pytest")
    ensures Fallback.MentionsPytest(plan) <==> Runnable(Fallback.Advisory(plan))
  {
    hide Lower, Contains, JoinSpaced, Fallback.STRATEGY, Fallback.DIAGNOSIS, Fallback.JoinSteps;
    var ts := Fallback.AdvisoryTests(plan);
    JoinSpacedHolds(ts, "pytest");
    assert |ts| >= 2;
    if |plan.tests| < 2 {
      Fallback.LowerPytest();
      StartsLower("pytest", " -q tests/test_memory_chunker.py");
      assert ts[0] == "pytest" + " -q tests/test_memory_chunker.py";
    } else {
      assert forall i :: 0 <= i < |ts| ==> ts[i] == plan.tests[i];
    }
  }

  /** The advisory of a plan takes the place of a payload exactly when there is a plan, the payload fails the gate, and its
      plain score is at most 0.996, or 0.796 when fewer than two of the advisory's tests are not blank. */
  lemma FallbackUsed(result: Payload, plan: Option<Fallback.Plan>, floor: real)
    ensures plan.None? ==> Fallback.AfterFallback(result, plan, floor) == result
    ensures plan.Some? ==>
              var advisory := Fallback.Advisory(plan.value);
              Fallback.AfterFallback(result, plan, floor)
              == if !PassesGate(result, floor) && Score(result) <= (if Tested(advisory) then 0.996 else 0.796)
                 then advisory else result
  {
    hide Score, PassesGate, Fallback.Advisory, Kept, TwoTests;
    if plan.Some? {
      Fallback.AdvisoryScore(plan.value);
      KeptTwo(TestsOf(Fallback.Advisory(plan.value)));
      NoTests();
    }
  }
}
