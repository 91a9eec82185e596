/** Properties of the router's decisions over all requests and histories. */
module RouterProofs {
  import opened Text
  import opened Router

  /** The specification leaves one decision. */
  lemma DecisionUnique(r: Request, history: seq<Outcome>, d: Decision, d': Decision)
    requires IsDecision(r, history, d) && IsDecision(r, history, d')
    ensures d == d'
  {
    hide Classify, CheaperCandidates, EstimateOf, Affordable;
    var (role, t) := Classify(r);
    var matching := Matching(history, role, t);
    var cs := Candidates(r, t);
    if !d.forced && !d'.forced {
      var k :| 0 <= k < |cs| && IsChoice(r, t, matching, k)
        && d.chosen == cs[k] && d.estimate == EstimateOf(matching, cs[k]);
      var k' :| 0 <= k' < |cs| && IsChoice(r, t, matching, k')
        && d'.chosen == cs[k'] && d'.estimate == EstimateOf(matching, cs[k']);
      assert k == k';
    }
  }

  // ---------------------------------------------------------------- budget and circuit breakers

  /** The same request with at least the budget and with every provider that was enabled. */
  predicate Wider(r: Request, w: Request) {
    && w == r.(budget := w.budget, breakers := w.breakers) && r.budget <= w.budget
    && forall p :: p in w.breakers && !w.breakers[p] ==> p in r.breakers && !r.breakers[p]
  }

  lemma WiderOffersSame(r: Request, w: Request)
    requires Wider(r, w)
    ensures Classify(w) == Classify(r)
    ensures Candidates(w, Classify(w).1) == Candidates(r, Classify(r).1)
  {
    hide Classify, Candidates;
    WiderClass(r, w);
    WiderFlags(r, w, Classify(r).1);
    SameCandidates(r, w, Classify(r).1);
  }

  lemma WiderClass(r: Request, w: Request)
    requires Wider(r, w)
    ensures Classify(w) == Classify(r)
  {
  }

  lemma WiderFlags(r: Request, w: Request, t: TaskType)
    requires Wider(r, w)
    ensures NeedsGpu(w, t) == NeedsGpu(r, t) && ForceDecompose(w, t) == ForceDecompose(r, t)
    ensures ForceStrong(w, t) == ForceStrong(r, t) && NeedsHelper(w, t) == NeedsHelper(r, t)
    ensures w.prior == r.prior && w.isRepair == r.isRepair
  {
  }

  lemma SameCandidates(r: Request, w: Request, t: TaskType)
    requires NeedsGpu(w, t) == NeedsGpu(r, t) && ForceDecompose(w, t) == ForceDecompose(r, t)
    requires ForceStrong(w, t) == ForceStrong(r, t) && NeedsHelper(w, t) == NeedsHelper(r, t)
    requires w.prior == r.prior && w.isRepair == r.isRepair
    ensures Candidates(w, t) == Candidates(r, t)
  {
    hide NeedsGpu, ForceDecompose, ForceStrong, NeedsHelper;
  }

  lemma WiderAdmits(r: Request, w: Request, t: TaskType, matching: seq<Outcome>, i: nat)
    requires Wider(r, w) && Candidates(w, t) == Candidates(r, t) && i < |Candidates(r, t)| && Admitted(r, t, matching, i)
    ensures Admitted(w, t, matching, i)
  {
    hide CheaperCandidates, EstimateOf, StrongCandidate;
  }

  /** Raising the budget or re-enabling a provider never raises the expected cost of the decision, provided the
      narrower request had a candidate at all. */
  lemma WiderNeverCostsMore(r: Request, w: Request, history: seq<Outcome>, d: Decision, dw: Decision)
    requires Wider(r, w) && IsDecision(r, history, d) && IsDecision(w, history, dw) && !d.forced
    ensures !dw.forced && dw.estimate.expected <= d.estimate.expected
  {
    hide Classify, CheaperCandidates, EstimateOf, Affordable, StrongCandidate, Wider;
    var (role, t) := Classify(r);
    var matching := Matching(history, role, t);
    var cs := Candidates(r, t);
    WiderOffersSame(r, w);
    var k :| 0 <= k < |cs| && IsChoice(r, t, matching, k)
      && d.chosen == cs[k] && d.estimate == EstimateOf(matching, cs[k]);
    WiderAdmits(r, w, t, matching, k);
  }

  /** What the caller can check: half the high tier's budget, and the strong provider not disabled. */
  predicate StrongAvailable(r: Request) {
    r.budget >= 2.5 && (DeepseekStrong in r.breakers ==> r.breakers[DeepseekStrong])
  }

  lemma StrongIsLast(r: Request, t: TaskType, i: nat)
    requires i < |Candidates(r, t)|
    ensures i == |Candidates(r, t)| - 1 ==> Candidates(r, t)[i] == StrongCandidate(r, t)
    ensures i < |Candidates(r, t)| - 1 ==> Candidates(r, t)[i].profile != StrongExecution
  {
    hide ForceDecompose, ForceStrong, NeedsGpu, NeedsHelper;
  }

  /** Then the strong candidate is admitted, so the decision is never forced. */
  lemma StrongAdmitted(r: Request, history: seq<Outcome>, d: Decision)
    requires IsDecision(r, history, d) && StrongAvailable(r)
    ensures !d.forced
  {
    hide Classify, CheaperCandidates, EstimateOf;
    var (role, t) := Classify(r);
    var cs := Candidates(r, t);
    assert cs[|cs| - 1] == StrongCandidate(r, t);
    assert Admitted(r, t, Matching(history, role, t), |cs| - 1);
  }

  function Repeated(o: Outcome, n: nat): (r: seq<Outcome>)
    ensures |r| == n && forall i :: 0 <= i < n ==> r[i] == o
  {
    seq(n, _ => o)
  }

  lemma {:induction false} TotalRepeated(o: Outcome, n: nat, f: Outcome -> real)
    ensures Total(Repeated(o, n), f) == n as real * f(o)
  {
    if n > 0 {
      TotalRepeated(o, n - 1, f);
      var all := Repeated(o, n);
      assert all[..n - 1] == Repeated(o, n - 1);
      OneMore(n, f(o));
    }
  }

  lemma OneMore(n: nat, x: real)
    requires n > 0
    ensures (n - 1) as real * x + x == n as real * x
  {
    assert (n - 1) as real == n as real - 1.0;
  }

  /** A record at a cost of 100 in one attempt: a success for strong execution, a failure for the others. */
  function Record(role: Role, t: TaskType, p: Profile): Outcome {
    Outcome(role, t, p, p == StrongExecution, Some(100.0), Some(1))
  }

  /** Five such records of every profile. */
  function Dear(role: Role, t: TaskType): seq<Outcome> {
    Repeated(Record(role, t, CheapCloud), 5) + Repeated(Record(role, t, Mini), 5)
    + Repeated(Record(role, t, GpuReasoning), 5) + Repeated(Record(role, t, StrongExecution), 5)
  }

  lemma TotalDear(role: Role, t: TaskType, f: Outcome -> real)
    ensures Total(Dear(role, t), f)
         == 5.0 * f(Record(role, t, CheapCloud)) + 5.0 * f(Record(role, t, Mini))
          + 5.0 * f(Record(role, t, GpuReasoning)) + 5.0 * f(Record(role, t, StrongExecution))
  {
    hide Total, Repeated, Record;
    var c, m := Repeated(Record(role, t, CheapCloud), 5), Repeated(Record(role, t, Mini), 5);
    var g, s := Repeated(Record(role, t, GpuReasoning), 5), Repeated(Record(role, t, StrongExecution), 5);
    TotalAppend(c + m + g, s, f);
    TotalAppend(c + m, g, f);
    TotalAppend(c, m, f);
    TotalRepeated(Record(role, t, CheapCloud), 5, f);
    TotalRepeated(Record(role, t, Mini), 5, f);
    TotalRepeated(Record(role, t, GpuReasoning), 5, f);
    TotalRepeated(Record(role, t, StrongExecution), 5, f);
  }

  lemma {:induction false} AllMatching(os: seq<Outcome>, role: Role, t: TaskType)
    requires forall i :: 0 <= i < |os| ==> os[i].role == role && os[i].taskType == t
    ensures Matching(os, role, t) == os
  {
    if os != [] {
      AllMatching(os[..|os| - 1], role, t);
      assert os == os[..|os| - 1] + [os[|os| - 1]];
    }
  }

  lemma DearMatching(role: Role, t: TaskType)
    ensures Matching(Dear(role, t), role, t) == Dear(role, t)
  {
    hide Matching;
    AllMatching(Dear(role, t), role, t);
  }

  /** With these records every profile fails but strong execution, which costs 100. */
  lemma DearEstimates(role: Role, t: TaskType, c: Candidate)
    ensures EstimateOf(Dear(role, t), c).prob == if c.profile == StrongExecution then 1.0 else 0.0
    ensures c.profile == StrongExecution ==> EstimateOf(Dear(role, t), c).expected == 100.0
  {
    hide Total, Dear;
    var p := c.profile;
    TotalDear(role, t, One(p));
    TotalDear(role, t, Successes(p));
    TotalDear(role, t, Costs(p));
    TotalDear(role, t, CostCount(p));
    TotalDear(role, t, Attempts(p));
    TotalDear(role, t, AttemptCount(p));
  }

  lemma SomeThreshold(t: TaskType)
    ensures 0.0 < Threshold(t) <= 1.0
  {
  }

  /** On these records only the strong candidate can be admitted, and only where it is available. */
  lemma DearAdmits(r: Request, t: TaskType, role: Role, i: nat)
    requires i < |Candidates(r, t)|
    ensures Admitted(r, t, Dear(role, t), i) <==> i == |Candidates(r, t)| - 1 && StrongAvailable(r)
  {
    hide CheaperCandidates, Dear, EstimateOf, Threshold;
    StrongIsLast(r, t, i);
    DearEstimates(role, t, Candidates(r, t)[i]);
    SomeThreshold(t);
  }

  lemma StrongPrice(r: Request, t: TaskType)
    ensures Bootstrap(StrongCandidate(r, t)).expected < 3.0
  {
  }

  function DecisionFor(r: Request, role: Role, t: TaskType, matches: nat, e: Estimate, forced: bool): Decision {
    var c := StrongCandidate(r, t);
    Decision(role, t, c, e, forced, Least(TierLimit(c.tier), r.budget), Confidence(e.prob, matches), matches)
  }

  /** Where strong execution is not available its fixed estimate is charged, below 3. */
  lemma DearForced(r: Request) returns (d: Decision)
    requires !StrongAvailable(r)
    ensures var (role, t) := Classify(r); IsDecision(r, Dear(role, t), d) && d.forced && d.estimate.expected < 3.0
  {
    hide Classify, Candidates, Dear, EstimateOf, Matching, Bootstrap, StrongCandidate, Confidence, Admitted;
    var (role, t) := Classify(r);
    d := DecisionFor(r, role, t, |Dear(role, t)|, Bootstrap(StrongCandidate(r, t)), true);
    DearMatching(role, t);
    StrongPrice(r, t);
    forall i | 0 <= i < |Candidates(r, t)|
      ensures !Admitted(r, t, Dear(role, t), i)
    {
      DearAdmits(r, t, role, i);
    }
  }

  /** Where it is available its record is charged: 100. */
  lemma DearCharged(r: Request) returns (d: Decision)
    requires StrongAvailable(r)
    ensures var (role, t) := Classify(r); IsDecision(r, Dear(role, t), d) && d.estimate.expected == 100.0
  {
    hide Classify, CheaperCandidates, Dear, EstimateOf, Matching, StrongCandidate, Confidence, Admitted;
    var (role, t) := Classify(r);
    var cs := Candidates(r, t);
    var k := |cs| - 1;
    d := DecisionFor(r, role, t, |Dear(role, t)|, EstimateOf(Dear(role, t), cs[k]), false);
    DearMatching(role, t);
    StrongIsLast(r, t, k);
    StrongProfile(r, t);
    DearEstimates(role, t, cs[k]);
    forall i | 0 <= i < |cs|
      ensures Admitted(r, t, Dear(role, t), i) <==> i == k
    {
      DearAdmits(r, t, role, i);
    }
    assert IsChoice(r, t, Dear(role, t), k);
  }

  lemma StrongProfile(r: Request, t: TaskType)
    ensures StrongCandidate(r, t).profile == StrongExecution
  {
  }

  /** Whatever the history, no wider request gets a decision of higher expected cost. */
  ghost predicate NeverDearer(r: Request) {
    forall w, history, d, dw ::
      Wider(r, w) && IsDecision(r, history, d) && IsDecision(w, history, dw) ==> dw.estimate.expected <= d.estimate.expected
  }

  /** Exactly when more budget or a re-enabled provider can never raise the expected cost of a request: strong execution
      is available to it. Otherwise a decision can be forced at a fixed price, while the wider request pays what the
      records say. */
  lemma NeverDearerExactly(r: Request)
    ensures NeverDearer(r) <==> StrongAvailable(r)
  {
    hide IsDecision, Classify;
    if StrongAvailable(r) {
      forall w, history, d, dw | Wider(r, w) && IsDecision(r, history, d) && IsDecision(w, history, dw)
        ensures dw.estimate.expected <= d.estimate.expected
      {
        StrongAdmitted(r, history, d);
        WiderNeverCostsMore(r, w, history, d, dw);
      }
    } else {
      var w := r.(budget := if r.budget >= 10.0 then r.budget else 10.0, breakers := map[]);
      WiderOffersSame(r, w);
      var d := DearForced(r);
      var dw := DearCharged(w);
      var (role, t) := Classify(r);
      assert Wider(r, w) && IsDecision(r, Dear(role, t), d) && IsDecision(w, Dear(role, t), dw);
    }
  }

  // ---------------------------------------------------------------- history

  lemma {:induction false} TotalAppend(a: seq<Outcome>, b: seq<Outcome>, f: Outcome -> real)
    ensures Total(a + b, f) == Total(a, f) + Total(b, f)
    decreases |b|
  {
    if b == [] {
      assert a + b == a;
    } else {
      TotalAppend(a, b[..|b| - 1], f);
      assert (a + b)[..|a + b| - 1] == a + b[..|b| - 1];
    }
  }

  /** A total does not depend on the order of the records. */
  lemma {:induction false} TotalPermuted(a: seq<Outcome>, b: seq<Outcome>, f: Outcome -> real)
    requires multiset(a) == multiset(b)
    ensures Total(a, f) == Total(b, f)
    decreases |a|
  {
    if a == [] {
      assert |multiset(b)| == 0;
    } else {
      var n := |a| - 1;
      assert a[n] in multiset(b);
      var k :| 0 <= k < |b| && b[k] == a[n];
      WithoutOne(a, n);
      WithoutOne(b, k);
      TotalPermuted(Without(a, n), Without(b, k), f);
      TotalWithout(a, n, f);
      TotalWithout(b, k, f);
    }
  }

  function Without(os: seq<Outcome>, k: nat): seq<Outcome>
    requires k < |os|
  {
    os[..k] + os[k + 1..]
  }

  lemma WithoutOne(os: seq<Outcome>, k: nat)
    requires k < |os|
    ensures |Without(os, k)| == |os| - 1 && multiset(Without(os, k)) == multiset(os) - multiset{os[k]}
  {
    assert os == os[..k] + [os[k]] + os[k + 1..];
  }

  lemma TotalWithout(os: seq<Outcome>, k: nat, f: Outcome -> real)
    requires k < |os|
    ensures Total(os, f) == Total(Without(os, k), f) + f(os[k])
  {
    hide Total;
    var x := [os[k]];
    assert os == os[..k] + x + os[k + 1..];
    TotalAppend(os[..k] + x, os[k + 1..], f);
    TotalAppend(os[..k], x, f);
    TotalAppend(os[..k], os[k + 1..], f);
    TotalOne(os[k], f);
  }

  lemma TotalOne(o: Outcome, f: Outcome -> real)
    ensures Total([o], f) == f(o)
  {
    assert [o][..0] == [];
  }

  lemma StatsPermuted(a: seq<Outcome>, b: seq<Outcome>, p: Profile)
    requires multiset(a) == multiset(b)
    ensures ProfileStats(a, p) == ProfileStats(b, p)
  {
    hide Total;
    TotalPermuted(a, b, One(p));
    TotalPermuted(a, b, Successes(p));
    TotalPermuted(a, b, Costs(p));
    TotalPermuted(a, b, CostCount(p));
    TotalPermuted(a, b, Attempts(p));
    TotalPermuted(a, b, AttemptCount(p));
  }

  /** The decision depends on the history only through the records of the same role and task type, and not on
      their order. */
  lemma DecisionIgnoresOrder(r: Request, history: seq<Outcome>, other: seq<Outcome>, d: Decision)
    requires multiset(Matching(history, Classify(r).0, Classify(r).1)) == multiset(Matching(other, Classify(r).0, Classify(r).1))
    requires IsDecision(r, history, d)
    ensures IsDecision(r, other, d)
  {
    hide Classify, CheaperCandidates, Affordable, StrongCandidate, ProfileStats, ExpectedCost, Matching;
    var (role, t) := Classify(r);
    var a, b := Matching(history, role, t), Matching(other, role, t);
    assert |a| == |multiset(a)| == |multiset(b)| == |b|;
    var cs := Candidates(r, t);
    forall c: Candidate
      ensures EstimateOf(a, c) == EstimateOf(b, c)
    {
      StatsPermuted(a, b, c.profile);
    }
    SameChoices(r, t, a, b);
  }

  lemma SameChoices(r: Request, t: TaskType, a: seq<Outcome>, b: seq<Outcome>)
    requires forall c: Candidate :: EstimateOf(a, c) == EstimateOf(b, c)
    ensures forall i :: 0 <= i < |Candidates(r, t)| ==> Admitted(r, t, a, i) == Admitted(r, t, b, i)
    ensures forall k :: 0 <= k < |Candidates(r, t)| ==> IsChoice(r, t, a, k) == IsChoice(r, t, b, k)
  {
    hide CheaperCandidates, Affordable, StrongCandidate, EstimateOf;
  }

  lemma {:induction false} MatchingAppend(a: seq<Outcome>, b: seq<Outcome>, role: Role, t: TaskType)
    ensures Matching(a + b, role, t) == Matching(a, role, t) + Matching(b, role, t)
    decreases |b|
  {
    if b == [] {
      assert a + b == a;
    } else {
      var last := b[|b| - 1];
      var kept := if last.role == role && last.taskType == t then [last] else [];
      MatchingAppend(a, b[..|b| - 1], role, t);
      assert Matching(b, role, t) == Matching(b[..|b| - 1], role, t) + kept;
      assert (a + b)[|a + b| - 1] == last;
      assert (a + b)[..|a + b| - 1] == a + b[..|b| - 1];
    }
  }

  lemma {:induction false} NoneMatching(b: seq<Outcome>, role: Role, t: TaskType)
    requires forall i :: 0 <= i < |b| ==> !(b[i].role == role && b[i].taskType == t)
    ensures Matching(b, role, t) == []
  {
    if b != [] {
      NoneMatching(b[..|b| - 1], role, t);
    }
  }

  /** Records of other roles or task types change no decision. */
  lemma DecisionIgnoresOthers(r: Request, history: seq<Outcome>, others: seq<Outcome>, d: Decision)
    requires forall i :: 0 <= i < |others| ==> !(others[i].role == Classify(r).0 && others[i].taskType == Classify(r).1)
    requires IsDecision(r, history, d)
    ensures IsDecision(r, history + others, d)
  {
    hide Classify, IsDecision, Matching;
    var (role, t) := Classify(r);
    MatchingAppend(history, others, role, t);
    NoneMatching(others, role, t);
    assert Matching(history, role, t) + [] == Matching(history, role, t);
    DecisionIgnoresOrder(r, history, history + others, d);
  }

  lemma {:induction false} CountsBounded(os: seq<Outcome>, p: Profile)
    ensures 0.0 <= Total(os, Successes(p)) <= Total(os, One(p))
  {
    if os != [] {
      CountsBounded(os[..|os| - 1], p);
    }
  }

  /** One more success never lowers the success rate of its profile. */
  lemma SuccessNeverHurts(matching: seq<Outcome>, o: Outcome)
    requires o.success && ProfileStats(matching, o.profile).Some?
    ensures ProfileStats(matching + [o], o.profile).Some?
    ensures ProfileStats(matching + [o], o.profile).value.rate >= ProfileStats(matching, o.profile).value.rate
  {
    var p := o.profile;
    var s, n := Total(matching, Successes(p)), Total(matching, One(p));
    CountsBounded(matching, p);
    assert (matching + [o])[..|matching|] == matching;
    assert Total(matching + [o], Successes(p)) == s + 1.0 && Total(matching + [o], One(p)) == n + 1.0;
    RateGrows(s, n);
  }

  lemma QuotientTimes(s: real, n: real)
    requires n > 0.0
    ensures s / n * n == s
  {
  }

  lemma AtMostOne(x: real, n: real)
    requires n > 0.0 && x * n <= n
    ensures x <= 1.0
  {
    Larger(x, 1.0, n);
  }

  lemma OneMoreTimes(x: real, n: real)
    ensures x * (n + 1.0) == x * n + x
  {
  }

  lemma RateGrows(s: real, n: real)
    requires 0.0 <= s <= n && n > 0.0
    ensures (s + 1.0) / (n + 1.0) >= s / n
  {
    var x := s / n;
    QuotientTimes(s, n);
    AtMostOne(x, n);
    OneMoreTimes(x, n);
    AboveQuotient(x, s + 1.0, n + 1.0);
  }

  lemma AboveQuotient(x: real, a: real, b: real)
    requires b > 0.0 && x * b <= a
    ensures x <= a / b
  {
    var y := a / b;
    QuotientTimes(a, b);
    Larger(x, y, b);
  }

  lemma Larger(x: real, y: real, b: real)
    requires b > 0.0
    ensures x > y ==> x * b > y * b
  {
  }

  // ---------------------------------------------------------------- without a learned history

  /** The profile lacks the five records that learned rates need. */
  predicate Unlearned(matching: seq<Outcome>, p: Profile) {
    Total(matching, One(p)) < 5.0
  }

  lemma UnlearnedEstimate(matching: seq<Outcome>, c: Candidate)
    requires Unlearned(matching, c.profile)
    ensures EstimateOf(matching, c) == Bootstrap(c)
  {
    hide Total;
  }

  /** The decomposing strategy is never chosen on its fixed rate, which is below every threshold that can apply when it
      is offered: it takes five records of its profile whose success rate reaches the threshold. */
  lemma DecomposeFirstNeverChosen(r: Request, history: seq<Outcome>, d: Decision)
    requires IsDecision(r, history, d)
    ensures var stats := ProfileStats(Matching(history, d.role, d.taskType), CheapCloud);
            d.chosen.strategy == DecomposeFirst ==>
              stats.Some? && stats.value.total >= 5.0 && stats.value.rate >= Threshold(d.taskType)
  {
    hide Classify, Affordable, ExpectedCost, Matching, CheaperCandidates, ProfileStats;
    if !d.forced && d.chosen.strategy == DecomposeFirst {
      var t, matching := d.taskType, Matching(history, d.role, d.taskType);
      var cs := Candidates(r, t);
      var k :| 0 <= k < |cs| && IsChoice(r, t, matching, k) && d.chosen == cs[k];
      DecomposeOffered(r, k);
      assert EstimateOf(matching, cs[k]).prob >= Threshold(t);
    }
  }

  /** The decomposing strategy is offered for no task type with a threshold of 0.65 or less. */
  lemma DecomposeOffered(r: Request, k: nat)
    requires k < |Candidates(r, Classify(r).1)| && Candidates(r, Classify(r).1)[k].strategy == DecomposeFirst
    ensures Threshold(Classify(r).1) > 0.65 && Candidates(r, Classify(r).1)[k].prob == 0.65
    ensures Candidates(r, Classify(r).1)[k].profile == CheapCloud
    ensures k < |Candidates(r, Classify(r).1)| - 1
  {
    CodeReasoningKeepsWhole(r);
    assert ForceDecompose(r, Classify(r).1);
  }

  /** A task that is classified as plain code reasoning carries no signal that would force a decomposition. */
  lemma CodeReasoningKeepsWhole(r: Request)
    ensures Classify(r).1 == CodeReasoning ==> !ForceDecompose(r, CodeReasoning)
  {
  }

  /** An escalated or heavy task goes to GPU reasoning at once, as long as it was tried less than twice, no
      rates are learned for the two profiles offered, a dollar is left and the provider is not disabled. */
  lemma GpuFirst(r: Request, history: seq<Outcome>, d: Decision)
    requires IsDecision(r, history, d)
    requires var m := Matching(history, d.role, d.taskType); Unlearned(m, GpuReasoning) && Unlearned(m, StrongExecution)
    requires d.taskType == HardDebugging || d.taskType == ArchitectureReview
    requires r.prior < 2 && r.budget >= 1.0 && (VastAI in r.breakers ==> r.breakers[VastAI])
    ensures d.chosen.strategy == GpuDirect && !d.forced
  {
    var t, matching := d.taskType, Matching(history, d.role, d.taskType);
    GpuCandidates(r, t);
    GpuCheapest(r, t);
    hide Classify, Matching, CheaperCandidates, EstimateOf, Bootstrap, StrongCandidate, Unlearned;
    var cs := Candidates(r, t);
    UnlearnedEstimate(matching, GPU);
    UnlearnedEstimate(matching, StrongCandidate(r, t));
    assert cs[0] == GPU && cs[1] == StrongCandidate(r, t);
    assert Admitted(r, t, matching, 0);
    var k :| 0 <= k < |cs| && IsChoice(r, t, matching, k) && d.chosen == cs[k];
    assert k == 0;
  }

  const GPU := Candidate(GpuReasoning, GpuDirect, false, false, 0.75, 0.02, Medium)

  lemma GpuCandidates(r: Request, t: TaskType)
    requires (t == HardDebugging || t == ArchitectureReview) && r.prior < 2
    ensures Candidates(r, t) == [GPU, StrongCandidate(r, t)]
  {
    assert !ForceDecompose(r, t);
  }

  lemma GpuCheapest(r: Request, t: TaskType)
    requires t == HardDebugging || t == ArchitectureReview
    ensures Bootstrap(GPU).expected < Bootstrap(StrongCandidate(r, t)).expected
    ensures Bootstrap(GPU).prob == 0.75 && Threshold(t) == 0.70
  {
  }

  lemma BootstrapBelowStrong(r: Request, t: TaskType, i: nat)
    requires i < |Candidates(r, t)|
    ensures Bootstrap(Candidates(r, t)[i]).expected <= Bootstrap(StrongCandidate(r, t)).expected
  {
    hide ForceDecompose, ForceStrong, NeedsGpu, NeedsHelper;
  }

  /** As long as nothing is learned, more budget or a re-enabled provider never raises the expected cost, forced
      decisions included. */
  lemma UnlearnedWiderNeverCostsMore(r: Request, w: Request, history: seq<Outcome>, d: Decision, dw: Decision)
    requires Wider(r, w) && IsDecision(r, history, d) && IsDecision(w, history, dw)
    requires forall p :: Unlearned(Matching(history, d.role, d.taskType), p)
    ensures dw.estimate.expected <= d.estimate.expected
  {
    if d.forced {
      hide Classify, CheaperCandidates, EstimateOf, Affordable, StrongCandidate, Wider, Matching, Bootstrap, Unlearned;
      var t, matching := d.taskType, Matching(history, d.role, d.taskType);
      WiderOffersSame(r, w);
      if !dw.forced {
        var cs := Candidates(w, t);
        var k :| 0 <= k < |cs| && IsChoice(w, t, matching, k)
          && dw.chosen == cs[k] && dw.estimate == EstimateOf(matching, cs[k]);
        UnlearnedEstimate(matching, cs[k]);
        BootstrapBelowStrong(r, t, k);
      } else {
        SameStrong(r, w, t);
      }
    } else {
      WiderNeverCostsMore(r, w, history, d, dw);
    }
  }

  lemma SameStrong(r: Request, w: Request, t: TaskType)
    requires Wider(r, w)
    ensures StrongCandidate(r, t) == StrongCandidate(w, t)
  {
  }
}
