/** The assignment router (`assignment_router.py`): classification, statistics over past outcomes, candidate
    strategies, and the choice of the cheapest admissible one. Amounts are exact reals; the keyword tests on the
    goal text are given as flags. */
module Router {
  import opened Text

  datatype Role = BackendCoder | TestDebugger | SecurityReviewer | Devops | MemoryArchitect | Planner | Tester

  datatype TaskType =
    | HardDebugging | SemanticRepair | PytestFailure | NoDiffRepair | ComplexImplementation | SecurityReview
    | DevopsRuntime | MemorySystem | Planning | BackendEndpoint | ArchitectureReview | TestOnly | Documentation
    | CodeReasoning

  datatype FailureClass =
    | SemanticIncomplete | StubDetected | PytestFailed | NoDiff | NoDiffAfterRepair | MaxSteps | ReasoningTimeout | OtherFailure

  /** What the keyword and label tests say about the goal. */
  datatype Goal = Goal(length: nat, security: bool, devops: bool, memory: bool, epic: bool, epicLabel: bool, backend: bool,
                       requiredTests: bool, feature: bool, test: bool, repair: bool, supervisor: bool, docs: bool)

  /** The counters of the capability signals; an absent counter is 0. */
  datatype Signals = Signals(noDiffRepair: int, reasoningTimeout: int, stubDetected: int, noDiff: int, maxStepsCeiling: int)

  datatype Profile = CheapCloud | Mini | StrongExecution | GpuReasoning

  datatype Provider = Deepseek | OpenAI | DeepseekStrong | VastAI

  datatype Request = Request(goal: Goal, failureClass: FailureClass, signals: Signals, prior: int, isRepair: bool,
                             highRisk: bool, budget: real, breakers: map<Provider, bool>)

  /** A past outcome; cost and attempts are absent when they are not numbers. */
  datatype Outcome = Outcome(role: Role, taskType: TaskType, profile: Profile, success: bool,
                             cost: Option<real>, attempts: Option<int>)

  datatype Strategy = DirectCheap | MiniDirect | DebugMini | AdvisedMini | GpuDirect | DecomposeFirst | CloudDirect | Strong

  datatype Tier = Low | Medium | High

  datatype Candidate = Candidate(profile: Profile, strategy: Strategy, helper: bool, decompose: bool,
                                 prob: real, cost: real, tier: Tier)

  // ---------------------------------------------------------------- classification

  predicate Escalated(r: Request) {
    var s := r.signals;
    s.noDiffRepair >= 3 || s.noDiffRepair + s.reasoningTimeout >= 4 || (s.noDiffRepair >= 2 && r.prior >= 2)
  }

  /** `_classify_goal`. */
  function Classify(r: Request): (Role, TaskType) {
    var g, s, f := r.goal, r.signals, r.failureClass;
    if Escalated(r) then (BackendCoder, HardDebugging)
    else if f == SemanticIncomplete || f == StubDetected || s.stubDetected >= 1 then (BackendCoder, SemanticRepair)
    else if f == PytestFailed then (TestDebugger, PytestFailure)
    else if f == NoDiff || f == NoDiffAfterRepair || s.noDiff >= 2 then (BackendCoder, NoDiffRepair)
    else if f == MaxSteps || f == ReasoningTimeout || s.maxStepsCeiling >= 1 then (BackendCoder, ComplexImplementation)
    else if g.security then (SecurityReviewer, SecurityReview)
    else if g.devops then (Devops, DevopsRuntime)
    else if g.memory then (MemoryArchitect, MemorySystem)
    else if g.epic && (g.length > 200 || g.epicLabel) then (Planner, Planning)
    else if g.epicLabel then (BackendCoder, ComplexImplementation)
    else if g.backend || g.requiredTests then (BackendCoder, BackendEndpoint)
    else if g.feature then (BackendCoder, if g.length > 800 then ArchitectureReview else ComplexImplementation)
    else if g.test && !g.backend && !g.repair && !g.supervisor then (Tester, TestOnly)
    else if g.repair && g.supervisor then (BackendCoder, ComplexImplementation)
    else if g.docs || g.repair then (Planner, Documentation)
    else (BackendCoder, CodeReasoning)
  }

  function Threshold(t: TaskType): real {
    match t
    case CodeReasoning => 0.60
    case BackendEndpoint => 0.80
    case SecurityReview => 0.90
    case DevopsRuntime => 0.90
    case _ => 0.70
  }

  // ---------------------------------------------------------------- candidates

  predicate NeedsGpu(r: Request, t: TaskType) {
    Escalated(r) || t == HardDebugging || t == ArchitectureReview
  }

  predicate ForceDecompose(r: Request, t: TaskType) {
    || t == Planning || t == MemorySystem
    || (NeedsGpu(r, t) && r.prior >= 2)
    || (r.signals.maxStepsCeiling >= 1 && r.goal.length > 500 && !NeedsGpu(r, t))
  }

  predicate ForceStrong(r: Request, t: TaskType) {
    || r.signals.maxStepsCeiling >= 1 || (r.isRepair && r.prior >= 1)
    || t == SecurityReview || t == DevopsRuntime || t == HardDebugging || r.highRisk
  }

  predicate NeedsHelper(r: Request, t: TaskType) {
    || t == BackendEndpoint || t == SemanticRepair || t == ComplexImplementation || t == NoDiffRepair
    || r.signals.stubDetected >= 1 || r.failureClass == SemanticIncomplete || r.failureClass == StubDetected
    || ForceStrong(r, t)
  }

  /** The strategies offered before the strong one, in order. */
  function CheaperCandidates(r: Request, t: TaskType): seq<Candidate> {
    (if t == Documentation && !r.isRepair then [Candidate(CheapCloud, DirectCheap, false, false, 0.80, 0.10, Low)] else [])
    + (if t == TestOnly && !ForceStrong(r, t) then [Candidate(Mini, MiniDirect, false, false, 0.75, 0.08, Low)] else [])
    + (if t == PytestFailure then [Candidate(Mini, DebugMini, false, false, 0.70, 0.10, Low)] else [])
    + (if t == BackendEndpoint && !ForceStrong(r, t) then [Candidate(Mini, AdvisedMini, true, false, 0.72, 0.15, Medium)] else [])
    + (if NeedsGpu(r, t) && r.prior < 2 then [Candidate(GpuReasoning, GpuDirect, false, false, 0.75, 0.02, Medium)] else [])
    + (if ForceDecompose(r, t) then [Candidate(CheapCloud, DecomposeFirst, NeedsHelper(r, t), true, 0.65, 0.50, Medium)] else [])
    + (if t == CodeReasoning && !ForceStrong(r, t) && !ForceDecompose(r, t) && !NeedsGpu(r, t) then
         [Candidate(CheapCloud, CloudDirect, false, false, 0.62, 0.25, Low)]
       else [])
  }

  function StrongCandidate(r: Request, t: TaskType): Candidate {
    Candidate(StrongExecution, Strong, NeedsHelper(r, t), ForceDecompose(r, t),
              if t == SecurityReview || t == DevopsRuntime then 0.85 else 0.78, 1.20, High)
  }

  /** `_build_candidates`. */
  function Candidates(r: Request, t: TaskType): (cs: seq<Candidate>)
    ensures cs != [] && cs[|cs| - 1] == StrongCandidate(r, t)
  {
    CheaperCandidates(r, t) + [StrongCandidate(r, t)]
  }

  function ProviderOf(p: Profile): Provider {
    match p
    case CheapCloud => Deepseek
    case Mini => OpenAI
    case StrongExecution => DeepseekStrong
    case GpuReasoning => VastAI
  }

  // ---------------------------------------------------------------- statistics

  /** Sum of a quantity over records. */
  function Total(os: seq<Outcome>, f: Outcome -> real): real {
    if os == [] then 0.0 else Total(os[..|os| - 1], f) + f(os[|os| - 1])
  }

  function Matching(os: seq<Outcome>, role: Role, t: TaskType): seq<Outcome> {
    if os == [] then []
    else
      var last := os[|os| - 1];
      Matching(os[..|os| - 1], role, t) + if last.role == role && last.taskType == t then [last] else []
  }

  function One(p: Profile): Outcome -> real {
    (o: Outcome) => if o.profile == p then 1.0 else 0.0
  }

  function Successes(p: Profile): Outcome -> real {
    (o: Outcome) => if o.profile == p && o.success then 1.0 else 0.0
  }

  function Costs(p: Profile): Outcome -> real {
    (o: Outcome) => if o.profile == p && o.cost.Some? then o.cost.value else 0.0
  }

  function CostCount(p: Profile): Outcome -> real {
    (o: Outcome) => if o.profile == p && o.cost.Some? then 1.0 else 0.0
  }

  function Attempts(p: Profile): Outcome -> real {
    (o: Outcome) => if o.profile == p && o.attempts.Some? then o.attempts.value as real else 0.0
  }

  function AttemptCount(p: Profile): Outcome -> real {
    (o: Outcome) => if o.profile == p && o.attempts.Some? then 1.0 else 0.0
  }

  datatype Stats = Stats(total: real, rate: real, avgCost: real, avgAttempts: real)

  /** `_compute_profile_stats` over the records of the same role and task type, without the quality tracker. */
  function ProfileStats(matching: seq<Outcome>, p: Profile): Option<Stats> {
    var n := Total(matching, One(p));
    if n == 0.0 then None
    else
      var costs, attempts := Total(matching, CostCount(p)), Total(matching, AttemptCount(p));
      Some(Stats(n, Total(matching, Successes(p)) / n,
                 if costs == 0.0 then 0.0 else Total(matching, Costs(p)) / costs,
                 if attempts == 0.0 then 1.0 else Total(matching, Attempts(p)) / attempts))
  }

  datatype Estimate = Estimate(prob: real, expected: real)

  function ExpectedCost(cost: real, attempts: real, prob: real): real {
    cost * attempts / (if prob >= 0.05 then prob else 0.05)
  }

  function Bootstrap(c: Candidate): Estimate {
    Estimate(c.prob, ExpectedCost(c.cost, 1.5, c.prob))
  }

  /** Learned rates are used from five records on. */
  function EstimateOf(matching: seq<Outcome>, c: Candidate): Estimate {
    var stats := ProfileStats(matching, c.profile);
    if stats.Some? && stats.value.total >= 5.0 then
      Estimate(stats.value.rate, ExpectedCost(stats.value.avgCost, stats.value.avgAttempts, stats.value.rate))
    else Bootstrap(c)
  }

  // ---------------------------------------------------------------- the choice

  function TierLimit(t: Tier): real {
    match t
    case Low => 0.50
    case Medium => 2.00
    case High => 5.00
  }

  predicate Affordable(r: Request, c: Candidate) {
    && r.budget >= TierLimit(c.tier) * 0.5
    && (ProviderOf(c.profile) in r.breakers ==> r.breakers[ProviderOf(c.profile)])
  }

  /** The candidate passes the budget, circuit-breaker and success filters; the last one needs no success rate. */
  predicate Admitted(r: Request, t: TaskType, matching: seq<Outcome>, i: nat)
    requires i < |Candidates(r, t)|
  {
    var c := Candidates(r, t)[i];
    Affordable(r, c) && (EstimateOf(matching, c).prob >= Threshold(t) || i == |Candidates(r, t)| - 1)
  }

  /** `forced` marks the decision for which no candidate was admitted. */
  datatype Decision = Decision(role: Role, taskType: TaskType, chosen: Candidate, estimate: Estimate, forced: bool,
                               budgetLimit: real, confidence: real, matches: nat)

  function Least(a: real, b: real): real {
    if a <= b then a else b
  }

  function Confidence(prob: real, matches: nat): real {
    Least(0.95, prob * (1.0 + 0.1 * (if matches <= 10 then matches else 10) as real))
  }

  /** The decision is the earliest admitted candidate of least expected cost; strong execution at its bootstrap
      estimate when none is admitted. */
  ghost predicate IsDecision(r: Request, history: seq<Outcome>, d: Decision) {
    var (role, t) := Classify(r);
    var matching := Matching(history, role, t);
    var cs := Candidates(r, t);
    && d.role == role && d.taskType == t && d.matches == |matching|
    && d.budgetLimit == Least(TierLimit(d.chosen.tier), r.budget)
    && d.confidence == Confidence(d.estimate.prob, |matching|)
    && if d.forced then
         && (forall i :: 0 <= i < |cs| ==> !Admitted(r, t, matching, i))
         && d.chosen == StrongCandidate(r, t) && d.estimate == Bootstrap(d.chosen)
       else
         exists k :: 0 <= k < |cs| && IsChoice(r, t, matching, k) && d.chosen == cs[k] && d.estimate == EstimateOf(matching, cs[k])
  }

  ghost predicate IsChoice(r: Request, t: TaskType, matching: seq<Outcome>, k: nat)
    requires k < |Candidates(r, t)|
  {
    var cs := Candidates(r, t);
    && Admitted(r, t, matching, k)
    && (forall i :: 0 <= i < |cs| && Admitted(r, t, matching, i) ==>
          EstimateOf(matching, cs[k]).expected <= EstimateOf(matching, cs[i]).expected)
    && (forall i :: 0 <= i < k && Admitted(r, t, matching, i) ==>
          EstimateOf(matching, cs[k]).expected < EstimateOf(matching, cs[i]).expected)
  }

  /** `AssignmentRouter.decide`. */
  method Decide(r: Request, history: seq<Outcome>) returns (d: Decision)
    ensures IsDecision(r, history, d)
  {
    hide Classify, CheaperCandidates, ProfileStats, Affordable, ExpectedCost, Confidence;
    var (role, t) := Classify(r);
    var matching := Matching(history, role, t);
    var cs := Candidates(r, t);
    var best: Option<nat> := None;
    var bestEstimate := Estimate(0.0, 0.0);
    for i := 0 to |cs|
      invariant best.None? ==> forall j :: 0 <= j < i ==> !Admitted(r, t, matching, j)
      invariant best.Some? ==> best.value < i && Admitted(r, t, matching, best.value)
      invariant best.Some? ==> bestEstimate == EstimateOf(matching, cs[best.value])
      invariant best.Some? ==> forall j :: 0 <= j < i && Admitted(r, t, matching, j) ==>
                  bestEstimate.expected <= EstimateOf(matching, cs[j]).expected
      invariant best.Some? ==> forall j :: 0 <= j < best.value && Admitted(r, t, matching, j) ==>
                  bestEstimate.expected < EstimateOf(matching, cs[j]).expected
    {
      var estimate := EstimateOf(matching, cs[i]);
      if !Affordable(r, cs[i]) {
        continue;
      }
      if estimate.prob < Threshold(t) && i != |cs| - 1 {
        continue;
      }
      if best.None? || estimate.expected < bestEstimate.expected {
        best := Some(i);
        bestEstimate := estimate;
      }
    }
    if best.None? {
      var last := cs[|cs| - 1];
      return Decision(role, t, last, Bootstrap(last), true, Least(TierLimit(last.tier), r.budget),
                      Confidence(Bootstrap(last).prob, |matching|), |matching|);
    }
    d := Decision(role, t, cs[best.value], bestEstimate, false, Least(TierLimit(cs[best.value].tier), r.budget),
                  Confidence(bestEstimate.prob, |matching|), |matching|);
    assert IsChoice(r, t, matching, best.value);
  }
}
