/** The router's decisions in the request's own terms: which requests belong to which role, what a decision costs, what
    it needs, and what is chosen while nothing is learned. */
module RouterLaws {
  import opened Text
  import opened Router
  import opened RouterProofs

  // ---------------------------------------------------------------- roles

  /** Nothing that failed before decides the class. */
  predicate Unmarked(r: Request) {
    && !Escalated(r) && r.failureClass == OtherFailure
    && r.signals.stubDetected < 1 && r.signals.noDiff < 2 && r.signals.maxStepsCeiling < 1
  }

  /** The escalation counts: three repairs without a change, four of these or time-outs, or two on the third attempt. */
  lemma EscalatedMeans(r: Request)
    ensures var repairs, timeouts := r.signals.noDiffRepair, r.signals.reasoningTimeout;
            Escalated(r) <==> repairs >= 3 || timeouts >= 4 - repairs || (repairs == 2 && r.prior >= 2)
  {
  }

  /** What a failed run is routed to: an escalation comes first, then stubs, then a failed test run, then a missing
      change, then the step limit. */
  lemma FailureRoutes(r: Request)
    ensures var c, f, s := Classify(r), r.failureClass, r.signals;
            var stub := f == SemanticIncomplete || f == StubDetected || s.stubDetected >= 1;
            && (c == (TestDebugger, PytestFailure) <==> f == PytestFailed && !Escalated(r) && s.stubDetected < 1)
            && (c == (BackendCoder, HardDebugging) <==> Escalated(r))
            && (c == (BackendCoder, SemanticRepair) <==> stub && !Escalated(r))
            && (c == (BackendCoder, NoDiffRepair) <==>
                  && (f == NoDiff || f == NoDiffAfterRepair || (s.noDiff >= 2 && f != PytestFailed))
                  && !stub && !Escalated(r))
            && (f == MaxSteps || f == ReasoningTimeout ==>
                  c == if Escalated(r) then (BackendCoder, HardDebugging)
                       else if s.stubDetected >= 1 then (BackendCoder, SemanticRepair)
                       else if s.noDiff >= 2 then (BackendCoder, NoDiffRepair)
                       else (BackendCoder, ComplexImplementation))
            && (c.0 == TestDebugger ==> f == PytestFailed)
  {
    hide Escalated;
  }

  /** What a new goal is routed to: security before operations before memory before planning, and the other kinds of
      goals only without all of these. */
  lemma GoalRoutes(r: Request)
    requires Unmarked(r)
    ensures var c, g := Classify(r), r.goal;
            var large := g.epic && (g.length > 200 || g.epicLabel);
            var special := g.security || g.devops || g.memory || large || g.epicLabel;
            && (c == (SecurityReviewer, SecurityReview) <==> g.security)
            && (c == (Devops, DevopsRuntime) <==> g.devops && !g.security)
            && (c == (MemoryArchitect, MemorySystem) <==> g.memory && !g.security && !g.devops)
            && (c == (Planner, Planning) <==> large && !g.security && !g.devops && !g.memory)
            && (c == (BackendCoder, BackendEndpoint) <==> (g.backend || g.requiredTests) && !special)
            && (c == (BackendCoder, ArchitectureReview) <==>
                  g.feature && g.length > 800 && !g.backend && !g.requiredTests && !special)
            && (c == (Tester, TestOnly) <==>
                  g.test && !g.repair && !g.supervisor && !g.feature && !g.backend && !g.requiredTests && !special)
            && (c == (BackendCoder, CodeReasoning) <==>
                  && !g.docs && !g.repair && !(g.test && !g.supervisor) && !g.feature && !g.backend && !g.requiredTests
                  && !special)
  {
    hide Escalated;
  }

  // ---------------------------------------------------------------- learned estimates

  /** One more record of a profile: the record counts once, the rate counts its success, the average cost its cost, the
      average attempts its attempts; a record without an amount leaves that average alone. */
  lemma StatsAfter(os: seq<Outcome>, o: Outcome)
    requires ProfileStats(os, o.profile).Some?
    ensures ProfileStats(os + [o], o.profile).Some?
    ensures var s, s' := ProfileStats(os, o.profile).value, ProfileStats(os + [o], o.profile).value;
            && s'.total == s.total + 1.0
            && s'.rate * s'.total == s.rate * s.total + (if o.success then 1.0 else 0.0)
            && (o.cost.None? ==> s'.avgCost == s.avgCost)
            && (o.attempts.None? ==> s'.avgAttempts == s.avgAttempts)
            && (o.cost.Some? && Total(os, CostCount(o.profile)) == s.total ==>
                  s'.avgCost * s'.total == s.avgCost * s.total + o.cost.value)
            && (o.attempts.Some? && Total(os, AttemptCount(o.profile)) == s.total ==>
                  s'.avgAttempts * s'.total == s.avgAttempts * s.total + o.attempts.value as real)
  {
    hide ProfileStats, Total, Times;
    RateAfter(os, o);
    CostAfter(os, o);
    AttemptsAfter(os, o);
  }

  lemma RateAfter(os: seq<Outcome>, o: Outcome)
    requires ProfileStats(os, o.profile).Some?
    ensures ProfileStats(os + [o], o.profile).Some?
    ensures var s, s' := ProfileStats(os, o.profile).value, ProfileStats(os + [o], o.profile).value;
            && s.total == Total(os, One(o.profile)) && s'.total == s.total + 1.0
            && s'.rate * s'.total == s.rate * s.total + (if o.success then 1.0 else 0.0)
  {
    hide Total;
    var p := o.profile;
    CountsBounded(os, p);
    MoreTotal(os, o, One(p));
    MoreTotal(os, o, Successes(p));
    Average(Total(os, Successes(p)), Total(os, One(p)), if o.success then 1.0 else 0.0);
  }

  lemma CostAfter(os: seq<Outcome>, o: Outcome)
    requires ProfileStats(os, o.profile).Some? && ProfileStats(os + [o], o.profile).Some?
    ensures var s, s' := ProfileStats(os, o.profile).value, ProfileStats(os + [o], o.profile).value;
            && (o.cost.None? ==> s'.avgCost == s.avgCost)
            && (o.cost.Some? && Total(os, CostCount(o.profile)) == s.total ==>
                  s'.avgCost * (s.total + 1.0) == s.avgCost * s.total + o.cost.value)
  {
    hide Total;
    var p := o.profile;
    AmountsCounted(os, p);
    MoreTotal(os, o, CostCount(p));
    MoreTotal(os, o, Costs(p));
    if o.cost.Some? && Total(os, CostCount(p)) == Total(os, One(p)) {
      Average(Total(os, Costs(p)), Total(os, One(p)), o.cost.value);
    }
  }

  lemma AttemptsAfter(os: seq<Outcome>, o: Outcome)
    requires ProfileStats(os, o.profile).Some? && ProfileStats(os + [o], o.profile).Some?
    ensures var s, s' := ProfileStats(os, o.profile).value, ProfileStats(os + [o], o.profile).value;
            && (o.attempts.None? ==> s'.avgAttempts == s.avgAttempts)
            && (o.attempts.Some? && Total(os, AttemptCount(o.profile)) == s.total ==>
                  s'.avgAttempts * (s.total + 1.0) == s.avgAttempts * s.total + o.attempts.value as real)
  {
    hide Total;
    var p := o.profile;
    AmountsCounted(os, p);
    MoreTotal(os, o, AttemptCount(p));
    MoreTotal(os, o, Attempts(p));
    if o.attempts.Some? && Total(os, AttemptCount(p)) == Total(os, One(p)) {
      Average(Total(os, Attempts(p)), Total(os, One(p)), o.attempts.value as real);
    }
  }

  lemma Average(sum: real, n: real, x: real)
    requires n > 0.0
    ensures (sum + x) / (n + 1.0) * (n + 1.0) == sum / n * n + x
  {
    QuotientTimes(sum, n);
    QuotientTimes(sum + x, n + 1.0);
  }

  lemma MoreTotal(os: seq<Outcome>, o: Outcome, f: Outcome -> real)
    ensures Total(os + [o], f) == Total(os, f) + f(o)
  {
    assert (os + [o])[..|os|] == os;
  }

  lemma {:induction false} AmountsCounted(os: seq<Outcome>, p: Profile)
    ensures 0.0 <= Total(os, CostCount(p)) && 0.0 <= Total(os, AttemptCount(p))
  {
    if os != [] {
      AmountsCounted(os[..|os| - 1], p);
    }
  }

  lemma {:induction false} NoRecords(os: seq<Outcome>, p: Profile)
    requires forall i :: 0 <= i < |os| ==> os[i].profile != p
    ensures Total(os, One(p)) == 0.0 && Total(os, Successes(p)) == 0.0
    ensures Total(os, CostCount(p)) == 0.0 && Total(os, Costs(p)) == 0.0
    ensures Total(os, AttemptCount(p)) == 0.0 && Total(os, Attempts(p)) == 0.0
  {
    if os != [] {
      NoRecords(os[..|os| - 1], p);
    }
  }

  /** Without records of a profile nothing is known of it; the first one is all that is known, with no cost and one
      attempt where it has no amounts. */
  lemma FirstRecord(os: seq<Outcome>, o: Outcome)
    requires forall i :: 0 <= i < |os| ==> os[i].profile != o.profile
    ensures ProfileStats(os, o.profile) == None
    ensures ProfileStats(os + [o], o.profile)
         == Some(Stats(1.0, if o.success then 1.0 else 0.0, if o.cost.Some? then o.cost.value else 0.0,
                       if o.attempts.Some? then o.attempts.value as real else 1.0))
  {
    hide Total;
    var p := o.profile;
    NoRecords(os, p);
    MoreTotal(os, o, One(p));
    MoreTotal(os, o, Successes(p));
    MoreTotal(os, o, CostCount(p));
    MoreTotal(os, o, Costs(p));
    MoreTotal(os, o, AttemptCount(p));
    MoreTotal(os, o, Attempts(p));
    OverOne(if o.cost.Some? then o.cost.value else 0.0);
    OverOne(if o.attempts.Some? then o.attempts.value as real else 0.0);
  }

  lemma OverOne(x: real)
    ensures x / 1.0 == x
  {
  }

  /** Records of other profiles change nothing. */
  lemma StatsOfOthers(os: seq<Outcome>, o: Outcome, p: Profile)
    requires o.profile != p
    ensures ProfileStats(os + [o], p) == ProfileStats(os, p)
  {
    hide Total;
    MoreTotal(os, o, One(p));
    MoreTotal(os, o, Successes(p));
    MoreTotal(os, o, CostCount(p));
    MoreTotal(os, o, Costs(p));
    MoreTotal(os, o, AttemptCount(p));
    MoreTotal(os, o, Attempts(p));
  }

  /** The expected cost is the average cost of an attempt times the average number of attempts, over the success rate,
      which counts as 0.05 at least. */
  lemma LearnedCost(matching: seq<Outcome>, c: Candidate)
    requires ProfileStats(matching, c.profile).Some? && ProfileStats(matching, c.profile).value.total >= 5.0
    ensures var s, e := ProfileStats(matching, c.profile).value, EstimateOf(matching, c);
            && e.prob == s.rate
            && e.expected * (if s.rate >= 0.05 then s.rate else 0.05) == s.avgCost * s.avgAttempts
  {
    hide ProfileStats;
    var s := ProfileStats(matching, c.profile).value;
    QuotientTimes(s.avgCost * s.avgAttempts, if s.rate >= 0.05 then s.rate else 0.05);
  }

  /** Of two learned candidates, the one that succeeds no less often, costs no more and takes no more attempts on average
      is never the dearer; with the same rate and the same positive cost, fewer attempts make it cheaper. */
  lemma FewerAttempts(matching: seq<Outcome>, a: Candidate, b: Candidate)
    requires ProfileStats(matching, a.profile).Some? && ProfileStats(matching, a.profile).value.total >= 5.0
    requires ProfileStats(matching, b.profile).Some? && ProfileStats(matching, b.profile).value.total >= 5.0
    requires var s, s' := ProfileStats(matching, a.profile).value, ProfileStats(matching, b.profile).value;
             s.rate >= s'.rate && 0.0 <= s.avgCost <= s'.avgCost && 0.0 <= s.avgAttempts <= s'.avgAttempts
    ensures EstimateOf(matching, a).expected <= EstimateOf(matching, b).expected
    ensures var s, s' := ProfileStats(matching, a.profile).value, ProfileStats(matching, b.profile).value;
            s.rate == s'.rate && s.avgCost == s'.avgCost > 0.0 && s.avgAttempts < s'.avgAttempts ==>
              EstimateOf(matching, a).expected < EstimateOf(matching, b).expected
  {
    hide ProfileStats, EstimateOf;
    var s, s' := ProfileStats(matching, a.profile).value, ProfileStats(matching, b.profile).value;
    LearnedCost(matching, a);
    LearnedCost(matching, b);
    var x, x' := EstimateOf(matching, a).expected, EstimateOf(matching, b).expected;
    Compared(x, x', if s.rate >= 0.05 then s.rate else 0.05, if s'.rate >= 0.05 then s'.rate else 0.05,
             s.avgCost, s'.avgCost, s.avgAttempts, s'.avgAttempts);
  }

  function Times(a: real, b: real): real {
    a * b
  }

  lemma Compared(x: real, x': real, q: real, q': real, c: real, c': real, n: real, n': real)
    requires q >= q' > 0.0 && 0.0 <= c <= c' && 0.0 <= n <= n'
    requires Times(x, q) == Times(c, n) && Times(x', q') == Times(c', n')
    ensures x <= x'
    ensures q == q' && c == c' > 0.0 && n < n' ==> x < x'
  {
    hide Times;
    TimesLess(c', 0.0, n');
    TimesLess(c, n, n');
    TimesLess(n', c, c');
    NotNegative(x', q');
    TimesLess(x', q', q);
    TimesOrder(x', x, q);
    if q == q' && c == c' > 0.0 && n < n' {
      TimesOrder(n, n', c);
    }
  }

  lemma NotNegative(x: real, q: real)
    requires q > 0.0 && Times(x, q) >= 0.0
    ensures x >= 0.0
  {
    TimesOrder(x, 0.0, q);
  }

  lemma TimesOrder(x: real, y: real, q: real)
    requires q > 0.0
    ensures x < y ==> Times(x, q) < Times(y, q) && Times(q, x) < Times(q, y)
    ensures Times(0.0, q) == 0.0
  {
  }

  lemma TimesLess(a: real, x: real, y: real)
    requires a >= 0.0 && x <= y
    ensures Times(a, x) <= Times(a, y) && Times(x, a) <= Times(y, a) && Times(a, 0.0) == 0.0
  {
  }

  // ---------------------------------------------------------------- what a decision needs

  /** The provider that serves a profile is not disabled. */
  predicate Enabled(r: Request, p: Profile) {
    match p
    case CheapCloud => Deepseek in r.breakers ==> r.breakers[Deepseek]
    case Mini => OpenAI in r.breakers ==> r.breakers[OpenAI]
    case StrongExecution => DeepseekStrong in r.breakers ==> r.breakers[DeepseekStrong]
    case GpuReasoning => VastAI in r.breakers ==> r.breakers[VastAI]
  }

  predicate Simple(s: Strategy) {
    s == DirectCheap || s == MiniDirect || s == DebugMini || s == CloudDirect
  }

  /** What every candidate is, by its strategy. */
  lemma CandidateMeans(r: Request, t: TaskType, i: nat)
    requires i < |Candidates(r, t)|
    ensures var c := Candidates(r, t)[i];
            && (Affordable(r, c) <==>
                  && Enabled(r, c.profile)
                  && r.budget >= if Simple(c.strategy) then 0.25 else if c.strategy == Strong then 2.50 else 1.00)
            && (c.strategy == Strong <==> i == |Candidates(r, t)| - 1)
            && (c.tier == if Simple(c.strategy) then Low else if c.strategy == Strong then High else Medium)
            && (c.profile == match c.strategy
                             case DirectCheap => CheapCloud case CloudDirect => CheapCloud case DecomposeFirst => CheapCloud
                             case MiniDirect => Mini case DebugMini => Mini case AdvisedMini => Mini
                             case GpuDirect => GpuReasoning case Strong => StrongExecution)
  {
    hide NeedsGpu, ForceDecompose, ForceStrong, NeedsHelper, CheaperCandidates, Affordable;
    var c := Candidates(r, t)[i];
    if i < |Candidates(r, t)| - 1 {
      assert c in CheaperCandidates(r, t);
      CheaperShape(r, t, c);
    } else {
      assert c == StrongCandidate(r, t);
    }
    AffordableMeans(r, c);
  }

  lemma AffordableMeans(r: Request, c: Candidate)
    ensures Affordable(r, c) <==>
            Enabled(r, c.profile) && r.budget >= match c.tier case Low => 0.25 case Medium => 1.00 case High => 2.50
  {
  }

  lemma CheaperShape(r: Request, t: TaskType, c: Candidate)
    requires c in CheaperCandidates(r, t)
    ensures c.strategy != Strong && c.tier == if Simple(c.strategy) then Low else Medium
    ensures c.profile == match c.strategy
                         case DirectCheap => CheapCloud case CloudDirect => CheapCloud case DecomposeFirst => CheapCloud
                         case MiniDirect => Mini case DebugMini => Mini case AdvisedMini => Mini
                         case GpuDirect => GpuReasoning case Strong => StrongExecution
  {
    hide NeedsGpu, ForceDecompose, ForceStrong, NeedsHelper;
  }

  /** Unless nothing was admitted, the provider of the decision is enabled, the budget covers half its tier, and the
      success rate reaches what the task type asks for, except that strong execution needs none. */
  lemma DecisionNeeds(r: Request, history: seq<Outcome>, d: Decision)
    requires IsDecision(r, history, d)
    ensures !d.forced ==> Enabled(r, d.chosen.profile)
    ensures !d.forced ==>
      r.budget >= if Simple(d.chosen.strategy) then 0.25 else if d.chosen.strategy == Strong then 2.50 else 1.00
    ensures var limit := if Simple(d.chosen.strategy) then 0.50 else if d.chosen.strategy == Strong then 5.00 else 2.00;
            d.budgetLimit == if limit <= r.budget then limit else r.budget
    ensures d.forced ==> d.chosen.strategy == Strong
    ensures d.chosen.strategy != Strong ==>
      d.estimate.prob >= match d.taskType
                         case CodeReasoning => 0.60
                         case BackendEndpoint => 0.80
                         case SecurityReview => 0.90
                         case DevopsRuntime => 0.90
                         case _ => 0.70
  {
    hide Classify, Candidates, Affordable, EstimateOf, Enabled, Matching, Confidence, Bootstrap, StrongCandidate, ProviderOf;
    var t, matching := d.taskType, Matching(history, d.role, d.taskType);
    var cs := Candidates(r, t);
    CandidateMeans(r, t, |cs| - 1);
    if !d.forced {
      var k :| 0 <= k < |cs| && IsChoice(r, t, matching, k) && d.chosen == cs[k] && d.estimate == EstimateOf(matching, cs[k]);
      CandidateMeans(r, t, k);
      assert Admitted(r, t, matching, k);
    }
  }

  /** The confidence starts at the success rate and grows by a tenth of it with each of the first ten records, up to
      0.95. */
  lemma ConfidenceMeans(r: Request, history: seq<Outcome>, d: Decision)
    requires IsDecision(r, history, d)
    ensures d.confidence <= 0.95
    ensures d.matches == 0 && d.estimate.prob <= 0.95 ==> d.confidence == d.estimate.prob
    ensures d.matches == 5 && d.estimate.prob <= 0.6 ==> d.confidence == 1.5 * d.estimate.prob
    ensures d.matches >= 10 && d.estimate.prob <= 0.475 ==> d.confidence == 2.0 * d.estimate.prob
    ensures d.matches >= 10 && d.estimate.prob >= 0.475 ==> d.confidence == 0.95
  {
    hide Classify, Candidates, Affordable, EstimateOf, Matching, Bootstrap, StrongCandidate, Confidence;
    ConfidenceValue(d.estimate.prob, d.matches);
  }

  lemma ConfidenceValue(p: real, n: nat)
    ensures Confidence(p, n) <= 0.95
    ensures n == 0 && p <= 0.95 ==> Confidence(p, n) == p
    ensures n == 5 && p <= 0.6 ==> Confidence(p, n) == 1.5 * p
    ensures n >= 10 ==> Confidence(p, n) == if p <= 0.475 then 2.0 * p else 0.95
  {
    if n == 0 {
      assert 0.1 * 0 as real == 0.0;
    } else if n == 5 {
      assert 0.1 * 5 as real == 0.5;
    } else if n >= 10 {
      assert 0.1 * 10 as real == 1.0;
    }
  }

  // ---------------------------------------------------------------- what is offered

  /** The request asks for strong execution of tasks that a cheaper strategy could do. */
  predicate AsksStrong(r: Request) {
    (r.isRepair && r.prior >= 1) || r.highRisk
  }

  /** The task is broken up before it is tried: planning and memory work, a heavy task tried twice, and a long goal that
      ran into the step limit. */
  predicate BreaksUp(r: Request, t: TaskType) {
    || t == Planning || t == MemorySystem
    || ((t == HardDebugging || t == ArchitectureReview) && r.prior >= 2)
    || (t in {SemanticRepair, PytestFailure, NoDiffRepair, ComplexImplementation}
        && r.signals.maxStepsCeiling >= 1 && r.goal.length > 500)
  }

  /** The helper is asked first. */
  predicate AsksHelper(r: Request, t: TaskType) {
    || t in {BackendEndpoint, SemanticRepair, ComplexImplementation, NoDiffRepair}
    || t in {SecurityReview, DevopsRuntime, HardDebugging} || AsksStrong(r)
    || (t == PytestFailure && r.signals.maxStepsCeiling >= 1)
  }

  /** The signals that are left for a task type. */
  lemma FlagsOfClass(r: Request)
    ensures var t := Classify(r).1;
            && (NeedsGpu(r, t) <==> t == HardDebugging || t == ArchitectureReview)
            && (ForceDecompose(r, t) <==> BreaksUp(r, t))
            && (NeedsHelper(r, t) <==> AsksHelper(r, t))
            && (t in {TestOnly, BackendEndpoint, CodeReasoning, Documentation} ==> (ForceStrong(r, t) <==> AsksStrong(r)))
  {
  }

  /** Which strategies are offered for a request, and which of them ask the helper or break the task up first. */
  lemma OffersExactly(r: Request, s: Strategy)
    ensures var t := Classify(r).1;
            (exists i :: 0 <= i < |Candidates(r, t)| && Candidates(r, t)[i].strategy == s) <==>
            match s
            case DirectCheap => t == Documentation && !r.isRepair
            case MiniDirect => t == TestOnly && !AsksStrong(r)
            case DebugMini => t == PytestFailure
            case AdvisedMini => t == BackendEndpoint && !AsksStrong(r)
            case GpuDirect => (t == HardDebugging || t == ArchitectureReview) && r.prior < 2
            case DecomposeFirst => BreaksUp(r, t)
            case CloudDirect => t == CodeReasoning && !AsksStrong(r)
            case Strong => true
    ensures var t := Classify(r).1;
            forall i :: 0 <= i < |Candidates(r, t)| && Candidates(r, t)[i].strategy == s ==>
              && (Candidates(r, t)[i].helper <==>
                    s == AdvisedMini || ((s == DecomposeFirst || s == Strong) && AsksHelper(r, t)))
              && (Candidates(r, t)[i].decompose <==> s == DecomposeFirst || (s == Strong && BreaksUp(r, t)))
  {
    hide Classify, NeedsGpu, ForceDecompose, ForceStrong, NeedsHelper, AsksStrong, BreaksUp, AsksHelper;
    FlagsOfClass(r);
    PlainNotBroken(Classify(r).1, r);
    OffersByFlags(r, Classify(r).1, s);
  }

  lemma PlainNotBroken(t: TaskType, r: Request)
    ensures t == CodeReasoning ==> !BreaksUp(r, t)
  {
  }

  /** The same by the flags that the candidates are built from. */
  predicate OfferedByFlags(r: Request, t: TaskType, s: Strategy) {
    match s
    case DirectCheap => t == Documentation && !r.isRepair
    case MiniDirect => t == TestOnly && !ForceStrong(r, t)
    case DebugMini => t == PytestFailure
    case AdvisedMini => t == BackendEndpoint && !ForceStrong(r, t)
    case GpuDirect => NeedsGpu(r, t) && r.prior < 2
    case DecomposeFirst => ForceDecompose(r, t)
    case CloudDirect => t == CodeReasoning && !ForceStrong(r, t) && !ForceDecompose(r, t) && !NeedsGpu(r, t)
    case Strong => true
  }

  predicate FlagsFit(r: Request, t: TaskType, c: Candidate) {
    && (c.helper <==> c.strategy == AdvisedMini
                      || ((c.strategy == DecomposeFirst || c.strategy == Strong) && NeedsHelper(r, t)))
    && (c.decompose <==> c.strategy == DecomposeFirst || (c.strategy == Strong && ForceDecompose(r, t)))
  }

  lemma CheaperFlags(r: Request, t: TaskType, c: Candidate)
    requires c in CheaperCandidates(r, t)
    ensures c.strategy != Strong && OfferedByFlags(r, t, c.strategy) && FlagsFit(r, t, c)
  {
    hide NeedsGpu, ForceDecompose, ForceStrong, NeedsHelper;
  }

  lemma CheaperOffered(r: Request, t: TaskType, s: Strategy) returns (c: Candidate)
    requires s != Strong && OfferedByFlags(r, t, s)
    ensures c in CheaperCandidates(r, t) && c.strategy == s
  {
    hide NeedsGpu, ForceDecompose, ForceStrong, NeedsHelper;
    c := match s
         case DirectCheap => Candidate(CheapCloud, DirectCheap, false, false, 0.80, 0.10, Low)
         case MiniDirect => Candidate(Mini, MiniDirect, false, false, 0.75, 0.08, Low)
         case DebugMini => Candidate(Mini, DebugMini, false, false, 0.70, 0.10, Low)
         case AdvisedMini => Candidate(Mini, AdvisedMini, true, false, 0.72, 0.15, Medium)
         case GpuDirect => GPU
         case CloudDirect => Candidate(CheapCloud, CloudDirect, false, false, 0.62, 0.25, Low)
         case _ => Candidate(CheapCloud, DecomposeFirst, NeedsHelper(r, t), true, 0.65, 0.50, Medium);
  }

  lemma OffersByFlags(r: Request, t: TaskType, s: Strategy)
    ensures (exists i :: 0 <= i < |Candidates(r, t)| && Candidates(r, t)[i].strategy == s) <==> OfferedByFlags(r, t, s)
    ensures forall i :: 0 <= i < |Candidates(r, t)| ==> FlagsFit(r, t, Candidates(r, t)[i])
  {
    hide CheaperCandidates, OfferedByFlags, FlagsFit;
    var cs, cheaper := Candidates(r, t), CheaperCandidates(r, t);
    StrongFits(r, t);
    forall i | 0 <= i < |cs|
      ensures FlagsFit(r, t, cs[i]) && OfferedByFlags(r, t, cs[i].strategy)
    {
      if i < |cheaper| {
        assert cs[i] in cheaper;
        CheaperFlags(r, t, cs[i]);
      }
    }
    if s == Strong {
      assert cs[|cs| - 1].strategy == s;
    } else if OfferedByFlags(r, t, s) {
      var c := CheaperOffered(r, t, s);
      var i :| 0 <= i < |cheaper| && cheaper[i] == c;
      assert cs[i].strategy == s;
    }
  }

  lemma StrongFits(r: Request, t: TaskType)
    ensures StrongCandidate(r, t).strategy == Strong && OfferedByFlags(r, t, Strong)
    ensures FlagsFit(r, t, StrongCandidate(r, t))
  {
    hide NeedsGpu, ForceDecompose, ForceStrong, NeedsHelper;
  }

  // ---------------------------------------------------------------- while nothing is learned

  /** What is chosen for a request as long as no rates are learned, every provider is enabled and the budget is 2.50. */
  function Fresh(r: Request, t: TaskType): Strategy {
    match t
    case HardDebugging => if r.prior < 2 then GpuDirect else Strong
    case ArchitectureReview => if r.prior < 2 then GpuDirect else Strong
    case Documentation => if r.isRepair then Strong else DirectCheap
    case TestOnly => if AsksStrong(r) then Strong else MiniDirect
    case PytestFailure => DebugMini
    case CodeReasoning => if AsksStrong(r) then Strong else CloudDirect
    case _ => Strong
  }

  /** The cost expected of it: one and a half attempts at its fixed cost, over its fixed success rate. */
  function FreshCost(r: Request, t: TaskType): real {
    match Fresh(r, t)
    case GpuDirect => 0.02 * 1.5 / 0.75
    case DirectCheap => 0.10 * 1.5 / 0.80
    case MiniDirect => 0.08 * 1.5 / 0.75
    case DebugMini => 0.10 * 1.5 / 0.70
    case CloudDirect => 0.25 * 1.5 / 0.62
    case _ => if t == SecurityReview || t == DevopsRuntime then 1.20 * 1.5 / 0.85 else 1.20 * 1.5 / 0.78
  }

  lemma FreshOffered(r: Request) returns (k: nat)
    ensures var t := Classify(r).1; k < |Candidates(r, t)| && Candidates(r, t)[k].strategy == Fresh(r, t)
  {
    hide Classify, NeedsGpu, ForceDecompose, ForceStrong, NeedsHelper;
    FlagsOfClass(r);
    var t := Classify(r).1;
    var cs := Candidates(r, t);
    if Fresh(r, t) == Strong {
      k := |cs| - 1;
    } else {
      var c := if t == Documentation then Candidate(CheapCloud, DirectCheap, false, false, 0.80, 0.10, Low)
               else if t == TestOnly then Candidate(Mini, MiniDirect, false, false, 0.75, 0.08, Low)
               else if t == PytestFailure then Candidate(Mini, DebugMini, false, false, 0.70, 0.10, Low)
               else if t == CodeReasoning then Candidate(CheapCloud, CloudDirect, false, false, 0.62, 0.25, Low)
               else Candidate(GpuReasoning, GpuDirect, false, false, 0.75, 0.02, Medium);
      assert c in CheaperCandidates(r, t);
      k :| 0 <= k < |cs| && cs[k] == c;
    }
  }

  /** Apart from two strategies whose fixed rate is below their threshold, only the fresh choice is offered before strong
      execution. */
  lemma FreshOnly(r: Request, i: nat)
    requires i < |Candidates(r, Classify(r).1)|
    ensures var t := Classify(r).1;
            var c := Candidates(r, t)[i];
            && (c.strategy == Fresh(r, t) || c.strategy == Strong || (c.prob < Threshold(t) && i < |Candidates(r, t)| - 1))
            && (c.strategy == Fresh(r, t) ==> Bootstrap(c).expected == FreshCost(r, t))
            && (c.strategy == Fresh(r, t) ==> c.prob >= Threshold(t) || c.strategy == Strong)
            && (c.strategy == Strong && Fresh(r, t) != Strong ==> Bootstrap(c).expected > FreshCost(r, t))
  {
    hide Classify, NeedsGpu, ForceDecompose, ForceStrong, NeedsHelper;
    FlagsOfClass(r);
    hide Threshold;
    Thresholds();
    NeverPlain(r);
  }

  lemma Thresholds()
    ensures Threshold(CodeReasoning) == 0.60 && Threshold(BackendEndpoint) == 0.80
    ensures forall t :: t != CodeReasoning ==> Threshold(t) >= 0.70
    ensures Threshold(TestOnly) == 0.70 && Threshold(PytestFailure) == 0.70 && Threshold(Documentation) == 0.70
    ensures Threshold(HardDebugging) == 0.70 && Threshold(ArchitectureReview) == 0.70
  {
  }

  lemma NeverPlain(r: Request)
    ensures Classify(r).1 == CodeReasoning ==> !ForceDecompose(r, CodeReasoning)
  {
    CodeReasoningKeepsWhole(r);
  }

  /** The decision table of the router before it has learned anything. */
  lemma FreshDecision(r: Request, history: seq<Outcome>, d: Decision)
    requires IsDecision(r, history, d) && r.budget >= 2.50
    requires forall p :: Unlearned(Matching(history, d.role, d.taskType), p)
    requires forall p :: p in r.breakers ==> r.breakers[p]
    ensures !d.forced && d.chosen.strategy == Fresh(r, d.taskType)
    ensures d.estimate == Estimate(d.chosen.prob, FreshCost(r, d.taskType))
  {
    hide Classify, Candidates, EstimateOf, Matching, Unlearned, Affordable, Fresh, FreshCost, StrongCandidate, Threshold,
         Confidence, ExpectedCost;
    var t, matching := d.taskType, Matching(history, d.role, d.taskType);
    var cs := Candidates(r, t);
    var f := FreshOffered(r);
    FreshOnly(r, f);
    CandidateMeans(r, t, f);
    UnlearnedEstimate(matching, cs[f]);
    assert Admitted(r, t, matching, f);
    var k :| 0 <= k < |cs| && IsChoice(r, t, matching, k) && d.chosen == cs[k] && d.estimate == EstimateOf(matching, cs[k]);
    UnlearnedEstimate(matching, cs[k]);
    FreshOnly(r, k);
    CandidateMeans(r, t, k);
    assert Admitted(r, t, matching, k);
  }
}
