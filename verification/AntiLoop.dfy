/** The sliding window that detects repetitive behaviour (`anti_loop.py`). */
module AntiLoop {
  import opened Text

  const FAMILIES := ["testing", "editing", "search", "writing", "other"]
  const WINDOW := 20

  predicate Mentions(lowered: string, words: seq<string>) {
    exists i :: 0 <= i < |words| && Contains(lowered, words[i])
  }

  /** `classify_task_family`. */
  function Classify(text: string): (family: string)
    ensures family in FAMILIES
  {
    var lowered := Lower(text);
    assert FAMILIES[0] == "testing" && FAMILIES[1] == "editing" && FAMILIES[2] == "search"
        && FAMILIES[3] == "writing" && FAMILIES[4] == "other";
    if Mentions(lowered, ["test", "pytest", "unittest"]) then "testing"
    else if Mentions(lowered, ["fix", "edit", "modify", "refactor"]) then "editing"
    else if Mentions(lowered, ["search", "find", "grep"]) then "search"
    else if Mentions(lowered, ["write", "create", "generate"]) then "writing"
    else "other"
  }

  /** The most recent tasks, `deque(tasks, maxlen=20)`. */
  function Recent(tasks: seq<string>): seq<string> {
    if |tasks| <= WINDOW then tasks else tasks[|tasks| - WINDOW..]
  }

  /** A counter: families in the order of their first occurrence, each with its count. */
  type Counter = seq<(string, nat)>

  function Bump(c: Counter, family: string): Counter {
    if c == [] then [(family, 1)]
    else if c[0].0 == family then [(family, c[0].1 + 1)] + c[1..]
    else [c[0]] + Bump(c[1..], family)
  }

  function CountFamilies(tasks: seq<string>): Counter {
    if tasks == [] then [] else Bump(CountFamilies(tasks[..|tasks| - 1]), Classify(tasks[|tasks| - 1]))
  }

  /** `compute_family_counts`. */
  function FamilyCounts(tasks: seq<string>): Counter {
    CountFamilies(Recent(tasks))
  }

  /** `saturated_families`. */
  function Saturated(c: Counter, threshold: int): seq<string> {
    if c == [] then []
    else (if c[0].1 >= threshold then [c[0].0] else []) + Saturated(c[1..], threshold)
  }

  /** `should_force_strategy_shift`. */
  predicate ForcesShift(tasks: seq<string>, threshold: int) {
    Saturated(FamilyCounts(tasks), threshold) != []
  }

  /** `can_select_family`; a differentiator counts when it is not empty. */
  predicate CanSelect(family: string, history: seq<string>, differentiator: string, threshold: int) {
    family !in Saturated(FamilyCounts(history), threshold) || differentiator != ""
  }

  function Others(c: Counter, family: string): Counter {
    if c == [] then [] else (if c[0].0 != family then [c[0]] else []) + Others(c[1..], family)
  }

  /** First entry with the least count. */
  function LeastFrequent(c: Counter): (string, nat)
    requires c != []
  {
    if |c| == 1 then c[0]
    else
      var rest := LeastFrequent(c[1..]);
      if c[0].1 <= rest.1 then c[0] else rest
  }

  /** `required_strategy_shift_family`. */
  function Replacement(current: string, history: seq<string>, threshold: int): Option<string> {
    var counts := FamilyCounts(history);
    if current !in Saturated(counts, threshold) then None
    else
      var alternatives := Others(counts, current);
      if alternatives == [] then None else Some(LeastFrequent(alternatives).0)
  }

  // ---------------------------------------------------------------- what the counter says

  /** Number of tasks of a family, counted directly. */
  function Occurrences(tasks: seq<string>, family: string): nat {
    if tasks == [] then 0
    else Occurrences(tasks[..|tasks| - 1], family) + if Classify(tasks[|tasks| - 1]) == family then 1 else 0
  }

  function Total(c: Counter): nat {
    if c == [] then 0 else c[0].1 + Total(c[1..])
  }

  function Lookup(c: Counter, family: string): nat {
    if c == [] then 0 else if c[0].0 == family then c[0].1 else Lookup(c[1..], family)
  }

  /** Every entry has a positive count, and no family has two entries. */
  predicate WellFormed(c: Counter) {
    c != [] ==> c[0].1 > 0 && Lookup(c[1..], c[0].0) == 0 && WellFormed(c[1..])
  }

  lemma {:induction false} BumpEffect(c: Counter, family: string)
    requires WellFormed(c)
    ensures WellFormed(Bump(c, family))
    ensures Total(Bump(c, family)) == Total(c) + 1
    ensures forall f :: Lookup(Bump(c, family), f) == Lookup(c, f) + if f == family then 1 else 0
  {
    var b := Bump(c, family);
    if c == [] {
      assert b[1..] == [];
    } else if c[0].0 == family {
      assert b[1..] == c[1..];
    } else {
      BumpEffect(c[1..], family);
      assert b[1..] == Bump(c[1..], family);
    }
  }

  /** The counter holds, for each family seen, exactly the number of tasks of that family. */
  lemma {:induction false} CountsAreExact(tasks: seq<string>)
    ensures WellFormed(CountFamilies(tasks))
    ensures Total(CountFamilies(tasks)) == |tasks|
    ensures forall f :: Lookup(CountFamilies(tasks), f) == Occurrences(tasks, f)
  {
    if tasks != [] {
      CountsAreExact(tasks[..|tasks| - 1]);
      BumpEffect(CountFamilies(tasks[..|tasks| - 1]), Classify(tasks[|tasks| - 1]));
    }
  }

  lemma {:induction false} SaturatedMeans(c: Counter, threshold: int, family: string)
    ensures family in Saturated(c, threshold) <==> exists i :: 0 <= i < |c| && c[i].0 == family && c[i].1 >= threshold
  {
    if c != [] {
      SaturatedMeans(c[1..], threshold, family);
      assert forall i :: 1 <= i < |c| ==> c[i] == c[1..][i - 1];
      if i :| 0 <= i < |c[1..]| && c[1..][i].0 == family && c[1..][i].1 >= threshold {
        assert c[i + 1] == c[1..][i];
      }
    }
  }

  /** The window's counts add up to the window. */
  lemma WindowTotal(tasks: seq<string>)
    ensures Total(FamilyCounts(tasks)) == if |tasks| < WINDOW then |tasks| else WINDOW
  {
    CountsAreExact(Recent(tasks));
  }

  // ---------------------------------------------------------------- pigeonhole

  /** A family fills the threshold: it occurs, and often enough. */
  predicate Fills(window: seq<string>, family: string, threshold: int) {
    Occurrences(window, family) > 0 && Occurrences(window, family) >= threshold
  }

  lemma SaturatedFills(tasks: seq<string>, threshold: int, family: string)
    ensures family in Saturated(FamilyCounts(tasks), threshold) <==> Fills(Recent(tasks), family, threshold)
  {
    hide Recent, Classify;
    var c := FamilyCounts(tasks);
    CountsAreExact(Recent(tasks));
    SaturatedMeans(c, threshold, family);
    if i :| 0 <= i < |c| && c[i].0 == family && c[i].1 >= threshold {
      LookupAt(c, i);
    }
    if Lookup(c, family) > 0 {
      LookupFinds(c, family);
    }
  }

  /** A shift is forced exactly when some family fills the threshold within the window, for every integer threshold. */
  lemma ShiftMeans(tasks: seq<string>, threshold: int)
    ensures ForcesShift(tasks, threshold) <==> exists family :: Fills(Recent(tasks), family, threshold)
  {
    hide Fills, Saturated;
    var s := Saturated(FamilyCounts(tasks), threshold);
    if s != [] {
      SaturatedFills(tasks, threshold, s[0]);
    }
    if family :| Fills(Recent(tasks), family, threshold) {
      SaturatedFills(tasks, threshold, family);
    }
  }

  lemma {:induction false} LookupAt(c: Counter, i: nat)
    requires WellFormed(c) && i < |c|
    ensures c[i].1 > 0 && Lookup(c, c[i].0) == c[i].1
  {
    if i > 0 {
      LookupAt(c[1..], i - 1);
    }
  }

  lemma {:induction false} LookupFinds(c: Counter, family: string)
    requires Lookup(c, family) > 0
    ensures exists i :: 0 <= i < |c| && c[i].0 == family && c[i].1 == Lookup(c, family)
  {
    if c[0].0 != family {
      LookupFinds(c[1..], family);
      var i :| 0 <= i < |c[1..]| && c[1..][i].0 == family && c[1..][i].1 == Lookup(c, family);
      assert c[i + 1] == c[1..][i];
    }
  }

  /** Without a differentiator a family may be selected exactly while it does not occur in the window, or less often
      than the threshold. */
  lemma CanSelectMeans(family: string, history: seq<string>, threshold: int)
    ensures CanSelect(family, history, "", threshold)
       <==> Occurrences(Recent(history), family) == 0 || Occurrences(Recent(history), family) < threshold
  {
    hide Recent, Saturated, Occurrences;
    SaturatedFills(history, threshold, family);
  }

  lemma {:induction false} OccurrencesSum(tasks: seq<string>)
    ensures Occurrences(tasks, "testing") + Occurrences(tasks, "editing") + Occurrences(tasks, "search")
          + Occurrences(tasks, "writing") + Occurrences(tasks, "other") == |tasks|
  {
    hide Mentions, Lower;
    if tasks != [] {
      OccurrencesSum(tasks[..|tasks| - 1]);
      FamiliesDiffer();
      var family := Classify(tasks[|tasks| - 1]);
      assert family in {"testing", "editing", "search", "writing", "other"};
    }
  }

  lemma FamiliesDiffer()
    ensures "testing" != "editing" && "testing" != "search" && "testing" != "writing" && "testing" != "other"
    ensures "editing" != "search" && "editing" != "writing" && "editing" != "other"
    ensures "search" != "writing" && "search" != "other" && "writing" != "other"
  {
    assert "testing"[0] == 't' && "editing"[0] == 'e' && "search"[0] == 's' && "writing"[0] == 'w' && "other"[0] == 'o';
  }

  /** A window longer than five families times the tolerated repetitions forces a strategy shift, except exactly when
      it is empty (which takes a threshold below 1). */
  lemma PigeonholeForcesShift(tasks: seq<string>, threshold: int)
    requires (if |tasks| < WINDOW then |tasks| else WINDOW) > 5 * (threshold - 1)
    ensures ForcesShift(tasks, threshold) <==> threshold >= 1 || tasks != []
  {
    hide ForcesShift, Occurrences;
    var window := Recent(tasks);
    ShiftMeans(tasks, threshold);
    OccurrencesSum(window);
    if window != [] {
      assert exists family :: Fills(window, family, threshold) by {
        if !(Fills(window, "testing", threshold) || Fills(window, "editing", threshold)
             || Fills(window, "search", threshold) || Fills(window, "writing", threshold)) {
          assert Fills(window, "other", threshold);
        }
      }
    } else {
      NothingOccurs();
    }
  }

  lemma NothingOccurs()
    ensures forall family :: Occurrences([], family) == 0
  {
  }

  // ---------------------------------------------------------------- the replacement

  lemma {:induction false} OthersAre(c: Counter, family: string, e: (string, nat))
    ensures e in Others(c, family) <==> e in c && e.0 != family
  {
    if c != [] {
      OthersAre(c[1..], family, e);
      assert c == [c[0]] + c[1..];
    }
  }

  lemma {:induction false} LeastIsLeast(c: Counter)
    requires c != []
    ensures LeastFrequent(c) in c
    ensures forall e :: e in c ==> LeastFrequent(c).1 <= e.1
  {
    if |c| > 1 {
      LeastIsLeast(c[1..]);
      assert c == [c[0]] + c[1..];
    }
  }

  /** Position of the first task of a family; the length when there is none. */
  function FirstSeen(tasks: seq<string>, family: string): (n: nat)
    ensures n <= |tasks|
    ensures n < |tasks| <==> Occurrences(tasks, family) > 0
  {
    if tasks == [] then 0
    else
      var init := tasks[..|tasks| - 1];
      if FirstSeen(init, family) < |init| then FirstSeen(init, family)
      else if Classify(tasks[|tasks| - 1]) == family then |init|
      else |tasks|
  }

  /** The families of the counter come in the order in which they were first seen. */
  ghost predicate InOrder(c: Counter, tasks: seq<string>) {
    c != [] ==>
      && (forall e :: e in c[1..] ==> FirstSeen(tasks, c[0].0) < FirstSeen(tasks, e.0))
      && InOrder(c[1..], tasks)
  }

  lemma {:induction false} BumpMembers(c: Counter, family: string, e: (string, nat))
    requires e in Bump(c, family)
    ensures e.0 == family || e in c
  {
    if c != [] && c[0].0 != family {
      if e != c[0] {
        BumpMembers(c[1..], family, e);
      }
    } else if c != [] && e != Bump(c, family)[0] {
      assert e in c[1..];
    }
  }

  lemma {:induction false} StillInOrder(c: Counter, tasks: seq<string>, more: seq<string>)
    requires more != [] && more[..|more| - 1] == tasks && InOrder(c, tasks)
    requires forall e :: e in c ==> FirstSeen(tasks, e.0) < |tasks|
    ensures InOrder(c, more)
  {
    hide Classify;
    if c != [] {
      StillInOrder(c[1..], tasks, more);
    }
  }

  /** Counting one more task keeps the order: its family has its place already or comes last. */
  lemma {:induction false} BumpInOrder(c: Counter, tasks: seq<string>, more: seq<string>, family: string)
    requires more != [] && more[..|more| - 1] == tasks && family == Classify(more[|more| - 1])
    requires InOrder(c, tasks) && forall e :: e in c ==> FirstSeen(tasks, e.0) < |tasks|
    requires FirstSeen(tasks, family) == |tasks| || exists e :: e in c && e.0 == family
    ensures InOrder(Bump(c, family), more)
  {
    hide Classify;
    var b := Bump(c, family);
    if c == [] {
      assert b[1..] == [];
    } else if c[0].0 == family {
      assert b[1..] == c[1..];
      StillInOrder(c, tasks, more);
    } else {
      assert b[1..] == Bump(c[1..], family);
      assert c == [c[0]] + c[1..];
      BumpInOrder(c[1..], tasks, more, family);
      forall e | e in b[1..]
        ensures FirstSeen(more, c[0].0) < FirstSeen(more, e.0)
      {
        BumpMembers(c[1..], family, e);
      }
    }
  }

  lemma {:induction false} CountsInOrder(tasks: seq<string>)
    ensures InOrder(CountFamilies(tasks), tasks)
    ensures forall e :: e in CountFamilies(tasks) ==> FirstSeen(tasks, e.0) < |tasks|
  {
    hide InOrder, Classify;
    CountsAreExact(tasks);
    var c := CountFamilies(tasks);
    forall e | e in c
      ensures FirstSeen(tasks, e.0) < |tasks|
    {
      var i :| 0 <= i < |c| && c[i] == e;
      LookupAt(c, i);
    }
    if tasks == [] {
      NothingInOrder();
    } else {
      var init, family := tasks[..|tasks| - 1], Classify(tasks[|tasks| - 1]);
      var before := CountFamilies(init);
      CountsInOrder(init);
      CountsAreExact(init);
      if Lookup(before, family) > 0 {
        LookupFinds(before, family);
        var k :| 0 <= k < |before| && before[k].0 == family && before[k].1 == Lookup(before, family);
        assert before[k] in before;
      }
      BumpInOrder(before, init, tasks, family);
    }
  }

  lemma NothingInOrder()
    ensures InOrder([], [])
  {
  }

  lemma {:induction false} OthersInOrder(c: Counter, family: string, tasks: seq<string>)
    requires InOrder(c, tasks)
    ensures InOrder(Others(c, family), tasks)
  {
    hide FirstSeen;
    if c != [] {
      var rest := Others(c[1..], family);
      OthersInOrder(c[1..], family, tasks);
      forall e | e in rest
        ensures e in c[1..]
      {
        OthersAre(c[1..], family, e);
      }
      if c[0].0 != family {
        assert Others(c, family)[1..] == rest;
      } else {
        assert Others(c, family) == rest;
      }
    }
  }

  lemma {:induction false} LeastIsEarliest(c: Counter, tasks: seq<string>)
    requires c != [] && InOrder(c, tasks)
    ensures forall e :: e in c && e.1 == LeastFrequent(c).1 ==>
              FirstSeen(tasks, LeastFrequent(c).0) <= FirstSeen(tasks, e.0)
  {
    hide FirstSeen;
    LeastIsLeast(c);
    if |c| > 1 {
      LeastIsLeast(c[1..]);
      LeastIsEarliest(c[1..], tasks);
      assert c == [c[0]] + c[1..];
    }
  }

  /** `r` occurs in the window, beside the current family, least often of all others, and first of those. */
  ghost predicate IsReplacement(window: seq<string>, current: string, r: string) {
    && r != current && Occurrences(window, r) > 0
    && forall f :: f != current && Occurrences(window, f) > 0 ==>
         && Occurrences(window, r) <= Occurrences(window, f)
         && (Occurrences(window, r) == Occurrences(window, f) ==> FirstSeen(window, r) <= FirstSeen(window, f))
  }

  lemma ReplacementFound(current: string, history: seq<string>)
    requires Others(FamilyCounts(history), current) != []
    ensures IsReplacement(Recent(history), current, LeastFrequent(Others(FamilyCounts(history), current)).0)
  {
    hide Recent, FirstSeen, Occurrences, InOrder;
    var c, window := FamilyCounts(history), Recent(history);
    var others := Others(c, current);
    var least := LeastFrequent(others);
    CountsAreExact(window);
    CountsInOrder(window);
    OthersInOrder(c, current, window);
    LeastIsLeast(others);
    LeastIsEarliest(others, window);
    OthersAre(c, current, least);
    var i :| 0 <= i < |c| && c[i] == least;
    LookupAt(c, i);
    forall f | f != current && Occurrences(window, f) > 0
      ensures least.1 <= Occurrences(window, f)
      ensures least.1 == Occurrences(window, f) ==> FirstSeen(window, least.0) <= FirstSeen(window, f)
    {
      LookupFinds(c, f);
      var j :| 0 <= j < |c| && c[j].0 == f && c[j].1 == Lookup(c, f);
      OthersAre(c, current, c[j]);
    }
  }

  /** Some family other than the current one occurs. */
  ghost predicate HasOther(window: seq<string>, current: string) {
    exists f :: f != current && Occurrences(window, f) > 0
  }

  lemma OthersMeansOther(current: string, history: seq<string>)
    ensures Others(FamilyCounts(history), current) != [] <==> HasOther(Recent(history), current)
  {
    hide Recent, Occurrences;
    var c, window := FamilyCounts(history), Recent(history);
    var others := Others(c, current);
    CountsAreExact(window);
    if others != [] {
      OthersAre(c, current, others[0]);
      var i :| 0 <= i < |c| && c[i] == others[0];
      LookupAt(c, i);
    }
    if f :| f != current && Occurrences(window, f) > 0 {
      LookupFinds(c, f);
      var j :| 0 <= j < |c| && c[j].0 == f && c[j].1 == Lookup(c, f);
      OthersAre(c, current, c[j]);
    }
  }

  /** A replacement is suggested exactly when the current family fills the threshold and another family occurs in the
      window. It is the least frequent of the others, the first seen on a tie; so it fills the threshold only when
      every other family seen does. */
  lemma ReplacementIsLeast(current: string, history: seq<string>, threshold: int)
    ensures var replacement, window := Replacement(current, history, threshold), Recent(history);
            && (replacement.Some? <==> Fills(window, current, threshold) && HasOther(window, current))
            && (replacement.Some? ==> IsReplacement(window, current, replacement.value))
            && (replacement.Some? && Occurrences(window, replacement.value) >= threshold ==>
                  forall f :: f != current && Occurrences(window, f) > 0 ==> Occurrences(window, f) >= threshold)
  {
    hide Recent, Occurrences, FirstSeen, Saturated, Others, LeastFrequent, Fills, HasOther;
    SaturatedFills(history, threshold, current);
    OthersMeansOther(current, history);
    if Others(FamilyCounts(history), current) != [] {
      ReplacementFound(current, history);
    }
  }

  // ---------------------------------------------------------------- the window, on the tasks themselves

  /** Whatever came before the last twenty tasks is forgotten: it changes neither the counts nor any decision. */
  lemma OnlyLastTwenty(a: seq<string>, b: seq<string>, family: string, differentiator: string, threshold: int)
    requires |b| >= 20
    ensures FamilyCounts(a + b) == FamilyCounts(b)
    ensures CanSelect(family, a + b, differentiator, threshold) == CanSelect(family, b, differentiator, threshold)
    ensures ForcesShift(a + b, threshold) == ForcesShift(b, threshold)
    ensures Replacement(family, a + b, threshold) == Replacement(family, b, threshold)
  {
    hide CountFamilies, Saturated, Others, LeastFrequent;
    assert (a + b)[|a + b| - 20..] == b[|b| - 20..];
  }

  /** Up to twenty tasks, each of them counts. */
  lemma UpToTwentyCount(b: seq<string>)
    requires |b| <= 20
    ensures Total(FamilyCounts(b)) == |b|
    ensures forall family :: Lookup(FamilyCounts(b), family) == Occurrences(b, family)
  {
    hide Occurrences, Lookup, Total;
    CountsAreExact(b);
  }

  /** So the decisions after any history that ends with the twenty tasks `b`, or that is `b` when it is shorter, rest on
      what occurs in `b`. */
  lemma DecisionsOfWindow(a: seq<string>, b: seq<string>, family: string, differentiator: string, threshold: int)
    requires |b| <= 20 && (a == [] || |b| == 20)
    ensures CanSelect(family, a + b, differentiator, threshold) <==>
            differentiator != "" || Occurrences(b, family) == 0 || Occurrences(b, family) < threshold
    ensures ForcesShift(a + b, threshold) <==>
            exists f :: Fills(b, f, threshold)
    ensures Replacement(family, a + b, threshold).Some? <==>
            Fills(b, family, threshold) && HasOther(b, family)
    ensures Replacement(family, a + b, threshold).Some? ==>
            var r := Replacement(family, a + b, threshold).value;
            && r != family && Occurrences(b, r) > 0
            && forall f :: f != family && Occurrences(b, f) > 0 ==> Occurrences(b, r) <= Occurrences(b, f)
  {
    hide Occurrences, FirstSeen, CanSelect, ForcesShift, Replacement, HasOther, Fills;
    if a == [] {
      assert a + b == b;
    } else {
      OnlyLastTwenty(a, b, family, differentiator, threshold);
    }
    Differentiated(family, b, differentiator, threshold);
    assert Recent(b) == b;
    CanSelectMeans(family, b, threshold);
    ShiftMeans(b, threshold);
    ReplacementIsLeast(family, b, threshold);
  }

  lemma Differentiated(family: string, history: seq<string>, differentiator: string, threshold: int)
    ensures CanSelect(family, history, differentiator, threshold) <==>
            differentiator != "" || CanSelect(family, history, "", threshold)
  {
  }

  // ---------------------------------------------------------------- which texts belong to which family

  lemma MentionsOf(s: string, a: string, b: string, c: string)
    ensures Mentions(s, [a, b, c]) <==> Contains(s, a) || Contains(s, b) || Contains(s, c)
  {
    hide Contains;
    var words := [a, b, c];
    assert words[0] == a && words[1] == b && words[2] == c;
  }

  lemma MentionsOfFour(s: string, a: string, b: string, c: string, d: string)
    ensures Mentions(s, [a, b, c, d]) <==> Contains(s, a) || Contains(s, b) || Contains(s, c) || Contains(s, d)
  {
    hide Contains;
    var words := [a, b, c, d];
    assert words[0] == a && words[1] == b && words[2] == c && words[3] == d;
  }

  lemma TestInside(s: string, front: string, back: string)
    requires Contains(s, front + "test" + back)
    ensures Contains(s, "test")
  {
    hide Contains;
    ContainsItself("test");
    ContainsInContext(front, "test", back, "test");
    ContainsTransitive(s, front + "test" + back, "test");
  }

  /** The family of a text in the words of the source; `pytest` and `unittest` add nothing to `test`. */
  lemma ClassifyMeans(text: string)
    ensures var s, family := Lower(text), Classify(text);
            var testing := Contains(s, "test");
            var editing := !testing
              && (Contains(s, "fix") || Contains(s, "edit") || Contains(s, "modify") || Contains(s, "refactor"));
            var search := !testing && !editing && (Contains(s, "search") || Contains(s, "find") || Contains(s, "grep"));
            var writing := !testing && !editing && !search
              && (Contains(s, "write") || Contains(s, "create") || Contains(s, "generate"));
            && (family == "testing" <==> testing) && (family == "editing" <==> editing)
            && (family == "search" <==> search) && (family == "writing" <==> writing)
            && (family == "other" <==> !testing && !editing && !search && !writing)
  {
    hide Contains, Lower, Mentions;
    var s := Lower(text);
    MentionsOf(s, "test", "pytest", "unittest");
    assert "pytest" == "py" + "test" + "" && "unittest" == "unit" + "test" + "";
    if Contains(s, "pytest") {
      TestInside(s, "py", "");
    }
    if Contains(s, "unittest") {
      TestInside(s, "unit", "");
    }
    MentionsOfFour(s, "fix", "edit", "modify", "refactor");
    MentionsOf(s, "search", "find", "grep");
    MentionsOf(s, "write", "create", "generate");
    FamiliesDiffer();
  }
}
