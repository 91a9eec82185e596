/** What every run of edits on one file keeps: distinct routes, and every route below the app initialisation. Both
    hang on edits behind a last line that the file does not terminate, and the conditions are exact. */
module EditRuns {
  import opened Text
  import opened Insertion
  import opened Editor
  import opened EditProofs
  import EditRepeat
  import opened Indentation
  import opened IndentRoutes

  // ---------------------------------------------------------------- runs

  function Run(c: Checks, path: string, text: string, es: seq<Edit>): string
    decreases |es|
  {
    if es == [] then text else Run(c, path, Step(c, path, text, es[0]), es[1..])
  }

  /** A committed edit puts `middle` in place of the lines `from..to`; appended text counts as put in at the end. */
  datatype Part = Part(from: nat, to: nat, middle: string)

  function PartOf(text: string, e: Edit): Option<Part> {
    var lines := Lines(text);
    match e
    case After(anchor, content) =>
      (match AfterIndex(lines, anchor)
       case None => None
       case Some(idx) => Some(Part(idx + 1, idx + 1, AfterInsertion(text, idx, content))))
    case Before(anchor, content) =>
      (match FirstIndex(lines, anchor)
       case None => None
       case Some(idx) => Some(Part(idx, idx, EnsureNL(content))))
    case Replace(start, end, content) =>
      if 1 <= start <= end <= |lines| then Some(Part(start - 1, end, EnsureNL(content))) else None
    case Append(content) => Some(Part(|lines|, |lines|, content))
  }

  /** The edit inserts behind a line that the file does not terminate, and so continues that line. */
  predicate Glues(text: string, e: Edit) {
    && e.After?
    && AfterIndex(Lines(text), e.anchor).Some?
    && !FullLine(Lines(text)[AfterIndex(Lines(text), e.anchor).value])
  }

  /** What a committed edit does to the lines of the file, and the guards it has passed. */
  ghost predicate Spliced(text: string, next: string, e: Edit, p: Part) {
    var lines := Lines(text);
    && PartOf(text, e) == Some(p)
    && p.from <= p.to <= |lines|
    && Lines(next) == lines[..p.from] + Lines(p.middle) + lines[p.to..]
    && EndsNL(p.middle)
    && FullLines(lines[..p.from])
    && !RouteExists(lines[..p.from] + lines[p.to..], p.middle)
    && (!e.Replace? ==> p.from == p.to && !RouteBeforeInit(lines, p.from, p.middle))
  }

  lemma InsertGuards(c: Checks, path: string, text: string, idx: nat, insertion: string, after: bool)
    requires idx < |Lines(text)| && InsertVerdict(c, path, text, idx, insertion, after).Commit?
    ensures !RouteExists(Lines(text), insertion)
    ensures !RouteBeforeInit(Lines(text), if after then idx + 1 else idx, insertion)
  {
    hide RouteExists, RouteBeforeInit, NearAnchor, Splice, Lines;
  }

  lemma ReplaceGuard(c: Checks, path: string, text: string, start: int, end: int, content: string)
    requires ReplaceVerdict(c, path, text, start, end, content).Commit?
    ensures 1 <= start <= end <= |Lines(text)|
    ensures !RouteExists(Lines(text)[..start - 1] + Lines(text)[end..], EnsureNL(content))
  {
    hide RouteExists, Splice, Lines, EnsureNL;
  }

  function FirstOf(ls: seq<string>): string {
    if ls == [] then "" else ls[0]
  }

  function Rest<T>(s: seq<T>): seq<T> {
    if s == [] then [] else s[1..]
  }

  /** The lines that an edit behind an open line leaves alone, the line it leaves in place of that line, and the
      lines it adds. */
  function LinesAhead(text: string): seq<string>
    requires Lines(text) != []
  {
    Lines(text)[..|Lines(text)| - 1]
  }

  function ContinuedLine(text: string, middle: string): string
    requires Lines(text) != []
  {
    Lines(text)[|Lines(text)| - 1] + FirstOf(Lines(middle))
  }

  /** What a committed edit behind an open line does: it continues that line, having passed the same guards. */
  ghost predicate Continued(text: string, next: string, e: Edit, p: Part) {
    var lines := Lines(text);
    && PartOf(text, e) == Some(p)
    && lines != [] && p.from == |lines|
    && Lines(next) == LinesAhead(text) + [ContinuedLine(text, p.middle)] + Rest(Lines(p.middle))
    && EndsNL(p.middle) && Lines(p.middle) != []
    && !RouteExists(lines, p.middle)
    && !RouteBeforeInit(lines, p.from, p.middle)
  }

  /** The file with its last line terminated. */
  function Closed(text: string): (r: string)
    ensures Terminated(r)
  {
    text + if Terminated(text) then "" else "\n"
  }

  /** What appending does; it passes no route guard. */
  ghost predicate Appended(text: string, next: string, e: Edit, p: Part) {
    && e.Append? && PartOf(text, e) == Some(p) && p.middle == e.content
    && next == Closed(text) + p.middle
    && Lines(next) == Lines(Closed(text)) + Lines(p.middle)
  }

  /** A committed edit has one of the three shapes. */
  ghost predicate Shaped(text: string, next: string, e: Edit, p: Part) {
    if e.Append? then Appended(text, next, e, p)
    else if Glues(text, e) then Continued(text, next, e, p)
    else Spliced(text, next, e, p)
  }

  lemma AppendShape(c: Checks, path: string, text: string, e: Edit) returns (p: Part)
    requires e.Append? && EditVerdict(c, path, text, e).Commit?
    ensures Appended(text, EditVerdict(c, path, text, e).text, e, p)
  {
    hide Lines, CompletePythonModule;
    p := Part(|Lines(text)|, |Lines(text)|, e.content);
    LinesAppend(Closed(text), e.content);
  }

  lemma InsertShape(text: string, next: string, e: Edit, point: nat, middle: string)
    requires point <= |Lines(text)| && PartOf(text, e) == Some(Part(point, point, middle))
    requires Lines(next) == Lines(text)[..point] + Lines(middle) + Lines(text)[point..]
    requires EndsNL(middle) && FullLines(Lines(text)[..point])
    requires !RouteExists(Lines(text), middle) && !RouteBeforeInit(Lines(text), point, middle)
    ensures Spliced(text, next, e, Part(point, point, middle))
  {
    hide PartOf, Lines, RouteExists, RouteBeforeInit, FullLine, EndsNL;
    assert Lines(text)[..point] + Lines(text)[point..] == Lines(text);
  }

  lemma AfterShape(c: Checks, path: string, text: string, e: Edit) returns (p: Part)
    requires e.After? && EditVerdict(c, path, text, e).Commit?
    ensures Shaped(text, EditVerdict(c, path, text, e).text, e, p)
  {
    hide AfterVerdict, InsertVerdict, RouteExists, RouteBeforeInit, Splice, Lines, AfterIndex, AfterInsertion, FullLine,
         AfterBlockHeader, AfterDecoratorLine, EndsNL;
    var lines := Lines(text);
    JoinLines(text);
    AfterCommitted(c, path, text, e.anchor, e.content);
    InsertAfterFrame(c, path, text, e.anchor, e.content);
    var idx := AfterIndex(lines, e.anchor).value;
    p := Part(idx + 1, idx + 1, AfterInsertion(text, idx, e.content));
    InsertGuards(c, path, text, idx, p.middle, true);
    OpenOrFull(lines, idx);
    if !Glues(text, e) {
      InsertShape(text, AfterVerdict(c, path, text, e.anchor, e.content).text, e, idx + 1, p.middle);
    }
  }

  lemma BeforeShape(c: Checks, path: string, text: string, e: Edit) returns (p: Part)
    requires e.Before? && EditVerdict(c, path, text, e).Commit?
    ensures Shaped(text, EditVerdict(c, path, text, e).text, e, p)
  {
    hide BeforeVerdict, InsertVerdict, RouteExists, RouteBeforeInit, Splice, Lines, FirstIndex, FullLine, EnsureNL, EndsNL;
    var lines := Lines(text);
    JoinLines(text);
    BeforeCommitted(c, path, text, e.anchor, e.content);
    InsertBeforeFrame(c, path, text, e.anchor, e.content);
    var idx := FirstIndex(lines, e.anchor).value;
    p := Part(idx, idx, EnsureNL(e.content));
    InsertGuards(c, path, text, idx, p.middle, false);
    OpenOrFull(lines, idx);
    InsertShape(text, BeforeVerdict(c, path, text, e.anchor, e.content).text, e, idx, p.middle);
  }

  lemma ReplaceShape(c: Checks, path: string, text: string, e: Edit) returns (p: Part)
    requires e.Replace? && EditVerdict(c, path, text, e).Commit?
    ensures Shaped(text, EditVerdict(c, path, text, e).text, e, p)
  {
    hide ReplaceVerdict, RouteExists, RouteBeforeInit, Splice, Lines, FullLine, EnsureNL, EndsNL;
    JoinLines(text);
    ReplaceRangeFrame(c, path, text, e.start, e.end, e.content);
    ReplaceGuard(c, path, text, e.start, e.end, e.content);
    p := Part(e.start - 1, e.end, EnsureNL(e.content));
    OpenOrFull(Lines(text), e.start - 1);
  }

  /** What any committed edit does to the lines of the file, and the guards it has passed. */
  lemma StepShape(c: Checks, path: string, text: string, e: Edit) returns (p: Part)
    requires EditVerdict(c, path, text, e).Commit?
    ensures Shaped(text, EditVerdict(c, path, text, e).text, e, p)
  {
    hide EditVerdict, Spliced, Continued, Appended, Glues;
    match e {
      case After(_, _) => p := AfterShape(c, path, text, e);
      case Before(_, _) => p := BeforeShape(c, path, text, e);
      case Replace(_, _, _) => p := ReplaceShape(c, path, text, e);
      case Append(_) => p := AppendShape(c, path, text, e);
    }
  }

  /** No committed step of the run inserts behind an open line. */
  predicate NeverGlues(c: Checks, path: string, text: string, es: seq<Edit>)
    decreases |es|
  {
    es != [] ==>
      && (EditVerdict(c, path, text, es[0]).Commit? ==> !Glues(text, es[0]))
      && NeverGlues(c, path, Step(c, path, text, es[0]), es[1..])
  }

  // ---------------------------------------------------------------- terminated files stay terminated

  lemma TerminatedNeverGlues(text: string, e: Edit)
    requires Terminated(text)
    ensures !Glues(text, e)
  {
    hide AfterIndex, Lines;
    FullLinesOf(text);
  }

  /** What is appended, if anything, ends with a newline or is empty. */
  predicate AppendsLines(e: Edit) {
    e.Append? ==> Terminated(e.content)
  }

  /** A committed edit leaves a terminated file when it found one, and when it continued an open line. */
  lemma StepKeepsTerminated(c: Checks, path: string, text: string, e: Edit)
    requires Terminated(text) || (EditVerdict(c, path, text, e).Commit? && Glues(text, e))
    requires AppendsLines(e)
    ensures Terminated(Step(c, path, text, e))
  {
    hide EditVerdict, Glues, Spliced, Continued, Appended, Terminated;
    if EditVerdict(c, path, text, e).Commit? {
      var p := StepShape(c, path, text, e);
      TerminatedUnlessGlued(text, e);
      if e.Append? {
        AppendedTerminated(text, EditVerdict(c, path, text, e).text, e, p);
      } else if Glues(text, e) {
        ContinuedTerminated(text, EditVerdict(c, path, text, e).text, e, p);
      } else {
        SplicedTerminated(text, EditVerdict(c, path, text, e).text, e, p);
      }
    }
  }

  lemma AppendedTerminated(text: string, next: string, e: Edit, p: Part)
    requires Appended(text, next, e, p) && AppendsLines(e)
    ensures Terminated(next)
  {
    hide Lines, PartOf, Closed;
    if p.middle != "" {
      assert next[|next| - 1] == p.middle[|p.middle| - 1];
    } else {
      assert next == Closed(text);
    }
  }

  lemma SplicedTerminated(text: string, next: string, e: Edit, p: Part)
    requires Spliced(text, next, e, p) && Terminated(text)
    ensures Terminated(next)
  {
    hide PartOf, Lines, RouteExists, RouteBeforeInit, FullLine, Terminated;
    FullLinesOf(text);
    FullLinesOf(next);
    FullLinesOf(p.middle);
    EndsNLTerminated(p.middle);
  }

  lemma ContinuedTerminated(text: string, next: string, e: Edit, p: Part)
    requires Continued(text, next, e, p) && Glues(text, e)
    ensures Terminated(next)
  {
    hide PartOf, Lines, RouteExists, RouteBeforeInit, FullLine, Terminated, AfterIndex, LinesAhead, ContinuedLine;
    GluesOpen(text, e);
    FullLinesOf(next);
    FullLinesOf(p.middle);
    EndsNLTerminated(p.middle);
    ContinuedIsFull(text, p.middle);
  }

  lemma GluesOpen(text: string, e: Edit)
    requires Glues(text, e)
    ensures Lines(text) != [] && !FullLine(Lines(text)[|Lines(text)| - 1])
  {
    hide Lines, AfterIndex;
    JoinLines(text);
  }

  lemma TerminatedUnlessGlued(text: string, e: Edit)
    ensures Terminated(text) ==> !Glues(text, e)
  {
    if Terminated(text) {
      TerminatedNeverGlues(text, e);
    }
  }

  lemma ContinuedIsFull(text: string, middle: string)
    requires Lines(text) != [] && Lines(middle) != [] && FullLines(Lines(middle))
    ensures FullLines(LinesAhead(text))
    ensures !FullLine(Lines(text)[|Lines(text)| - 1]) ==> FullLine(ContinuedLine(text, middle))
    ensures FullLines(Rest(Lines(middle)))
  {
    hide Lines, FullLine;
    JoinLines(text);
    var l := Lines(text)[|Lines(text)| - 1];
    if !FullLine(l) {
      OpenThenFull(l, Lines(middle)[0]);
    }
  }

  lemma OpenThenFull(open: string, full: string)
    requires OpenLine(open) && FullLine(full)
    ensures FullLine(open + full)
  {
    var l := open + full;
    assert l[|l| - 1] == full[|full| - 1];
    assert forall i :: |open| <= i < |l| - 1 ==> l[i] == full[i - |open|];
  }

  lemma EndsNLTerminated(s: string)
    requires EndsNL(s)
    ensures Terminated(s)
  {
  }

  /** In a file that ends with a newline (or is empty) no edit ever continues a line, as long as whole lines are
      appended. */
  lemma {:induction false} TerminatedRun(c: Checks, path: string, text: string, es: seq<Edit>)
    requires Terminated(text) && forall i :: 0 <= i < |es| ==> AppendsLines(es[i])
    ensures NeverGlues(c, path, text, es)
    ensures Terminated(Run(c, path, text, es))
    decreases |es|
  {
    hide EditVerdict, Terminated, Glues, PartOf;
    if es != [] {
      TerminatedNeverGlues(text, es[0]);
      StepKeepsTerminated(c, path, text, es[0]);
      TerminatedRun(c, path, Step(c, path, text, es[0]), es[1..]);
    }
  }

  /** A run that appends whole lines continues a line at most once. */
  lemma GluesOnce(c: Checks, path: string, text: string, e: Edit, es: seq<Edit>)
    requires EditVerdict(c, path, text, e).Commit? && Glues(text, e)
    requires forall i :: 0 <= i < |es| ==> AppendsLines(es[i])
    ensures NeverGlues(c, path, Step(c, path, text, e), es)
  {
    hide EditVerdict, Terminated, NeverGlues, Lines, AfterIndex;
    StepKeepsTerminated(c, path, text, e);
    TerminatedRun(c, path, Step(c, path, text, e), es);
  }

  // ---------------------------------------------------------------- routes stay distinct

  predicate Disjoint<T(==)>(x: seq<T>, y: seq<T>) {
    forall e :: e in x ==> e !in y
  }

  lemma DistinctParts<T>(x: seq<T>, y: seq<T>)
    requires Distinct(x + y)
    ensures Distinct(x) && Distinct(y) && Disjoint(x, y)
  {
    var s := x + y;
    forall i, j | 0 <= i < j < |x|
      ensures x[i] != x[j]
    {
      assert s[i] != s[j];
    }
    forall i, j | 0 <= i < j < |y|
      ensures y[i] != y[j]
    {
      assert s[|x| + i] != s[|x| + j];
    }
    forall i, j | 0 <= i < |x| && 0 <= j < |y|
      ensures x[i] != y[j]
    {
      assert s[i] != s[|x| + j];
    }
  }

  lemma DistinctJoin<T>(x: seq<T>, y: seq<T>)
    requires Distinct(x) && Distinct(y) && Disjoint(x, y)
    ensures Distinct(x + y)
  {
    var s := x + y;
    forall i, j | 0 <= i < j < |s|
      ensures s[i] != s[j]
    {
      if i < |x| <= j {
        assert s[i] in x && s[j] == y[j - |x|];
      }
    }
  }

  lemma DistinctSplice<T>(a: seq<T>, old': seq<T>, b: seq<T>, m: seq<T>)
    requires Distinct(a + old' + b)
    requires forall x :: x in m ==> x !in a + b
    ensures Distinct(a + m + b) <==> Distinct(m)
  {
    hide Distinct;
    DistinctParts(a + old', b);
    DistinctParts(a, old');
    if Distinct(m) {
      DistinctJoin(a, m);
      DistinctJoin(a + m, b);
    }
    if Distinct(a + m + b) {
      DistinctParts(a + m, b);
      DistinctParts(a, m);
    }
  }

  lemma DistinctContinued<T>(a: seq<T>, l: seq<T>, g: seq<T>, b: seq<T>)
    requires Distinct(a + l)
    requires forall x :: x in b ==> x !in a
    ensures Distinct(a + g + b) <==> Distinct(g + b) && Disjoint(g, a)
  {
    hide Distinct;
    DistinctParts(a, l);
    assert a + g + b == a + (g + b);
    if Distinct(a + g + b) {
      DistinctParts(a, g + b);
    }
    if Distinct(g + b) && Disjoint(g, a) {
      DistinctJoin(a, g + b);
    }
  }

  /** What the caller has to check of an edit: the text put in declares no route twice. Behind an open line the
      line that results counts in place of its two halves, and none of its routes may be declared further up. Appended
      text passes no guard, so none of its routes may be declared in the file. */
  predicate AddsDistinctRoutes(text: string, e: Edit, middle: string) {
    if e.Append? then Distinct(RoutesOf(middle)) && Disjoint(RoutesOf(text), RoutesOf(middle))
    else if Glues(text, e) then
      && Lines(text) != []
      && var continued := RoutesFrom(ContinuedLine(text, middle), 0);
      && Distinct(continued + RouteList(Rest(Lines(middle))))
      && Disjoint(continued, RouteList(LinesAhead(text)))
    else Distinct(RoutesOf(middle))
  }

  lemma SplicedRoutes(text: string, next: string, e: Edit, p: Part)
    requires Spliced(text, next, e, p) && Distinct(RoutesOf(text)) && !e.Append?
    ensures Distinct(RoutesOf(next)) <==> Distinct(RoutesOf(p.middle))
  {
    hide Glues, PartOf, Lines, RouteBeforeInit, RouteList, Distinct;
    var lines := Lines(text);
    var pre, old', post := lines[..p.from], lines[p.from..p.to], lines[p.to..];
    assert lines == pre + old' + post;
    RouteListAppend(pre + old', post);
    RouteListAppend(pre, old');
    RouteListAppend(pre, post);
    RouteListAppend(pre + Lines(p.middle), post);
    RouteListAppend(pre, Lines(p.middle));
    DistinctSplice(RouteList(pre), RouteList(old'), RouteList(post), RoutesOf(p.middle));
  }

  lemma ContinuedRoutes(text: string, next: string, e: Edit, p: Part)
    requires Continued(text, next, e, p) && Distinct(RoutesOf(text)) && Glues(text, e) && !e.Append?
    ensures Distinct(RoutesOf(next)) <==> AddsDistinctRoutes(text, e, p.middle)
  {
    hide Glues, PartOf, Lines, RouteBeforeInit, RouteList, Distinct, ContinuedLine;
    var lines, inserted := Lines(text), Lines(p.middle);
    var ahead, last, line := LinesAhead(text), lines[|lines| - 1], ContinuedLine(text, p.middle);
    assert lines == ahead + [last] && inserted == [inserted[0]] + inserted[1..];
    RouteListAppend(ahead, [last]);
    RouteListAppend([inserted[0]], inserted[1..]);
    RouteListAppend(ahead + [line], inserted[1..]);
    RouteListAppend(ahead, [line]);
    OneLineRoutes(line);
    forall r | r in RouteList(inserted[1..])
      ensures r !in RouteList(ahead)
    {
      assert r in RoutesOf(p.middle);
      assert r !in RouteList(lines);
    }
    DistinctContinued(RouteList(ahead), RouteList([last]), RouteList([line]), RouteList(inserted[1..]));
  }

  lemma ClosedRoutes(text: string)
    ensures RoutesOf(Closed(text)) == RoutesOf(text)
  {
    hide Lines, RouteList, RoutesFrom;
    if Terminated(text) {
      assert Closed(text) == text;
    } else {
      ClosedLines(text);
      var ahead, last := LinesAhead(text), Lines(text)[|Lines(text)| - 1];
      assert Lines(text) == ahead + [last];
      RouteListAppend(ahead, [last]);
      RouteListAppend(ahead, [last + "\n"]);
      OneLineRoutes(last);
      OneLineRoutes(last + "\n");
      RoutesBeforeNewline(last, 0);
    }
  }

  lemma ClosedLines(text: string)
    requires !Terminated(text)
    ensures Lines(text) != []
    ensures Lines(Closed(text)) == LinesAhead(text) + [Lines(text)[|Lines(text)| - 1] + "\n"]
  {
    hide Lines, FullLine, OpenLine;
    var lines := Lines(text);
    JoinLines(text);
    FullLinesOf(text);
    var k := |lines| - 1;
    OpenOrFull(lines, k);
    JoinEnds(lines);
    GluedSplice(lines, "\n");
    SpliceText(lines, |lines|, |lines|, "\n");
    assert lines[..|lines|] == lines && lines[|lines|..] == [];
    assert Splice(lines, |lines|, |lines|, "\n") == Closed(text) + "";
    assert Closed(text) + "" == Closed(text);
    NewlineIsLine();
  }

  lemma NewlineIsLine()
    ensures Lines("\n") == ["\n"]
  {
    assert "\n" == "\n" + "";
    LinesCons("\n", "");
  }

  lemma DistinctBoth<T>(x: seq<T>, y: seq<T>)
    requires Distinct(x)
    ensures Distinct(x + y) <==> Distinct(y) && Disjoint(x, y)
  {
    hide Distinct;
    if Distinct(x + y) {
      DistinctParts(x, y);
    }
    if Distinct(y) && Disjoint(x, y) {
      DistinctJoin(x, y);
    }
  }

  lemma AppendedRoutes(text: string, next: string, e: Edit, p: Part)
    requires Appended(text, next, e, p) && Distinct(RoutesOf(text))
    ensures Distinct(RoutesOf(next)) <==> AddsDistinctRoutes(text, e, p.middle)
  {
    hide Lines, PartOf, RouteList, Closed, Distinct;
    ClosedRoutes(text);
    RouteListAppend(Lines(Closed(text)), Lines(p.middle));
    DistinctBoth(RoutesOf(text), RoutesOf(p.middle));
  }

  lemma StepKeepsRoutes(c: Checks, path: string, text: string, e: Edit)
    requires EditVerdict(c, path, text, e).Commit? && Distinct(RoutesOf(text))
    ensures PartOf(text, e).Some?
    ensures Distinct(RoutesOf(Step(c, path, text, e))) <==> AddsDistinctRoutes(text, e, PartOf(text, e).value.middle)
  {
    hide EditVerdict, Glues, PartOf, Lines, RoutesOf, Distinct;
    var p := StepShape(c, path, text, e);
    if e.Append? {
      AppendedRoutes(text, EditVerdict(c, path, text, e).text, e, p);
    } else if Glues(text, e) {
      ContinuedRoutes(text, EditVerdict(c, path, text, e).text, e, p);
    } else {
      SplicedRoutes(text, EditVerdict(c, path, text, e).text, e, p);
    }
  }

  predicate EveryStepAddsDistinct(c: Checks, path: string, text: string, es: seq<Edit>)
    decreases |es|
  {
    es != [] ==>
      && (EditVerdict(c, path, text, es[0]).Commit? && PartOf(text, es[0]).Some? ==>
            AddsDistinctRoutes(text, es[0], PartOf(text, es[0]).value.middle))
      && EveryStepAddsDistinct(c, path, Step(c, path, text, es[0]), es[1..])
  }

  /** At the start and after every step no route is declared twice. */
  predicate AlwaysDistinct(c: Checks, path: string, text: string, es: seq<Edit>)
    decreases |es|
  {
    Distinct(RoutesOf(text)) && (es != [] ==> AlwaysDistinct(c, path, Step(c, path, text, es[0]), es[1..]))
  }

  lemma {:induction false} AlwaysDistinctAtEnd(c: Checks, path: string, text: string, es: seq<Edit>)
    requires AlwaysDistinct(c, path, text, es)
    ensures Distinct(RoutesOf(Run(c, path, text, es)))
    decreases |es|
  {
    hide EditVerdict, RoutesOf, Distinct;
    if es != [] {
      AlwaysDistinctAtEnd(c, path, Step(c, path, text, es[0]), es[1..]);
    }
  }

  /** A run of inserts, replacements and appends keeps the routes distinct all the way exactly when every committed step adds
      distinct routes. */
  lemma {:induction false} RoutesStayDistinct(c: Checks, path: string, text: string, es: seq<Edit>)
    requires Distinct(RoutesOf(text))
    ensures AlwaysDistinct(c, path, text, es) <==> EveryStepAddsDistinct(c, path, text, es)
    decreases |es|
  {
    hide EditVerdict, Glues, PartOf, RoutesOf, Distinct, AddsDistinctRoutes;
    if es != [] {
      if EditVerdict(c, path, text, es[0]).Commit? {
        StepKeepsRoutes(c, path, text, es[0]);
      }
      if Distinct(RoutesOf(Step(c, path, text, es[0]))) {
        RoutesStayDistinct(c, path, Step(c, path, text, es[0]), es[1..]);
      }
    }
  }

  /** The text declares no route twice, other line boundaries read as they stand or as newlines. */
  predicate DistinctContent(content: string) {
    Distinct(RoutesOf(EnsureNL(content))) && Distinct(RoutesOf(Plain(EnsureNL(content))))
  }

  lemma InsertionDistinct(text: string, e: Edit)
    requires !e.Append? && DistinctContent(e.content) && PartOf(text, e).Some?
    ensures Distinct(RoutesOf(PartOf(text, e).value.middle))
  {
    hide Lines, RoutesOf, Distinct, Plain, EnsureNL, AfterIndex, FirstIndex, Normalized, Normalizes;
    if e.After? {
      var line := Lines(text)[AfterIndex(Lines(text), e.anchor).value];
      if Normalizes(line, EnsureNL(e.content)) {
        NormaliserRoutes(line, EnsureNL(e.content));
      } else {
        LeftAlone(line, EnsureNL(e.content));
      }
    }
  }

  lemma LeftAlone(line: string, insertion: string)
    requires !Normalizes(line, insertion)
    ensures Normalized(line, insertion) == insertion
  {
    hide Normalizes;
  }

  lemma {:induction false} DistinctContents(c: Checks, path: string, text: string, es: seq<Edit>)
    requires NeverGlues(c, path, text, es)
    requires forall i :: 0 <= i < |es| ==> !es[i].Append? && DistinctContent(es[i].content)
    ensures EveryStepAddsDistinct(c, path, text, es)
    decreases |es|
  {
    hide EditVerdict, Glues, PartOf, DistinctContent, RoutesOf, Distinct;
    if es != [] {
      if PartOf(text, es[0]).Some? {
        InsertionDistinct(text, es[0]);
      }
      DistinctContents(c, path, Step(c, path, text, es[0]), es[1..]);
    }
  }

  /** In a file that ends with a newline every run of inserts and replacements whose contents declare no route twice
      keeps the routes distinct, to the end. */
  lemma TerminatedRunDistinct(c: Checks, path: string, text: string, es: seq<Edit>)
    requires Terminated(text) && Distinct(RoutesOf(text))
    requires forall i :: 0 <= i < |es| ==> !es[i].Append? && DistinctContent(es[i].content)
    ensures AlwaysDistinct(c, path, text, es) && Distinct(RoutesOf(Run(c, path, text, es)))
  {
    hide Terminated, RoutesOf, Distinct, DistinctContent, NeverGlues, AlwaysDistinct, EveryStepAddsDistinct;
    TerminatedRun(c, path, text, es);
    DistinctContents(c, path, text, es);
    RoutesStayDistinct(c, path, text, es);
    AlwaysDistinctAtEnd(c, path, text, es);
  }

  // ---------------------------------------------------------------- routes stay below the app initialisation

  /** Some line ahead of line `n` mentions `app = FastAPI`. */
  ghost predicate InitAhead(lines: seq<string>, n: int) {
    exists j :: 0 <= j < n && j < |lines| && Contains(lines[j], APP_INIT)
  }

  /** Every line that mentions `@app.` has an earlier line with `app = FastAPI`. */
  ghost predicate RoutesBelowInit(lines: seq<string>) {
    forall i :: 0 <= i < |lines| && Contains(lines[i], ROUTE_MARK) ==> InitAhead(lines, i)
  }

  lemma InitIsPattern()
    ensures APP_INIT != "" && NoNewline(APP_INIT)
  {
  }

  lemma InitBefore(lines: seq<string>, point: nat, middle: string, k: nat)
    requires point <= |lines| && IsLineList(lines[..point]) && !RouteBeforeInit(lines, point, middle)
    requires k < |Lines(middle)| && Contains(Lines(middle)[k], ROUTE_MARK)
    ensures InitAhead(lines, point)
  {
    hide Contains, Lines, FullLine;
    ContainsInJoin(Lines(middle), k, ROUTE_MARK);
    JoinLines(middle);
    InitIsPattern();
    JoinContains(lines[..point], APP_INIT);
    var j :| 0 <= j < |lines[..point]| && Contains(lines[..point][j], APP_INIT);
    assert Contains(lines[j], APP_INIT);
  }

  lemma InitCarried(lines: seq<string>, n: int, next: seq<string>)
    requires InitAhead(lines, n) && 0 <= n <= |lines| && n <= |next| && next[..n] == lines[..n]
    ensures InitAhead(next, n)
  {
    hide Contains;
    var j :| 0 <= j < n && j < |lines| && Contains(lines[j], APP_INIT);
    assert next[..n][j] == lines[..n][j];
    assert next[j] == lines[j];
  }

  lemma InitFurtherUp(lines: seq<string>, n: int, m: int)
    requires InitAhead(lines, n) && n <= m
    ensures InitAhead(lines, m)
  {
    hide Contains;
    var j :| 0 <= j < n && j < |lines| && Contains(lines[j], APP_INIT);
  }

  lemma OldLineBelow(lines: seq<string>, point: nat, inserted: seq<string>, next: seq<string>, i: nat)
    requires point <= |lines| && next == lines[..point] + inserted + lines[point..]
    requires i < |lines| && Contains(lines[i], ROUTE_MARK) && RoutesBelowInit(lines)
    ensures InitAhead(next, if i < point then i else i + |inserted|)
  {
    hide Contains;
    var j :| 0 <= j < i && j < |lines| && Contains(lines[j], APP_INIT);
    var j' := if j < point then j else j + |inserted|;
    assert next[j'] == lines[j];
  }

  lemma InsertKeepsInit(lines: seq<string>, point: nat, middle: string, next: seq<string>)
    requires point <= |lines| && FullLines(lines[..point]) && !RouteBeforeInit(lines, point, middle)
    requires RoutesBelowInit(lines) && next == lines[..point] + Lines(middle) + lines[point..]
    ensures RoutesBelowInit(next)
  {
    hide Contains, Lines, FullLine, RouteBeforeInit, InitAhead;
    var n := |Lines(middle)|;
    forall i | 0 <= i < |next| && Contains(next[i], ROUTE_MARK)
      ensures InitAhead(next, i)
    {
      if point <= i < point + n {
        assert next[i] == Lines(middle)[i - point];
        InitBefore(lines, point, middle, i - point);
        InitCarried(lines, point, next);
        InitFurtherUp(next, point, i);
      } else {
        var i' := if i < point then i else i - n;
        assert next[i] == lines[i'];
        OldLineBelow(lines, point, Lines(middle), next, i');
      }
    }
  }

  /** What the caller has to check of an insert behind an open line: either an earlier line holds the app
      initialisation, or the line that results mentions no route. */
  ghost predicate ContinuesBelowInit(text: string, middle: string) {
    && Lines(text) != []
    && (InitAhead(Lines(text), |Lines(text)| - 1) || !Contains(ContinuedLine(text, middle), ROUTE_MARK))
  }

  /** The initialisation that the guard asks for lies ahead of the open line or on it. */
  lemma InitOnOrAhead(text: string, middle: string, k: nat)
    requires Lines(text) != [] && !RouteBeforeInit(Lines(text), |Lines(text)|, middle)
    requires 0 < k < |Lines(middle)| && Contains(Lines(middle)[k], ROUTE_MARK)
    ensures InitAhead(Lines(text), |Lines(text)| - 1) || Contains(ContinuedLine(text, middle), APP_INIT)
  {
    hide Contains, Lines, RouteBeforeInit, IsLineList;
    var lines := Lines(text);
    JoinLines(text);
    assert lines[..|lines|] == lines;
    InitBefore(lines, |lines|, middle, k);
    var j :| 0 <= j < |lines| && Contains(lines[j], APP_INIT);
    if j == |lines| - 1 {
      assert "" + lines[j] + Lines(middle)[0] == ContinuedLine(text, middle);
      ContainsInContext("", lines[j], Lines(middle)[0], APP_INIT);
    }
  }

  lemma ContinuedKeepsInit(text: string, next: string, e: Edit, p: Part)
    requires Continued(text, next, e, p) && RoutesBelowInit(Lines(text))
    ensures RoutesBelowInit(Lines(next)) <==> ContinuesBelowInit(text, p.middle)
  {
    hide Contains, Lines, RouteBeforeInit, PartOf, RouteExists, InitAhead, ContinuedLine;
    var lines, after, inserted := Lines(text), Lines(next), Lines(p.middle);
    var k := |lines| - 1;
    assert after[..k] == lines[..k] && after[k] == ContinuedLine(text, p.middle);
    if InitAhead(after, k) {
      InitCarried(after, k, lines);
    }
    if ContinuesBelowInit(text, p.middle) {
      forall i | 0 <= i < |after| && Contains(after[i], ROUTE_MARK)
        ensures InitAhead(after, i)
      {
        if i < k {
          assert after[i] == lines[i];
          InitCarried(lines, i, after);
        } else if InitAhead(lines, k) {
          InitCarried(lines, k, after);
          InitFurtherUp(after, k, i);
        } else {
          assert after[i] == inserted[i - k];
          InitOnOrAhead(text, p.middle, i - k);
          InitHere(after, k, i);
        }
      }
    }
  }

  lemma InitHere(lines: seq<string>, k: nat, i: nat)
    requires k < i && k < |lines| && Contains(lines[k], APP_INIT)
    ensures InitAhead(lines, i)
  {
  }

  /** And of an append: an earlier line of the file holds the initialisation, or the text brings its own ahead of its
      route lines. */
  ghost predicate AppendsBelowInit(text: string, content: string) {
    InitAhead(Lines(text), |Lines(text)|) || RoutesBelowInit(Lines(content))
  }

  lemma NewlineKeepsPattern(l: string, t: string)
    requires t != "" && NoNewline(t)
    ensures Contains(l + "\n", t) <==> Contains(l, t)
  {
    var s := l + "\n";
    if Contains(l, t) {
      ContainsInContext("", l, "\n", t);
      assert "" + l + "\n" == s;
    }
    if Contains(s, t) {
      var i :| 0 <= i <= |s| - |t| && OccursAt(s, t, i);
      assert s[i + |t| - 1] == s[i..i + |t|][|t| - 1];
      assert s[|l|] == '\n';
      assert i + |t| <= |l|;
      assert l[i..i + |t|] == s[i..i + |t|];
      assert OccursAt(l, t, i);
    }
  }

  /** Two lists of lines with the patterns on the same lines. */
  predicate Alike(a: seq<string>, b: seq<string>) {
    && |a| == |b|
    && forall i :: 0 <= i < |a| ==>
         && (Contains(a[i], ROUTE_MARK) <==> Contains(b[i], ROUTE_MARK))
         && (Contains(a[i], APP_INIT) <==> Contains(b[i], APP_INIT))
  }

  lemma ClosedInit(text: string)
    ensures Alike(Lines(Closed(text)), Lines(text))
  {
    hide Lines, Contains;
    if Terminated(text) {
      assert Closed(text) == text;
    } else {
      ClosedLines(text);
      var last := Lines(text)[|Lines(text)| - 1];
      InitIsPattern();
      MarkUnbroken();
      NewlineKeepsPattern(last, ROUTE_MARK);
      NewlineKeepsPattern(last, APP_INIT);
    }
  }

  lemma AlikeInit(a: seq<string>, b: seq<string>)
    requires Alike(a, b)
    ensures forall n :: InitAhead(a, n) <==> InitAhead(b, n)
    ensures RoutesBelowInit(a) <==> RoutesBelowInit(b)
  {
    hide Contains;
    forall n
      ensures InitAhead(a, n) <==> InitAhead(b, n)
    {
      if j :| 0 <= j < n && j < |a| && Contains(a[j], APP_INIT) {
        assert Contains(b[j], APP_INIT);
      }
      if j :| 0 <= j < n && j < |b| && Contains(b[j], APP_INIT) {
        assert Contains(a[j], APP_INIT);
      }
    }
  }

  lemma InitInSecond(a: seq<string>, b: seq<string>, i: nat)
    requires i <= |b|
    ensures InitAhead(a + b, |a| + i) <==> InitAhead(a, |a|) || InitAhead(b, i)
  {
    hide Contains;
    var all := a + b;
    if j :| 0 <= j < |a| + i && j < |all| && Contains(all[j], APP_INIT) {
      if j < |a| {
        assert Contains(a[j], APP_INIT);
      } else {
        assert Contains(b[j - |a|], APP_INIT);
      }
    }
    if j :| 0 <= j < |a| && j < |a| && Contains(a[j], APP_INIT) {
      assert Contains(all[j], APP_INIT);
    }
    if j :| 0 <= j < i && j < |b| && Contains(b[j], APP_INIT) {
      assert Contains(all[|a| + j], APP_INIT);
    }
  }

  lemma BelowInitAppend(a: seq<string>, b: seq<string>)
    requires RoutesBelowInit(a)
    ensures RoutesBelowInit(a + b) <==> InitAhead(a, |a|) || RoutesBelowInit(b)
  {
    hide Contains, InitAhead;
    var all := a + b;
    forall i | 0 <= i < |a|
      ensures InitAhead(a, i) ==> InitAhead(all, i)
    {
      if InitAhead(a, i) {
        InitCarried(a, i, all);
      }
    }
    forall i | 0 <= i < |b|
      ensures InitAhead(all, |a| + i) <==> InitAhead(a, |a|) || InitAhead(b, i)
      ensures all[|a| + i] == b[i]
    {
      InitInSecond(a, b, i);
    }
    if InitAhead(a, |a|) || RoutesBelowInit(b) {
      forall i | 0 <= i < |all| && Contains(all[i], ROUTE_MARK)
        ensures InitAhead(all, i)
      {
        if i < |a| {
          assert all[i] == a[i];
        } else {
          assert all[|a| + (i - |a|)] == b[i - |a|];
        }
      }
    }
  }

  lemma AppendedKeepsInit(text: string, next: string, e: Edit, p: Part)
    requires Appended(text, next, e, p) && RoutesBelowInit(Lines(text))
    ensures RoutesBelowInit(Lines(next)) <==> AppendsBelowInit(text, p.middle)
  {
    hide Lines, PartOf, Closed, RoutesBelowInit, InitAhead, Contains;
    ClosedInit(text);
    AlikeInit(Lines(Closed(text)), Lines(text));
    BelowInitAppend(Lines(Closed(text)), Lines(p.middle));
  }

  /** The condition on one committed insert or append. */
  ghost predicate StepBelowInit(text: string, e: Edit, middle: string) {
    if e.Append? then AppendsBelowInit(text, middle) else Glues(text, e) ==> ContinuesBelowInit(text, middle)
  }

  ghost predicate EveryStepBelowInit(c: Checks, path: string, text: string, es: seq<Edit>)
    decreases |es|
  {
    es != [] ==>
      && (EditVerdict(c, path, text, es[0]).Commit? && PartOf(text, es[0]).Some? ==>
            StepBelowInit(text, es[0], PartOf(text, es[0]).value.middle))
      && EveryStepBelowInit(c, path, Step(c, path, text, es[0]), es[1..])
  }

  /** At the start and after every step all route lines are below the app initialisation. */
  ghost predicate AlwaysBelowInit(c: Checks, path: string, text: string, es: seq<Edit>)
    decreases |es|
  {
    && RoutesBelowInit(Lines(text))
    && (es != [] ==> AlwaysBelowInit(c, path, Step(c, path, text, es[0]), es[1..]))
  }

  lemma StepKeepsInit(c: Checks, path: string, text: string, e: Edit)
    requires EditVerdict(c, path, text, e).Commit? && !e.Replace? && RoutesBelowInit(Lines(text))
    ensures PartOf(text, e).Some?
    ensures RoutesBelowInit(Lines(Step(c, path, text, e)))
       <==> StepBelowInit(text, e, PartOf(text, e).value.middle)
  {
    hide EditVerdict, Glues, PartOf, Lines, RoutesBelowInit, RouteBeforeInit, RouteExists, FullLine, ContinuesBelowInit,
         AppendsBelowInit;
    var p := StepShape(c, path, text, e);
    if e.Append? {
      AppendedKeepsInit(text, EditVerdict(c, path, text, e).text, e, p);
    } else if Glues(text, e) {
      ContinuedKeepsInit(text, EditVerdict(c, path, text, e).text, e, p);
    } else {
      InsertKeepsInit(Lines(text), p.from, p.middle, Lines(EditVerdict(c, path, text, e).text));
    }
  }

  /** A run of inserts and appends keeps every route line below the app initialisation all the way exactly when every
      step meets its condition: one that continues an open line does so below the initialisation or without making a
      route line, and what is appended finds the initialisation in the file or brings it. */
  lemma {:induction false} RoutesStayBelowInit(c: Checks, path: string, text: string, es: seq<Edit>)
    requires forall i :: 0 <= i < |es| ==> !es[i].Replace?
    requires RoutesBelowInit(Lines(text))
    ensures AlwaysBelowInit(c, path, text, es) <==> EveryStepBelowInit(c, path, text, es)
    decreases |es|
  {
    hide EditVerdict, Glues, PartOf, Lines, RoutesBelowInit, StepBelowInit;
    if es != [] {
      if EditVerdict(c, path, text, es[0]).Commit? {
        StepKeepsInit(c, path, text, es[0]);
      }
      if RoutesBelowInit(Lines(Step(c, path, text, es[0]))) {
        RoutesStayBelowInit(c, path, Step(c, path, text, es[0]), es[1..]);
      }
    }
  }

  lemma {:induction false} NeverGluesSafe(c: Checks, path: string, text: string, es: seq<Edit>)
    requires NeverGlues(c, path, text, es) && forall i :: 0 <= i < |es| ==> !es[i].Append?
    ensures EveryStepBelowInit(c, path, text, es)
    decreases |es|
  {
    hide EditVerdict, Glues, PartOf, ContinuesBelowInit;
    if es != [] {
      NeverGluesSafe(c, path, Step(c, path, text, es[0]), es[1..]);
    }
  }

  /** In a file that ends with a newline every run of inserts keeps the routes below the initialisation. */
  lemma TerminatedRunBelowInit(c: Checks, path: string, text: string, es: seq<Edit>)
    requires Terminated(text) && forall i :: 0 <= i < |es| ==> es[i].After? || es[i].Before?
    requires RoutesBelowInit(Lines(text))
    ensures AlwaysBelowInit(c, path, text, es)
  {
    hide Terminated, RoutesBelowInit, NeverGlues, AlwaysBelowInit, EveryStepBelowInit;
    TerminatedRun(c, path, text, es);
    NeverGluesSafe(c, path, text, es);
    RoutesStayBelowInit(c, path, text, es);
  }

  // ---------------------------------------------------------------- the conditions fail behind an open line

  lemma OnlyLine(l: string)
    requires OpenLine(l) || FullLine(l)
    ensures Lines(l) == [l]
  {
    JoinOne(l);
    LinesJoin([l]);
  }

  lemma TooShort(s: string, t: string)
    requires |s| < |t|
    ensures !Contains(s, t)
  {
  }

  /** Behind the last line of a file nothing is near yet, so an insert that passes the route guards is committed. */
  lemma LastLineInsert(c: Checks, path: string, text: string, insertion: string)
    requires Lines(text) != [] && !c.secretLike(insertion) && !Blank(insertion)
    requires IsPython(path) ==> c.validPython(path, text + insertion)
    requires !RouteExists(Lines(text), insertion) && !RouteBeforeInit(Lines(text), |Lines(text)|, insertion)
    ensures InsertVerdict(c, path, text, |Lines(text)| - 1, insertion, true) == Commit(text + insertion)
  {
    hide Lines, IsPython, Contains, WindowSize, RouteExists, RouteBeforeInit;
    var lines := Lines(text);
    StripShape(insertion);
    TooShort("", Strip(insertion));
    var size := WindowSize(insertion);
    assert Window(lines, |lines| - 1, size, true) == "";
    assert Strip("") == "";
    SpliceText(lines, |lines|, |lines|, insertion);
    assert lines[..|lines|] == lines && lines[|lines|..] == [];
    JoinLines(text);
    assert text + insertion + "" == text + insertion;
  }

  /** The guard asks for the initialisation ahead of the insertion, and the open line `app = FastAPI()` provides it.
      The route then stands on that very line, with no initialisation above it. In a Python file that line is a valid
      expression, a matrix product. */
  lemma GluedRouteEscapesGuard(c: Checks, path: string)
    requires IsPython(path) ==> c.validPython(path, "app = FastAPI()@app.get('/x')\n")
    requires !c.secretLike("@app.get('/x')\n")
    ensures var text, e := "app = FastAPI()", After("app = FastAPI()", "@app.get('/x')");
            && EditVerdict(c, path, text, e) == Commit("app = FastAPI()@app.get('/x')\n")
            && RoutesBelowInit(Lines(text)) && !RoutesBelowInit(Lines(Step(c, path, text, e)))
  {
    hide Lines, IsPython, RoutesBelowInit, InsertVerdict, AfterVerdict, Contains, RouteExists, RouteBeforeInit, Blank;
    hide EnsureNL, FirstIndex;
    InitTexts();
    InitSpelling();
    InitGuards();
    LastLineInsert(c, path, "app = FastAPI()", "@app.get('/x')\n");
    InitVerdict(c, path);
    BelowInitOneLine("app = FastAPI()");
    BelowInitOneLine("app = FastAPI()@app.get('/x')\n");
  }

  lemma InitTexts()
    ensures Lines("app = FastAPI()") == ["app = FastAPI()"]
    ensures Lines("app = FastAPI()@app.get('/x')\n") == ["app = FastAPI()@app.get('/x')\n"]
    ensures "app = FastAPI()" + "@app.get('/x')\n" == "app = FastAPI()@app.get('/x')\n"
  {
    hide Lines;
    OnlyLine("app = FastAPI()");
    OnlyLine("app = FastAPI()@app.get('/x')\n");
  }

  lemma BelowInitOneLine(l: string)
    requires Lines(l) == [l]
    ensures RoutesBelowInit(Lines(l)) <==> !Contains(l, ROUTE_MARK)
  {
    hide Lines, Contains;
    assert [l][0] == l;
  }

  lemma InitSpelling()
    ensures !Contains("app = FastAPI()", ROUTE_MARK) && Contains("app = FastAPI()", APP_INIT)
    ensures Contains("app = FastAPI()@app.get('/x')\n", ROUTE_MARK)
    ensures !Blank("@app.get('/x')\n") && EnsureNL("@app.get('/x')") == "@app.get('/x')\n"
    ensures FirstIndex(["app = FastAPI()"], "app = FastAPI()") == Some(0)
  {
    var line, glued := "app = FastAPI()", "app = FastAPI()@app.get('/x')\n";
    assert ROUTE_MARK[0] == '@' && forall i :: 0 <= i < |line| ==> line[i] != '@';
    assert OccursAt(line, APP_INIT, 0);
    assert OccursAt(line, line, 0);
    assert glued == line + "@app." + "get('/x')\n";
    assert OccursAt("@app.", ROUTE_MARK, 0);
    ContainsInContext(line, "@app.", "get('/x')\n", ROUTE_MARK);
    PrintableIsInk('@');
    assert "@app.get('/x')\n"[0] == '@';
  }

  lemma InitGuards()
    ensures !RouteExists(["app = FastAPI()"], "@app.get('/x')\n")
    ensures !RouteBeforeInit(["app = FastAPI()"], 1, "@app.get('/x')\n")
  {
    hide Contains, RoutesFrom;
    var line := "app = FastAPI()";
    InitSpelling();
    NoMarkNoRouteList([line]);
    assert [line][..1] == [line];
    JoinOne(line);
  }

  lemma InitVerdict(c: Checks, path: string)
    requires Lines("app = FastAPI()") == ["app = FastAPI()"]
    ensures AfterVerdict(c, path, "app = FastAPI()", "app = FastAPI()", "@app.get('/x')")
         == InsertVerdict(c, path, "app = FastAPI()", 0, "@app.get('/x')\n", true)
  {
    hide Lines, Contains, InsertVerdict, Blank;
    var line := "app = FastAPI()";
    InitSpelling();
    PrintableIsInk('a');
    PrintableIsInk(')');
    assert line[0] == 'a' && line[|line| - 1] == ')';
    assert Lead(line) == 0 && Trail(line) == |line|;
    assert Strip(line) == line && AnchorIndent(line) == "";
  }

  /** The duplicate-route guard reads the inserted text alone. Behind the open line `q@app.g` a text without any
      route completes a second declaration of a route. */
  lemma GluedRouteRepeats(c: Checks, path: string)
    requires IsPython(path) ==> c.validPython(path, "@app.get('/x')\nq@app.get('/x')\n")
    requires !c.secretLike("et('/x')\n")
    ensures var text, e := "@app.get('/x')\nq@app.g", After("q@", "et('/x')");
            && EditVerdict(c, path, text, e) == Commit("@app.get('/x')\nq@app.get('/x')\n")
            && RoutesOf("et('/x')\n") == []
            && Distinct(RoutesOf(text)) && !Distinct(RoutesOf(Step(c, path, text, e)))
  {
    hide Lines, IsPython, InsertVerdict, AfterVerdict, Contains, RoutesOf, Distinct, EnsureNL, Blank;
    var text, insertion := "@app.get('/x')\nq@app.g", "et('/x')\n";
    RepeatSpelling();
    RepeatTexts();
    RoutesNeedMark(insertion);
    NoRouteNoGuard(Lines(text), insertion);
    LastLineInsert(c, path, text, insertion);
    EditRepeat.UnmarkedVerdict(c, path, text, "q@", "et('/x')", 1);
    RepeatRoutes();
  }

  lemma RepeatTexts()
    ensures Lines("@app.get('/x')\nq@app.g") == ["@app.get('/x')\n", "q@app.g"]
    ensures Lines("@app.get('/x')\nq@app.get('/x')\n") == ["@app.get('/x')\n", "q@app.get('/x')\n"]
    ensures "@app.get('/x')\nq@app.g" + "et('/x')\n" == "@app.get('/x')\nq@app.get('/x')\n"
  {
    hide Lines;
    var first, last, next := "@app.get('/x')\n", "q@app.g", "q@app.get('/x')\n";
    TwoLines(first, last);
    TwoLines(first, next);
    assert first + last == "@app.get('/x')\nq@app.g";
    assert first + next == "@app.get('/x')\nq@app.get('/x')\n";
  }

  lemma RepeatRoutes()
    ensures Distinct(RoutesOf("@app.get('/x')\nq@app.g"))
    ensures !Distinct(RoutesOf("@app.get('/x')\nq@app.get('/x')\n"))
  {
    hide Lines, RoutesFrom, RouteList;
    var first, last, next := "@app.get('/x')\n", "q@app.g", "q@app.get('/x')\n";
    RepeatTexts();
    OneRoute();
    assert "q" + first == next;
    RoutesBehind("q", first, 0);
    TwoLineRoutes(first, last);
    TwoLineRoutes(first, next);
    var r := RoutesFrom(first, 0);
    assert (r + r)[0] == (r + r)[1];
  }

  lemma NoRouteNoGuard(lines: seq<string>, insertion: string)
    requires !Contains(insertion, ROUTE_MARK) && RoutesOf(insertion) == []
    ensures !RouteExists(lines, insertion) && !RouteBeforeInit(lines, |lines|, insertion)
  {
    hide Contains;
  }

  lemma TwoLines(a: string, b: string)
    requires FullLine(a) && (OpenLine(b) || FullLine(b))
    ensures Lines(a + b) == [a, b]
  {
    OnlyLine(b);
    LinesCons(a, b);
  }

  lemma TwoLineRoutes(a: string, b: string)
    ensures RouteList([a, b]) == RoutesFrom(a, 0) + RoutesFrom(b, 0)
  {
    hide RoutesFrom;
    assert [a, b][1..] == [b] && [b][1..] == [];
    assert RouteList([b]) == RoutesFrom(b, 0) + RouteList([b][1..]);
  }

  lemma HeadMissing(s: string, t: string)
    requires t != "" && t[0] !in s
    ensures !Contains(s, t)
  {
    assert forall i :: OccursAt(s, t, i) ==> s[i] == s[i..i + |t|][0];
  }

  lemma RepeatSpelling()
    ensures !Contains("et('/x')\n", ROUTE_MARK) && EnsureNL("et('/x')") == "et('/x')\n" && !Blank("et('/x')\n")
    ensures FirstIndex(["@app.get('/x')\n", "q@app.g"], "q@") == Some(1)
  {
    var first, last, insertion := "@app.get('/x')\n", "q@app.g", "et('/x')\n";
    assert ROUTE_MARK[0] == '@' && forall i :: 0 <= i < |insertion| ==> insertion[i] != '@';
    assert forall i :: 0 <= i < |first| ==> first[i] != 'q';
    assert "q@"[0] == 'q';
    HeadMissing(first, "q@");
    assert OccursAt(last, "q@", 0);
    assert [first, last][1..] == [last];
    PrintableIsInk('e');
    assert insertion[0] == 'e';
  }

  lemma OneRoute()
    ensures |RoutesFrom("@app.get('/x')\n", 0)| == 1
    ensures RoutesFrom("q@app.g", 0) == []
  {
    var first, last := "@app.get('/x')\n", "q@app.g";
    assert first[5] == 'g' && first[6] == 'e' && first[7] == 't' && first[8] == '(';
    assert WordEnd(first, 8) == 8;
    assert WordEnd(first, 7) == 8;
    assert WordEnd(first, 6) == 8;
    assert WordEnd(first, 5) == 8;
    assert first[9] == '\'' && first[10] == '/' && first[11] == 'x' && first[12] == '\'';
    assert PathEnd(first, 12) == 12;
    assert PathEnd(first, 11) == 12;
    assert PathEnd(first, 10) == 12;
    assert SpaceEnd(first, 9) == 9 by {
      PrintableIsInk('\'');
    }
    assert OccursAt(first, ROUTE_MARK, 0);
    assert RouteAt(first, 0).Some? && RouteAt(first, 0).value.1 == 13;
    NoRouteHere(first, 13);
    NoRouteHere(first, 14);
    assert RoutesFrom(first, 15) == [] && RoutesFrom(first, 14) == [] && RoutesFrom(first, 13) == [];
    assert WordEnd(last, 7) == 7 && WordEnd(last, 6) == 7;
    assert RouteAt(last, 1) == None;
    NoRouteHere(last, 0);
    RoutesEnd(last, 2);
    assert RoutesFrom(last, 1) == [] && RoutesFrom(last, 0) == [];
  }

  lemma {:induction false} RoutesEnd(s: string, i: nat)
    requires i <= |s| && forall k :: i <= k < |s| ==> s[k] != '@'
    ensures RoutesFrom(s, i) == []
    decreases |s| - i
  {
    if i < |s| {
      NoRouteHere(s, i);
      RoutesEnd(s, i + 1);
    }
  }
}
