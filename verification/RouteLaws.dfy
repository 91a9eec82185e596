/** The guards of the line-edit engine in terms of the texts alone: which routes a text declares, which anchor line an
    edit finds, where a text with a route may go, and how far the engine looks for a copy. */
module RouteLaws {
  import opened Text
  import opened Insertion
  import opened Indentation
  import opened IndentRoutes
  import opened Editor
  import opened EditProofs
  import opened EditRepeat
  import RepeatExact

  // ---------------------------------------------------------------- declarations

  predicate IsVerb(verb: string) {
    verb != "" && forall i :: 0 <= i < |verb| ==>
      'a' <= verb[i] <= 'z' || 'A' <= verb[i] <= 'Z' || '0' <= verb[i] <= '9' || verb[i] == '_'
  }

  predicate IsPath(path: string) {
    path != "" && forall i :: 0 <= i < |path| ==> path[i] != '\'' && path[i] != '"'
  }

  predicate IsQuoteMark(q: string) {
    q == ['\''] || q == ['"']
  }

  /** A decorator as it is written, up to the quote that closes its path. */
  function Decorator(verb: string, gap: string, open: string, path: string, close: string): string {
    "@app." + verb + "(" + gap + open + path + close
  }

  predicate WellWritten(verb: string, gap: string, open: string, path: string, close: string) {
    IsVerb(verb) && Blank(gap) && IsQuoteMark(open) && IsPath(path) && IsQuoteMark(close)
  }

  lemma WordEndIs(s: string, i: nat, e: nat)
    requires i <= e <= |s| && (e < |s| ==> !IsWord(s[e])) && forall k :: i <= k < e ==> IsWord(s[k])
    ensures WordEnd(s, i) == e
    decreases e - i
  {
    if i < e {
      WordEndIs(s, i + 1, e);
    }
  }

  lemma SpaceEndIs(s: string, i: nat, e: nat)
    requires i <= e <= |s| && (e < |s| ==> !IsSpace(s[e])) && forall k :: i <= k < e ==> IsSpace(s[k])
    ensures SpaceEnd(s, i) == e
    decreases e - i
  {
    hide IsSpace;
    if i < e {
      SpaceEndIs(s, i + 1, e);
    }
  }

  lemma PathEndIs(s: string, i: nat, e: nat)
    requires i <= e <= |s| && (e < |s| ==> IsQuote(s[e])) && forall k :: i <= k < e ==> !IsQuote(s[k])
    ensures PathEnd(s, i) == e
    decreases e - i
  {
    if i < e {
      PathEndIs(s, i + 1, e);
    }
  }

  /** The part of a text between two others. */
  lemma Between(a: string, m: string, b: string)
    ensures |a + m + b| == |a| + |m| + |b|
    ensures (a + m + b)[|a|..|a| + |m|] == m && (a + m + b)[|a| + |m|..] == b
    ensures forall k :: |a| <= k < |a| + |m| ==> (a + m + b)[k] == m[k - |a|]
  {
  }

  lemma QuoteMarks(q: string)
    requires IsQuoteMark(q)
    ensures |q| == 1 && IsQuote(q[0]) && !IsSpace(q[0])
  {
    PrintableIsInk(q[0]);
  }

  /** From its opening quote on a decorator is matched. */
  lemma PathMatches(s: string, verb: string, before: string, open: string, path: string, close: string, after: string)
    requires IsQuoteMark(open) && IsPath(path) && IsQuoteMark(close)
    requires s == before + open + path + close + after
    ensures PathAt(s, verb, |before|) == Some((Route(verb, path), |before| + |path| + 2))
  {
    hide PathEnd;
    QuoteMarks(open);
    QuoteMarks(close);
    Between(before + open, path, close + after);
    assert s == before + open + path + (close + after);
    assert s[|before|] == open[0] && s[|before| + 1 + |path|] == close[0];
    PathEndIs(s, |before| + 1, |before| + 1 + |path|);
  }

  lemma VerbWords(verb: string)
    requires IsVerb(verb)
    ensures verb != "" && (forall i :: 0 <= i < |verb| ==> IsWord(verb[i])) && !IsWord('(')
  {
  }

  lemma VerbPart(s: string, before: string, verb: string, tail: string)
    requires IsVerb(verb) && tail != "" && tail[0] == '(' && s == before + verb + tail
    ensures WordEnd(s, |before|) == |before| + |verb| < |s| && s[|before| + |verb|] == '('
    ensures s[|before|..|before| + |verb|] == verb
  {
    hide WordEnd, IsVerb, IsWord;
    VerbWords(verb);
    Between(before, verb, tail);
    assert s[|before| + |verb|] == tail[0];
    WordEndIs(s, |before|, |before| + |verb|);
  }

  lemma GapPart(s: string, front: string, gap: string, rest: string)
    requires Blank(gap) && rest != "" && !IsSpace(rest[0]) && s == front + gap + rest
    ensures SpaceEnd(s, |front|) == |front| + |gap|
  {
    hide SpaceEnd, IsSpace;
    Between(front, gap, rest);
    assert s[|front| + |gap|] == rest[0];
    SpaceEndIs(s, |front|, |front| + |gap|);
  }

  /** From its verb on. */
  lemma CallMatches(s: string, before: string, verb: string, gap: string, open: string, path: string, close: string,
                    after: string)
    requires WellWritten(verb, gap, open, path, close)
    requires s == before + verb + "(" + gap + open + path + close + after
    ensures CallAt(s, |before|) == Some((Route(verb, path), |before| + |verb| + 1 + |gap| + |path| + 2))
  {
    hide WordEnd, SpaceEnd, PathAt, IsSpace, IsQuoteMark, IsPath, Blank;
    QuoteMarks(open);
    var rest := open + path + close + after;
    assert s == before + verb + ("(" + gap + rest) && s == before + verb + "(" + gap + rest;
    VerbPart(s, before, verb, "(" + gap + rest);
    GapPart(s, before + verb + "(", gap, rest);
    PathMatches(s, verb, before + verb + "(" + gap, open, path, close, after);
  }

  lemma DecoratorMatches(verb: string, gap: string, open: string, path: string, close: string, after: string)
    requires WellWritten(verb, gap, open, path, close)
    ensures var d := Decorator(verb, gap, open, path, close);
            RouteAt(d + after, 0) == Some((Route(verb, path), |d|))
  {
    hide CallAt, WellWritten;
    var d := Decorator(verb, gap, open, path, close);
    var s := d + after;
    assert s == "@app." + verb + "(" + gap + open + path + close + after;
    DecoratorLength(verb, gap, open, path, close);
    CallMatches(s, "@app.", verb, gap, open, path, close, after);
    assert s[0..5] == "@app.";
    assert OccursAt(s, ROUTE_MARK, 0);
  }

  lemma DecoratorLength(verb: string, gap: string, open: string, path: string, close: string)
    requires WellWritten(verb, gap, open, path, close)
    ensures |Decorator(verb, gap, open, path, close)| == 5 + |verb| + 1 + |gap| + |path| + 2
  {
    QuoteMarks(open);
    QuoteMarks(close);
  }

  lemma CharOfOccurrence(s: string, t: string, i: nat, q: nat)
    requires i <= q < i + |t| && q < |s|
    ensures OccursAt(s, t, i) ==> s[q] == t[q - i]
  {
    if OccursAt(s, t, i) {
      OccursChars(s, t, i);
      InsideOccurrence(s, t, i, q);
    }
  }

  lemma OccursInFront(a: string, b: string, t: string, i: nat)
    requires i + |t| <= |a|
    ensures OccursAt(a + b, t, i) ==> Contains(a, t)
  {
    if OccursAt(a + b, t, i) {
      OccursInSlice(a + b, t, i, 0, |a|);
      assert (a + b)[0..|a|] == a;
    }
  }

  /** No other match starts ahead of the first `@app.`. */
  lemma NoMatchAhead(before: string, t: string, k: nat)
    requires !Contains(before, "@app.") && |t| >= 5 && t[..5] == "@app." && k < |before|
    ensures RouteAt(before + t, k) == None
  {
    hide Contains, CallAt;
    var s, n := before + t, |before|;
    assert ROUTE_MARK == "@app.";
    assert s[n] == t[..5][0] == '@';
    if k + 5 <= n {
      OccursInFront(before, t, "@app.", k);
    } else {
      CharOfOccurrence(s, "@app.", k, n);
      assert "@app."[n - k] != '@';
    }
  }

  lemma {:induction false} RoutesAhead(before: string, t: string, k: nat)
    requires !Contains(before, "@app.") && |t| >= 5 && t[..5] == "@app." && k <= |before|
    ensures RoutesFrom(before + t, k) == RoutesFrom(t, 0)
    decreases |before| - k
  {
    hide RouteAt, Contains;
    if k == |before| {
      RoutesShift(before, t, 0);
    } else {
      NoMatchAhead(before, t, k);
      RoutesAhead(before, t, k + 1);
    }
  }

  /** The routes of a line: with its first `@app.` at a decorator, the route of that decorator and those of the rest. */
  lemma LineDeclares(before: string, verb: string, gap: string, open: string, path: string, close: string, after: string)
    requires !Contains(before, "@app.") && WellWritten(verb, gap, open, path, close)
    ensures RoutesFrom(before + (Decorator(verb, gap, open, path, close) + after), 0)
         == [Route(verb, path)] + RoutesFrom(after, 0)
  {
    hide RouteAt, Contains, WellWritten;
    var d := Decorator(verb, gap, open, path, close);
    assert (d + after)[..5] == "@app.";
    RoutesAhead(before, d + after, 0);
    DecoratorMatches(verb, gap, open, path, close, after);
    RoutesShift(d, after, 0);
  }

  /** The routes of a text, from its first decorator on: verb and path of that decorator, then the routes of what
      follows. A text without `@app.` has none (`RoutesNeedMark`), and complete lines may be put in front
      (`IndentRoutes.RoutesAppend`). */
  lemma TextDeclares(before: string, verb: string, gap: string, open: string, path: string, close: string, after: string)
    requires !Contains(before, "@app.") && WellWritten(verb, gap, open, path, close)
    requires NoNewline(before) && NoNewline(gap) && NoNewline(path)
    ensures RoutesOf(before + Decorator(verb, gap, open, path, close) + after) == [Route(verb, path)] + RoutesOf(after)
  {
    hide RoutesFrom, Contains, WellWritten, Lines, NoNewline;
    var d := Decorator(verb, gap, open, path, close);
    var l := before + d;
    WithinOneLine(before, verb, gap, open, path, close);
    if after == "" {
      LineDeclares(before, verb, gap, open, path, close, "");
      assert l + after == l == before + (d + "");
      LinesOpen(l);
      OneLineRoutes(l);
      NoLines();
      assert RoutesFrom("", 0) == [] by {
        NothingFrom();
      }
    } else {
      GluedLines(l, after);
      var head, rest := Lines(after)[0], Lines(after)[1..];
      LineDeclares(before, verb, gap, open, path, close, head);
      assert l + head == before + (d + head);
      RouteListCons(l + head, rest);
      RouteListCons(head, rest);
      assert Lines(after) == [head] + rest;
    }
  }

  lemma NothingFrom()
    ensures RoutesFrom("", 0) == []
  {
  }

  lemma WithinOneLine(before: string, verb: string, gap: string, open: string, path: string, close: string)
    requires WellWritten(verb, gap, open, path, close) && NoNewline(before) && NoNewline(gap) && NoNewline(path)
    ensures OpenLine(before + Decorator(verb, gap, open, path, close))
  {
    hide IsSpace;
    NoNewlineTwo(before, "@app.");
    NoNewlineTwo(before + "@app.", verb);
    NoNewlineTwo(before + "@app." + verb, "(");
    NoNewlineTwo(before + "@app." + verb + "(", gap);
    NoNewlineTwo(before + "@app." + verb + "(" + gap, open);
    NoNewlineTwo(before + "@app." + verb + "(" + gap + open, path);
    NoNewlineTwo(before + "@app." + verb + "(" + gap + open + path, close);
    assert before + Decorator(verb, gap, open, path, close)
        == before + "@app." + verb + "(" + gap + open + path + close;
  }

  lemma NoNewlineTwo(a: string, b: string)
    requires NoNewline(a) && NoNewline(b)
    ensures NoNewline(a + b)
  {
  }

  // ---------------------------------------------------------------- every route found is written in the text

  predicate DeclaredAs(text: string, verb: string, path: string, a: string, gap: string, open: string, close: string,
                       b: string) {
    WellWritten(verb, gap, open, path, close) && text == a + Decorator(verb, gap, open, path, close) + b
  }

  /** The text holds a decorator with this verb and path. */
  ghost predicate Declares(text: string, verb: string, path: string) {
    exists a, gap, open, close, b :: DeclaredAs(text, verb, path, a, gap, open, close, b)
  }

  lemma {:induction false} WordEndAll(s: string, i: nat)
    requires i <= |s|
    ensures forall k :: i <= k < WordEnd(s, i) ==> IsWord(s[k])
    decreases |s| - i
  {
    if i < |s| && IsWord(s[i]) {
      WordEndAll(s, i + 1);
    }
  }

  lemma {:induction false} SpaceEndAll(s: string, i: nat)
    requires i <= |s|
    ensures forall k :: i <= k < SpaceEnd(s, i) ==> IsSpace(s[k])
    decreases |s| - i
  {
    hide IsSpace;
    if i < |s| && IsSpace(s[i]) {
      SpaceEndAll(s, i + 1);
    }
  }

  lemma {:induction false} PathEndAll(s: string, i: nat)
    requires i <= |s|
    ensures forall k :: i <= k < PathEnd(s, i) ==> !IsQuote(s[k])
    ensures PathEnd(s, i) < |s| ==> IsQuote(s[PathEnd(s, i)])
    decreases |s| - i
  {
    if i < |s| && !IsQuote(s[i]) {
      PathEndAll(s, i + 1);
    }
  }

  lemma QuotedPart(s: string, verb: string, q: nat) returns (p: nat)
    requires q <= |s| && PathAt(s, verb, q).Some?
    ensures q + 1 < p < |s| && PathAt(s, verb, q) == Some((Route(verb, s[q + 1..p]), p + 1))
    ensures IsPath(s[q + 1..p]) && IsQuoteMark([s[q]]) && IsQuoteMark([s[p]])
  {
    hide PathEnd;
    p := PathEnd(s, q + 1);
    PathEndAll(s, q + 1);
    var path := s[q + 1..p];
    forall i | 0 <= i < |path|
      ensures path[i] != '\'' && path[i] != '"'
    {
      assert path[i] == s[q + 1 + i];
    }
  }

  lemma CalledPart(s: string, w: nat) returns (e: nat, q: nat)
    requires w <= |s| && CallAt(s, w).Some?
    ensures w < e < q <= |s| && s[e] == '(' && IsVerb(s[w..e]) && Blank(s[e + 1..q])
    ensures CallAt(s, w) == PathAt(s, s[w..e], q)
  {
    hide WordEnd, SpaceEnd, PathAt, IsSpace;
    e := WordEnd(s, w);
    q := SpaceEnd(s, e + 1);
    WordEndAll(s, w);
    SpaceEndAll(s, e + 1);
    var verb, gap := s[w..e], s[e + 1..q];
    forall i | 0 <= i < |verb|
      ensures IsWord(verb[i])
    {
      assert verb[i] == s[w + i];
    }
    forall i | 0 <= i < |gap|
      ensures IsSpace(gap[i])
    {
      assert gap[i] == s[e + 1 + i];
    }
  }

  lemma MatchIsWritten(s: string, i: nat)
    requires i <= |s| && RouteAt(s, i).Some?
    ensures var r := RouteAt(s, i).value.0; Declares(s, r.verb, r.path)
  {
    hide CallAt, PathAt, IsSpace, Blank, IsPath, IsVerb, IsQuoteMark, OccursAt;
    var w := i + 5;
    assert ROUTE_MARK == "@app.";
    MarkFits(s, i);
    var e, q := CalledPart(s, w);
    var p := QuotedPart(s, s[w..e], q);
    assert s[i..w] == "@app." by {
      MarkedSlice(s, i);
    }
    Pieces(s, i, e, q, p);
    assert DeclaredAs(s, s[w..e], s[q + 1..p], s[..i], s[e + 1..q], [s[q]], [s[p]], s[p + 1..]);
  }

  lemma MarkedSlice(s: string, i: nat)
    requires OccursAt(s, ROUTE_MARK, i)
    ensures s[i..i + 5] == "@app."
  {
  }

  lemma Pieces(s: string, i: nat, e: nat, q: nat, p: nat)
    requires i + 5 < e < q < p < |s| && s[i..i + 5] == "@app." && s[e] == '('
    ensures s == s[..i] + Decorator(s[i + 5..e], s[e + 1..q], [s[q]], s[q + 1..p], [s[p]]) + s[p + 1..]
  {
    var verb, gap, path := s[i + 5..e], s[e + 1..q], s[q + 1..p];
    SplitAt(s, i, i + 5);
    SplitAt(s, i + 5, e);
    SplitAt(s, e, e + 1);
    SplitAt(s, e + 1, q);
    SplitAt(s, q, q + 1);
    SplitAt(s, q + 1, p);
    SplitAt(s, p, p + 1);
    assert s[..p + 1] == s[..i] + "@app." + verb + "(" + gap + [s[q]] + path + [s[p]];
    assert s[..p + 1] == s[..i] + Decorator(verb, gap, [s[q]], path, [s[p]]) by {
      Regrouped(s[..i], "@app.", verb);
      Regrouped(s[..i], "@app." + verb, "(");
      Regrouped(s[..i], "@app." + verb + "(", gap);
      Regrouped(s[..i], "@app." + verb + "(" + gap, [s[q]]);
      Regrouped(s[..i], "@app." + verb + "(" + gap + [s[q]], path);
      Regrouped(s[..i], "@app." + verb + "(" + gap + [s[q]] + path, [s[p]]);
    }
  }

  lemma SplitAt(s: string, i: nat, j: nat)
    requires i <= j <= |s|
    ensures s[..j] == s[..i] + s[i..j] && s == s[..j] + s[j..]
    ensures j == i + 1 ==> s[i..j] == [s[i]]
  {
  }

  lemma {:induction false} LineRouteIsWritten(s: string, i: nat, r: Route)
    requires i <= |s| && r in RoutesFrom(s, i)
    ensures Declares(s, r.verb, r.path)
    decreases |s| - i
  {
    hide RouteAt, Declares;
    match RouteAt(s, i) {
      case Some((route, next)) =>
        if r == route {
          MatchIsWritten(s, i);
        } else {
          LineRouteIsWritten(s, next, r);
        }
      case None => LineRouteIsWritten(s, i + 1, r);
    }
  }

  lemma DeclaresInContext(x: string, s: string, y: string, verb: string, path: string)
    requires Declares(s, verb, path)
    ensures Declares(x + s + y, verb, path)
  {
    hide WellWritten;
    var a, gap, open, close, b :| DeclaredAs(s, verb, path, a, gap, open, close, b);
    var d := Decorator(verb, gap, open, path, close);
    assert x + s + y == (x + a) + d + (b + y);
    assert DeclaredAs(x + s + y, verb, path, x + a, gap, open, close, b + y);
  }

  lemma {:induction false} ListedRouteIsWritten(ls: seq<string>, r: Route)
    requires r in RouteList(ls)
    ensures exists k :: 0 <= k < |ls| && Declares(ls[k], r.verb, r.path)
  {
    hide RoutesFrom, Declares;
    if r in RoutesFrom(ls[0], 0) {
      LineRouteIsWritten(ls[0], 0, r);
    } else {
      ListedRouteIsWritten(ls[1..], r);
      var k :| 0 <= k < |ls[1..]| && Declares(ls[1..][k], r.verb, r.path);
      assert Declares(ls[k + 1], r.verb, r.path);
    }
  }

  lemma DeclaredOnLine(text: string, k: nat, verb: string, path: string)
    requires k < |Lines(text)| && Declares(Lines(text)[k], verb, path)
    ensures Declares(text, verb, path)
  {
    hide Lines, Declares;
    var ls := Lines(text);
    JoinLines(text);
    assert ls == ls[..k] + [ls[k]] + ls[k + 1..];
    JoinThree(ls[..k], ls[k], ls[k + 1..]);
    DeclaresInContext(Join(ls[..k]), ls[k], Join(ls[k + 1..]), verb, path);
  }

  /** Every route found stands in the text as a decorator with that verb and that path. */
  lemma RouteIsWritten(text: string, r: Route)
    requires r in RoutesOf(text)
    ensures Declares(text, r.verb, r.path)
  {
    hide RouteList, Lines, Declares;
    ListedRouteIsWritten(Lines(text), r);
    var k :| 0 <= k < |Lines(text)| && Declares(Lines(text)[k], r.verb, r.path);
    DeclaredOnLine(text, k, r.verb, r.path);
  }

  // ---------------------------------------------------------------- what counts as a duplicate

  /** No decorator of `insertion` has verb and path of one in `text`. */
  ghost predicate OnlyNewRoutes(text: string, insertion: string) {
    forall verb, path :: Declares(insertion, verb, path) ==> !Declares(text, verb, path)
  }

  lemma NewRoutesPass(text: string, existing: seq<string>, insertion: string)
    requires OnlyNewRoutes(text, insertion) && forall i :: 0 <= i < |existing| ==> existing[i] in Lines(text)
    ensures !RouteExists(existing, insertion)
  {
    hide RouteList, Lines, Declares, RoutesOf;
    forall r | r in RoutesOf(insertion)
      ensures r !in RouteList(existing)
    {
      RouteIsWritten(insertion, r);
      if r in RouteList(existing) {
        ListedRouteIsWritten(existing, r);
        var k :| 0 <= k < |existing| && Declares(existing[k], r.verb, r.path);
        assert existing[k] in Lines(text);
        var j :| 0 <= j < |Lines(text)| && Lines(text)[j] == existing[k];
        DeclaredOnLine(text, j, r.verb, r.path);
      }
    }
  }

  /** An edit whose decorators all differ from those of the file in verb or path is never taken for a duplicate: an
      insert is not refused as one, and a replacement goes on to the parser and the commit. */
  lemma NewRoutesNotRefused(c: Checks, path: string, text: string, anchor: string, content: string, start: int, end: int)
    requires OnlyNewRoutes(text, EnsureNL(content))
    ensures BeforeVerdict(c, path, text, anchor, content) != Refuse(DuplicateRoute)
    ensures var idx := AfterIndex(Lines(text), anchor);
            idx.Some? && AfterInsertion(text, idx.value, content) == EnsureNL(content) ==>
              AfterVerdict(c, path, text, anchor, content) != Refuse(DuplicateRoute)
    ensures 1 <= start <= end <= |Lines(text)| ==>
              ReplaceVerdict(c, path, text, start, end, content)
              == Finish(c, path, text, Splice(Lines(text), start - 1, end, EnsureNL(content)), EnsureNL(content))
  {
    hide OnlyNewRoutes, EnsureNL, RouteExists, RouteBeforeInit, NearAnchor, Splice, Lines, AfterIndex, FirstIndex,
         AfterInsertion, AfterBlockHeader, AfterDecoratorLine, Finish;
    NewRoutesPass(text, Lines(text), EnsureNL(content));
    NotFinishedAsDuplicate(c, path, text, EnsureNL(content));
    if 1 <= start <= end <= |Lines(text)| {
      NewRoutesPass(text, Lines(text)[..start - 1] + Lines(text)[end..], EnsureNL(content));
    }
  }

  lemma NotFinishedAsDuplicate(c: Checks, path: string, text: string, insertion: string)
    ensures forall merged :: Finish(c, path, text, merged, insertion) != Refuse(DuplicateRoute)
  {
  }

  /** An insert whose first decorator stands in the file as the first one of some line is refused as a duplicate. */
  lemma KnownRouteRefused(c: Checks, path: string, ahead: string, line: string, rest: string, idx: nat, before: string,
                          verb: string, route: string, gap: string, open: string, close: string, after: string,
                          gap': string, open': string, close': string, isAfter: bool)
    requires Terminated(ahead) && !Contains(line, "@app.") && NoNewline(line)
    requires !Contains(before, "@app.") && NoNewline(before)
    requires WellWritten(verb, gap, open, route, close) && WellWritten(verb, gap', open', route, close')
    requires NoNewline(gap) && NoNewline(gap') && NoNewline(route)
    requires idx < |Lines(ahead + (line + Decorator(verb, gap, open, route, close) + rest))|
    ensures var text := ahead + (line + Decorator(verb, gap, open, route, close) + rest);
            var insertion := before + Decorator(verb, gap', open', route, close') + after;
            InsertVerdict(c, path, text, idx, insertion, isAfter) == Refuse(DuplicateRoute)
  {
    hide Contains, WellWritten, NoNewline, Lines, RouteBeforeInit, NearAnchor, RoutesOf, Finish, Decorator;
    var body := line + Decorator(verb, gap, open, route, close) + rest;
    var insertion := before + Decorator(verb, gap', open', route, close') + after;
    TextDeclares(line, verb, gap, open, route, close, rest);
    TextDeclares(before, verb, gap', open', route, close', after);
    RoutesAppend(ahead, body);
    var r := Route(verb, route);
    assert r in RoutesOf(body) && r in RoutesOf(insertion);
    assert r in RoutesOf(ahead + body);
    AsExisting(ahead + body, insertion, r);
  }

  lemma AsExisting(text: string, insertion: string, r: Route)
    requires r in RoutesOf(text) && r in RoutesOf(insertion)
    ensures RouteExists(Lines(text), insertion)
  {
  }

  // ---------------------------------------------------------------- where a text with a route may go

  /** `insert_after` refuses a text that mentions `@app.` behind a line whose stripped text starts with `@`, and behind
      one that ends with `:`, for these reasons and for no others. */
  lemma AfterRefusals(c: Checks, path: string, text: string, anchor: string, content: string, idx: nat)
    requires AfterIndex(Lines(text), anchor) == Some(idx)
    ensures idx < |Lines(text)|
    ensures var s, v := Strip(Lines(text)[idx]), AfterVerdict(c, path, text, anchor, content);
            var marked := Contains(EnsureNL(content), "@app.");
            && (v == Refuse(AfterDecorator) <==> marked && s != "" && s[0] == '@')
            && (v == Refuse(AfterBlock) <==> marked && s != "" && s[0] != '@' && s[|s| - 1] == ':')
  {
    hide Contains, Strip, Lines, EnsureNL, InsertVerdict, AfterIndex, Normalized;
    var line := Lines(text)[idx];
    AfterAt(c, path, text, anchor, content, idx);
    RepeatExact.SameMark(line, EnsureNL(content));
    assert ROUTE_MARK == "@app.";
    FirstAndLast(Strip(line));
    OtherReasons(c, path, text, idx, AfterInsertion(text, idx, content));
  }

  lemma FirstAndLast(s: string)
    ensures StartsWith(s, "@") <==> s != "" && s[0] == '@'
    ensures EndsWith(s, ":") <==> s != "" && s[|s| - 1] == ':'
  {
    if s != "" {
      assert s[..1] == [s[0]] && s[|s| - 1..] == [s[|s| - 1]];
    }
  }

  lemma OtherReasons(c: Checks, path: string, text: string, idx: nat, insertion: string)
    requires idx < |Lines(text)|
    ensures InsertVerdict(c, path, text, idx, insertion, true) != Refuse(AfterDecorator)
    ensures InsertVerdict(c, path, text, idx, insertion, true) != Refuse(AfterBlock)
  {
    hide Lines, RouteExists, RouteBeforeInit, NearAnchor, Splice, IsPython;
  }

  /** So no committed `insert_after` leaves a route behind a decorator or a block header. */
  lemma NoRouteBehindHeader(c: Checks, path: string, text: string, anchor: string, content: string, idx: nat)
    requires AfterVerdict(c, path, text, anchor, content).Commit? && Contains(EnsureNL(content), "@app.")
    requires AfterIndex(Lines(text), anchor) == Some(idx)
    ensures idx < |Lines(text)|
    ensures var s := Strip(Lines(text)[idx]); s == "" || (s[0] != '@' && s[|s| - 1] != ':')
  {
    hide Contains, Strip, Lines, EnsureNL, AfterVerdict, AfterIndex;
    AfterRefusals(c, path, text, anchor, content, idx);
  }

  /** An insert that declares no known route is refused for want of an app initialisation exactly when it mentions
      `@app.` and no line ahead of it holds `app = FastAPI`. */
  lemma InitRefusals(c: Checks, path: string, text: string, idx: nat, insertion: string, after: bool)
    requires idx < |Lines(text)| && !RouteExists(Lines(text), insertion)
    ensures var point := if after then idx + 1 else idx;
            InsertVerdict(c, path, text, idx, insertion, after) == Refuse(BeforeInit)
            <==> Contains(insertion, "@app.") && forall i :: 0 <= i < point ==> !Contains(Lines(text)[i], "app = FastAPI")
  {
    hide Contains, Lines, RouteExists, NearAnchor, Splice, IsPython, FullLine, OpenLine;
    var point := if after then idx + 1 else idx;
    var ahead := Lines(text)[..point];
    JoinLines(text);
    PrefixIsLines(Lines(text), point);
    assert ROUTE_MARK == "@app." && APP_INIT == "app = FastAPI";
    assert NoNewline("app = FastAPI");
    JoinContains(ahead, "app = FastAPI");
    assert forall i :: 0 <= i < point ==> ahead[i] == Lines(text)[i];
  }

  lemma PrefixIsLines(ls: seq<string>, n: nat)
    requires IsLineList(ls) && n <= |ls|
    ensures IsLineList(ls[..n])
  {
  }

  // ---------------------------------------------------------------- anchors

  /** The anchor line of `insert_after`: the first line that holds the anchor; for the anchor `app = FastAPI()`, held by
      no line, the first one with `app = FastAPI(`. */
  lemma AnchorLine(lines: seq<string>, anchor: string, idx: nat)
    ensures AfterIndex(lines, anchor) == Some(idx)
       <==> && idx < |lines|
            && if exists i :: 0 <= i < |lines| && Contains(lines[i], anchor)
               then Contains(lines[idx], anchor) && forall i :: 0 <= i < idx ==> !Contains(lines[i], anchor)
               else && Strip(anchor) == "app = FastAPI()" && Contains(lines[idx], "app = FastAPI(")
                    && forall i :: 0 <= i < idx ==> !Contains(lines[i], "app = FastAPI(")
  {
    hide Contains, Strip, FirstIndex;
    assert APP_INIT_ALIAS == "app = FastAPI()" && APP_INIT_CALL == "app = FastAPI(";
    FirstIndexExactly(lines, anchor, idx);
    FirstIndexExactly(lines, "app = FastAPI(", idx);
    if FirstIndex(lines, anchor).Some? {
      assert Contains(lines[FirstIndex(lines, anchor).value], anchor);
    }
  }

  lemma FirstIndexExactly(lines: seq<string>, t: string, idx: nat)
    ensures FirstIndex(lines, t) == Some(idx)
       <==> idx < |lines| && Contains(lines[idx], t) && forall i :: 0 <= i < idx ==> !Contains(lines[i], t)
  {
    hide Contains;
    if idx < |lines| && Contains(lines[idx], t) && forall i :: 0 <= i < idx ==> !Contains(lines[i], t) {
      FirstIndexIs(lines, t, idx);
    }
  }

  /** The normaliser rewrites exactly the texts with `@app.` that go behind an indented line with `app = FastAPI(`. */
  lemma NormalizesMeans(anchorLine: string, insertion: string)
    ensures Normalizes(anchorLine, insertion)
       <==> && Contains(insertion, "@app.") && Contains(anchorLine, "app = FastAPI(")
            && anchorLine != "" && IsSpace(anchorLine[0])
  {
    hide Contains, SplitLines, FirstNonBlank;
    assert ROUTE_MARK == "@app." && APP_INIT_CALL == "app = FastAPI(";
    if Contains(insertion, "@app.") {
      MarkedContent(insertion);
    }
  }

  // ---------------------------------------------------------------- how far a copy is looked for

  lemma OneLineSize(w: string)
    requires NoBreaks(w)
    ensures WindowSize(w + "\n") == 5
  {
    SplitCons(w, "");
    assert w + "\n" == w + "\n" + "";
    assert SplitLines("") == [];
  }

  lemma StripNewline(w: string)
    ensures Strip(w + "\n") == Strip(w)
  {
    hide Strip;
    NewlineIsBlank();
    StripBlankSuffix(w, "\n");
  }

  lemma NewlineIsBlank()
    ensures Blank("\n")
  {
  }

  lemma StripBlankSuffix(a: string, b: string)
    requires Blank(b)
    ensures Strip(a + b) == Strip(a)
  {
    hide Lead, Trail, Blank, Strip;
    var s := a + b;
    StripShape(a);
    StripShape(s);
    if Blank(a) {
      BlankAppend(a, b);
    } else {
      SameEnds(a, b);
      SliceOfSlice(s, 0, |a|, Lead(a), Trail(a));
      assert s[0..|a|] == a;
    }
  }

  lemma SameEnds(a: string, b: string)
    requires Blank(b) && !Blank(a)
    ensures !Blank(a + b) && Lead(a + b) == Lead(a) && Trail(a + b) == Trail(a)
  {
    hide Lead, Trail;
    var s := a + b;
    StripShape(a);
    assert forall i :: 0 <= i < |a| ==> s[i] == a[i];
    assert forall i :: |a| <= i < |s| ==> s[i] == b[i - |a|];
    assert s[Lead(a)] == a[Lead(a)] && s[Trail(a) - 1] == a[Trail(a) - 1];
  }

  /** A text of one line counts as present exactly when one of the five lines next to the anchor line, on the side of the
      insertion, holds it without its outer spaces. */
  lemma FiveLines(text: string, idx: nat, w: string, after: bool)
    requires idx < |Lines(text)| && NoBreaks(w) && !Blank(w)
    ensures NearAnchor(Lines(text), idx, w + "\n", after)
       <==> exists i :: 0 <= i < |Lines(text)| && (if after then idx < i <= idx + 5 else idx - 5 <= i < idx)
                     && Contains(Lines(text)[i], Strip(w))
  {
    hide Contains, Strip, Lines, Blank, NoBreaks, WindowSize, Tight, FullLine, OpenLine;
    var ls := Lines(text);
    JoinLines(text);
    OneLineSize(w);
    StripNewline(w);
    StripIsTight(w);
    StripShape(w);
    PatternOf(w);
    var lo := if after then idx + 1 else if 5 <= idx then idx - 5 else 0;
    var hi := if !after then idx else if idx + 6 <= |ls| then idx + 6 else |ls|;
    var window := ls[lo..hi];
    SliceIsLines(ls, lo, hi);
    JoinContains(window, Strip(w));
    TightSurvivesStrip(Join(window), Strip(w));
    InWindow(ls, lo, hi, Strip(w));
  }

  lemma InWindow(ls: seq<string>, lo: nat, hi: nat, t: string)
    requires lo <= hi <= |ls|
    ensures (exists i :: 0 <= i < |ls[lo..hi]| && Contains(ls[lo..hi][i], t)) <==>
            exists i :: lo <= i < hi && Contains(ls[i], t)
  {
    hide Contains;
    var window := ls[lo..hi];
    if i :| 0 <= i < |window| && Contains(window[i], t) {
      assert ls[lo + i] == window[i];
      assert Contains(ls[lo + i], t);
    }
    if i :| lo <= i < hi && Contains(ls[i], t) {
      assert window[i - lo] == ls[i];
      assert Contains(window[i - lo], t);
    }
  }

  /** A text counts as present exactly when it is not blank and stands, without its outer spaces, in the joined lines next
      to the anchor line on the side of the insertion, as many as it has itself and four more. */
  lemma NearMeans(lines: seq<string>, idx: nat, insertion: string, after: bool)
    requires idx < |lines|
    ensures var n := |SplitLines(insertion)| + 4;
            NearAnchor(lines, idx, insertion, after) <==>
              && !Blank(insertion)
              && Contains(Join(if after then lines[idx + 1..if idx + 1 + n <= |lines| then idx + 1 + n else |lines|]
                               else lines[if n <= idx then idx - n else 0..idx]),
                          Strip(insertion))
  {
    hide Contains, Strip, Join, Blank, SplitLines;
    StripShape(insertion);
    if !Blank(insertion) {
      SomeLines(insertion);
      StripIsTight(insertion);
      TightSurvivesStrip(Window(lines, idx, WindowSize(insertion), after), Strip(insertion));
    }
  }

  lemma SomeLines(s: string)
    requires !Blank(s)
    ensures SplitLines(s) != []
  {
  }

  lemma PatternOf(w: string)
    requires NoBreaks(w) && !Blank(w)
    ensures Strip(w) != "" && NoNewline(Strip(w))
  {
    hide IsBreak;
    StripShape(w);
    NewlineBreaks();
  }

  lemma SliceIsLines(ls: seq<string>, lo: nat, hi: nat)
    requires IsLineList(ls) && lo <= hi <= |ls|
    ensures IsLineList(ls[lo..hi])
  {
  }

  // ---------------------------------------------------------------- the text that goes in

  /** The content, completed by a newline if it lacks one. */
  predicate Completed(content: string, insertion: string) {
    insertion == if EndsNL(content) then content else content + "\n"
  }

  /** A committed `insert_before` puts just the content ahead of the first line with the anchor. */
  lemma InsertedBefore(c: Checks, path: string, text: string, anchor: string, content: string) returns (k: nat)
    requires BeforeVerdict(c, path, text, anchor, content).Commit?
    ensures k < |Lines(text)| && Contains(Lines(text)[k], anchor)
    ensures forall i :: 0 <= i < k ==> !Contains(Lines(text)[i], anchor)
    ensures exists insertion :: Completed(content, insertion)
              && BeforeVerdict(c, path, text, anchor, content).text
                 == Join(Lines(text)[..k]) + insertion + Join(Lines(text)[k..])
  {
    hide Contains, Lines, BeforeVerdict, InsertVerdict, FirstIndex, Splice, EndsNL, Join;
    BeforeCommitted(c, path, text, anchor, content);
    k := FirstIndex(Lines(text), anchor).value;
    SpliceText(Lines(text), k, k, EnsureNL(content));
    assert Completed(content, EnsureNL(content));
  }

  /** A committed `insert_after` puts just the content behind its anchor line, unless the normaliser rewrites it. */
  lemma InsertedAfter(c: Checks, path: string, text: string, anchor: string, content: string, k: nat)
    requires AfterVerdict(c, path, text, anchor, content).Commit? && AfterIndex(Lines(text), anchor) == Some(k)
    requires !Normalizes(Lines(text)[k], EnsureNL(content))
    ensures exists insertion :: Completed(content, insertion)
              && AfterVerdict(c, path, text, anchor, content).text
                 == Join(Lines(text)[..k + 1]) + insertion + Join(Lines(text)[k + 1..])
  {
    hide Contains, Lines, AfterVerdict, InsertVerdict, AfterIndex, Splice, EndsNL, Join, Normalizes, AfterBlockHeader,
         AfterDecoratorLine;
    AfterCommitted(c, path, text, anchor, content);
    SpliceText(Lines(text), k + 1, k + 1, EnsureNL(content));
    assert Completed(content, EnsureNL(content));
  }

  /** A committed `replace_range` puts just the content in place of the lines `start` to `end`, counted from 1. */
  lemma Replaced(c: Checks, path: string, text: string, start: int, end: int, content: string)
    requires ReplaceVerdict(c, path, text, start, end, content).Commit?
    ensures 1 <= start <= end <= |Lines(text)|
    ensures exists insertion :: Completed(content, insertion)
              && ReplaceVerdict(c, path, text, start, end, content).text
                 == Join(Lines(text)[..start - 1]) + insertion + Join(Lines(text)[end..])
  {
    hide Lines, ReplaceVerdict, Splice, EndsNL, Join;
    ReplaceCommitted(c, path, text, start, end, content);
    SpliceText(Lines(text), start - 1, end, EnsureNL(content));
    assert Completed(content, EnsureNL(content));
  }
}
