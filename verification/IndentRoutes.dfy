/** The indentation normaliser moves routes to the right; it never changes which routes a text declares. */
module IndentRoutes {
  import opened Text
  import opened Insertion
  import opened Indentation

  // ---------------------------------------------------------------- matching behind a prefix

  lemma {:induction false} WordEndShift(p: string, t: string, i: nat)
    requires i <= |t|
    ensures WordEnd(p + t, |p| + i) == |p| + WordEnd(t, i)
    decreases |t| - i
  {
    if i < |t| {
      assert (p + t)[|p| + i] == t[i];
      WordEndShift(p, t, i + 1);
    }
  }

  lemma {:induction false} SpaceEndShift(p: string, t: string, i: nat)
    requires i <= |t|
    ensures SpaceEnd(p + t, |p| + i) == |p| + SpaceEnd(t, i)
    decreases |t| - i
  {
    if i < |t| {
      assert (p + t)[|p| + i] == t[i];
      SpaceEndShift(p, t, i + 1);
    }
  }

  lemma {:induction false} PathEndShift(p: string, t: string, i: nat)
    requires i <= |t|
    ensures PathEnd(p + t, |p| + i) == |p| + PathEnd(t, i)
    decreases |t| - i
  {
    if i < |t| {
      assert (p + t)[|p| + i] == t[i];
      PathEndShift(p, t, i + 1);
    }
  }

  lemma SliceShift(p: string, t: string, i: nat, j: nat)
    requires i <= j <= |t|
    ensures (p + t)[|p| + i..|p| + j] == t[i..j]
  {
    assert p + t + "" == p + t;
    var all := p + t;
    forall k | 0 <= k < j - i
      ensures all[|p| + i..|p| + j][k] == t[i..j][k]
    {
      assert all[|p| + i + k] == t[i + k];
    }
  }

  lemma OccursShift(p: string, t: string, i: nat)
    requires i <= |t|
    ensures OccursAt(p + t, ROUTE_MARK, |p| + i) <==> OccursAt(t, ROUTE_MARK, i)
  {
    if i + |ROUTE_MARK| <= |t| {
      SliceShift(p, t, i, i + |ROUTE_MARK|);
    }
  }

  /** A match moved by `n`. */
  function Moved(m: Option<(Route, nat)>, n: nat): Option<(Route, nat)> {
    match m
    case None => None
    case Some((route, next)) => Some((route, n + next))
  }

  lemma PathAtShift(p: string, t: string, verb: string, q: nat)
    requires q <= |t|
    ensures PathAt(p + t, verb, |p| + q) == Moved(PathAt(t, verb, q), |p|)
  {
    hide PathEnd, IsQuote;
    if q < |t| {
      assert (p + t)[|p| + q] == t[q];
      PathEndShift(p, t, q + 1);
      SliceShift(p, t, q + 1, PathEnd(t, q + 1));
    }
  }

  lemma CallAtShift(p: string, t: string, w: nat)
    requires w <= |t|
    ensures CallAt(p + t, |p| + w) == Moved(CallAt(t, w), |p|)
  {
    hide WordEnd, SpaceEnd, PathAt;
    var e := WordEnd(t, w);
    WordEndShift(p, t, w);
    SliceShift(p, t, w, e);
    if e < |t| {
      assert (p + t)[|p| + e] == t[e];
      SpaceEndShift(p, t, e + 1);
      PathAtShift(p, t, t[w..e], SpaceEnd(t, e + 1));
    }
  }

  lemma RouteAtShift(p: string, t: string, i: nat)
    requires i <= |t|
    ensures RouteAt(p + t, |p| + i) == Moved(RouteAt(t, i), |p|)
  {
    hide CallAt, OccursAt;
    OccursShift(p, t, i);
    if OccursAt(t, ROUTE_MARK, i) {
      MarkFits(t, i);
      CallAtShift(p, t, i + |ROUTE_MARK|);
    }
  }

  lemma MarkFits(t: string, i: nat)
    requires OccursAt(t, ROUTE_MARK, i)
    ensures i + |ROUTE_MARK| <= |t|
  {
  }

  lemma {:induction false} RoutesShift(p: string, t: string, i: nat)
    requires i <= |t|
    ensures RoutesFrom(p + t, |p| + i) == RoutesFrom(t, i)
    decreases |t| - i
  {
    hide RouteAt;
    if i < |t| {
      RouteAtShift(p, t, i);
      match RouteAt(t, i) {
        case Some((_, next)) => RoutesShift(p, t, next);
        case None => RoutesShift(p, t, i + 1);
      }
    }
  }

  // ---------------------------------------------------------------- matching before a newline

  lemma {:induction false} WordEndNL(t: string, i: nat)
    requires i <= |t|
    ensures WordEnd(t + "\n", i) == WordEnd(t, i)
    decreases |t| - i
  {
    if i < |t| {
      assert (t + "\n")[i] == t[i];
      WordEndNL(t, i + 1);
    } else {
      assert (t + "\n")[i] == '\n';
    }
  }

  lemma {:induction false} SpaceEndNL(t: string, i: nat)
    requires i <= |t|
    ensures SpaceEnd(t, i) < |t| ==> SpaceEnd(t + "\n", i) == SpaceEnd(t, i)
    ensures SpaceEnd(t, i) == |t| ==> SpaceEnd(t + "\n", i) == |t| + 1
    decreases |t| - i
  {
    if i < |t| {
      assert (t + "\n")[i] == t[i];
      SpaceEndNL(t, i + 1);
    } else {
      assert (t + "\n")[i] == '\n' && IsSpace('\n');
      assert SpaceEnd(t + "\n", i + 1) == i + 1;
    }
  }

  lemma {:induction false} PathEndNL(t: string, i: nat)
    requires i <= |t|
    ensures PathEnd(t, i) < |t| ==> PathEnd(t + "\n", i) == PathEnd(t, i)
    ensures PathEnd(t, i) == |t| ==> PathEnd(t + "\n", i) == |t| + 1
    decreases |t| - i
  {
    if i < |t| {
      assert (t + "\n")[i] == t[i];
      PathEndNL(t, i + 1);
    } else {
      assert (t + "\n")[i] == '\n';
      assert PathEnd(t + "\n", i + 1) == i + 1;
    }
  }

  lemma OccursNL(t: string, i: nat)
    requires i <= |t|
    ensures OccursAt(t + "\n", ROUTE_MARK, i) <==> OccursAt(t, ROUTE_MARK, i)
  {
    var s := t + "\n";
    assert s[|t|] == '\n' && ROUTE_MARK[4] == '.';
    assert OccursAt(s, ROUTE_MARK, i) ==> s[i + 4] == s[i..i + 5][4];
    if i + |ROUTE_MARK| <= |t| {
      assert s[i..i + |ROUTE_MARK|] == t[i..i + |ROUTE_MARK|];
    }
  }

  lemma SliceNL(t: string, i: nat, j: nat)
    requires i <= j <= |t|
    ensures (t + "\n")[i..j] == t[i..j]
  {
  }

  lemma PathAtNL(t: string, verb: string, q: nat)
    requires q <= |t|
    ensures PathAt(t + "\n", verb, q) == PathAt(t, verb, q)
  {
    hide PathEnd;
    var s := t + "\n";
    assert s[|t|] == '\n';
    if q < |t| {
      assert s[q] == t[q];
      PathEndNL(t, q + 1);
      SliceNL(t, q + 1, PathEnd(t, q + 1));
    }
  }

  lemma CallAtNL(t: string, w: nat)
    requires w <= |t|
    ensures CallAt(t + "\n", w) == CallAt(t, w)
  {
    hide WordEnd, SpaceEnd, PathEnd;
    var s, e := t + "\n", WordEnd(t, w);
    assert s[|t|] == '\n';
    WordEndNL(t, w);
    SliceNL(t, w, e);
    if e < |t| {
      assert s[e] == t[e];
      SpaceEndNL(t, e + 1);
      PathAtNL(t, t[w..e], SpaceEnd(t, e + 1));
    }
  }

  lemma RouteAtNL(t: string, i: nat)
    requires i <= |t|
    ensures RouteAt(t + "\n", i) == RouteAt(t, i)
  {
    hide CallAt, OccursAt;
    OccursNL(t, i);
    if OccursAt(t, ROUTE_MARK, i) {
      MarkFits(t, i);
      CallAtNL(t, i + |ROUTE_MARK|);
    }
  }

  /** Ending a line with a newline completes no route. */
  lemma {:induction false} RoutesBeforeNewline(t: string, i: nat)
    requires i <= |t|
    ensures RoutesFrom(t + "\n", i) == RoutesFrom(t, i)
    decreases |t| - i
  {
    hide RouteAt;
    RouteAtNL(t, i);
    if i < |t| {
      match RouteAt(t, i) {
        case Some((_, next)) => RoutesBeforeNewline(t, next);
        case None => RoutesBeforeNewline(t, i + 1);
      }
    } else {
      NoRouteAtEnd(t);
    }
  }

  lemma NoRouteAtEnd(t: string)
    ensures RouteAt(t + "\n", |t|) == None
    ensures RoutesFrom(t + "\n", |t|) == []
  {
    NoRouteHere(t + "\n", |t|);
    assert RoutesFrom(t + "\n", |t| + 1) == [];
  }

  predicate NoAt(s: string) {
    forall i :: 0 <= i < |s| ==> s[i] != '@'
  }

  lemma MarkAtSign(s: string, i: nat)
    requires i < |s|
    ensures OccursAt(s, ROUTE_MARK, i) ==> s[i] == '@'
  {
    if OccursAt(s, ROUTE_MARK, i) {
      MarkFits(s, i);
      assert s[i..i + |ROUTE_MARK|][0] == s[i];
    }
  }

  lemma NoRouteHere(s: string, i: nat)
    requires i < |s| && s[i] != '@'
    ensures RouteAt(s, i) == None
  {
    MarkAtSign(s, i);
  }

  /** Text ahead of a line that holds no `@` adds no route to it. */
  lemma {:induction false} RoutesBehind(p: string, t: string, k: nat)
    requires NoAt(p) && k <= |p|
    ensures RoutesFrom(p + t, k) == RoutesFrom(t, 0)
    decreases |p| - k
  {
    hide RouteAt;
    if k == |p| {
      RoutesShift(p, t, 0);
    } else {
      assert (p + t)[k] == p[k];
      NoRouteHere(p + t, k);
      RoutesBehind(p, t, k + 1);
    }
  }

  lemma BlankHasNoAt(s: string)
    requires Blank(s)
    ensures NoAt(s)
  {
    PrintableIsInk('@');
  }

  // ---------------------------------------------------------------- routes of texts put together

  lemma RoutesAppend(a: string, b: string)
    requires Terminated(a)
    ensures RoutesOf(a + b) == RoutesOf(a) + RoutesOf(b)
  {
    hide Lines, RouteList;
    LinesAppend(a, b);
    RouteListAppend(Lines(a), Lines(b));
  }

  /** Blanks at the start of a line add no route. */
  lemma RoutesBehindBlanks(blank: string, t: string)
    requires Blank(blank) && NoNewline(blank) && t != ""
    ensures RoutesOf(blank + t) == RoutesOf(t)
  {
    hide RoutesFrom, Blank;
    if blank == "" {
      assert blank + t == t;
    } else {
      GluedLines(blank, t);
      LinesHead(t);
      BlankHasNoAt(blank);
      RoutesBehind(blank, Lines(t)[0], 0);
      assert Lines(blank + t)[1..] == Lines(t)[1..];
    }
  }

  /** Nor does any other whitespace, line boundaries included. */
  lemma {:induction false} RoutesBehindSpace(blank: string, t: string)
    requires Blank(blank) && t != ""
    ensures RoutesOf(blank + t) == RoutesOf(t)
    decreases |blank|
  {
    hide RoutesOf, Lines;
    if NoNewline(blank) {
      RoutesBehindBlanks(blank, t);
    } else {
      var i :| 0 <= i < |blank| && blank[i] == '\n';
      var a, b := blank[..i + 1], blank[i + 1..];
      assert blank + t == a + (b + t);
      RoutesAppend(a, b + t);
      BlankDeclaresNothing(a);
      RoutesBehindSpace(b, t);
    }
  }

  // ---------------------------------------------------------------- line by line

  /** The routes of the lines, each put on its own. */
  function RoutesOfEach(ls: seq<string>): seq<Route> {
    if ls == [] then [] else RoutesOf(ls[0] + "\n") + RoutesOfEach(ls[1..])
  }

  lemma {:induction false} RoutesOfJoined(ls: seq<string>)
    requires ls != []
    ensures RoutesOf(JoinNL(ls) + "\n") == RoutesOfEach(ls)
  {
    hide RoutesOf;
    if |ls| == 1 {
      assert RoutesOfEach(ls[1..]) == [];
    } else {
      RoutesOfJoined(ls[1..]);
      assert JoinNL(ls) + "\n" == (ls[0] + "\n") + (JoinNL(ls[1..]) + "\n");
      RoutesAppend(ls[0] + "\n", JoinNL(ls[1..]) + "\n");
    }
  }

  lemma {:induction false} SameRoutesOfEach(a: seq<string>, b: seq<string>)
    requires |a| == |b| && forall i :: 0 <= i < |a| ==> RoutesOf(a[i] + "\n") == RoutesOf(b[i] + "\n")
    ensures RoutesOfEach(a) == RoutesOfEach(b)
  {
    hide RoutesOf;
    if a != [] {
      SameRoutesOfEach(a[1..], b[1..]);
    }
  }

  lemma BlankLineRoutes(l: string)
    requires Blank(l)
    ensures RoutesOf(l + "\n") == []
  {
    hide RoutesOf;
    assert IsSpace('\n');
    BlankDeclaresNothing(l + "\n");
  }

  lemma ReindentedRoutes(indent: string, l: string, cut: nat)
    requires Blank(indent) && cut <= Blanks(l)
    ensures RoutesOf(indent + l[cut..] + "\n") == RoutesOf(l + "\n")
  {
    hide RoutesOf;
    assert IsSpace(' ');
    var t := l[cut..] + "\n";
    assert indent + l[cut..] + "\n" == indent + t;
    RoutesBehindSpace(indent, t);
    assert l + "\n" == l[..cut] + t;
    RoutesBehindSpace(l[..cut], t);
  }

  // ---------------------------------------------------------------- line boundaries as newlines

  predicate PlainBreaks(s: string) {
    forall i :: 0 <= i < |s| && IsBreak(s[i]) ==> s[i] == '\n'
  }

  /** The text with every line boundary turned into a newline. */
  function Plain(s: string): (r: string)
    ensures |r| == |s|
  {
    seq(|s|, i requires 0 <= i < |s| => if IsBreak(s[i]) then '\n' else s[i])
  }

  lemma PlainUnbroken(s: string)
    requires NoBreaks(s)
    ensures Plain(s) == s
  {
    hide IsBreak;
  }

  /** Splitting a text into lines and joining them again does just that. */
  lemma {:induction false} JoinSplit(s: string)
    requires EndsNL(s)
    ensures SplitLines(s) != [] && JoinNL(SplitLines(s)) + "\n" == Plain(s)
    decreases |s|
  {
    hide IsBreak, Plain, JoinNL;
    NewlineBreaks();
    var b := BreakAt(s);
    var l, rest := s[..b], s[b + 1..];
    PlainUnbroken(l);
    PlainParts(s, b);
    if rest == "" {
      assert SplitLines(rest) == [] && SplitLines(s) == [l] + SplitLines(rest);
      JoinOneLine(l, []);
      PlainUnbroken("");
    } else {
      assert rest[|rest| - 1] == s[|s| - 1];
      JoinSplit(rest);
      JoinOneLine(l, SplitLines(rest));
    }
  }

  lemma JoinOneLine(l: string, ls: seq<string>)
    ensures JoinNL([l] + ls) + "\n" == l + "\n" + if ls == [] then "" else JoinNL(ls) + "\n"
  {
    assert ([l] + ls)[1..] == ls;
  }

  lemma PlainParts(s: string, b: nat)
    requires b < |s| && IsBreak(s[b])
    ensures Plain(s) == Plain(s[..b]) + "\n" + Plain(s[b + 1..])
  {
    hide IsBreak;
  }

  // ---------------------------------------------------------------- the normaliser

  lemma IndentIsBlank(anchorLine: string)
    ensures Blank(AnchorIndent(anchorLine))
  {
  }

  /** Line by line the normaliser keeps the routes. */
  lemma NormalLinesKeepRoutes(indent: string, ls: seq<string>)
    requires Blank(indent)
    ensures |NormalLines(indent, ls)| == |ls| && RoutesOfEach(NormalLines(indent, ls)) == RoutesOfEach(ls)
  {
    hide RoutesOf, Blank, Blanks, Cut, NormalLines;
    var out := NormalLines(indent, ls);
    NormaliserShape(indent, ls);
    forall i | 0 <= i < |ls|
      ensures RoutesOf(out[i] + "\n") == RoutesOf(ls[i] + "\n")
    {
      NormalLinesAt(indent, ls, i);
      if Blank(ls[i]) {
        NothingIsBlank();
        BlankLineRoutes(ls[i]);
        BlankLineRoutes(out[i]);
      } else {
        ReindentedRoutes(indent, ls[i], Cut(ContentLines(ls), i - Ahead(ls)));
      }
    }
    SameRoutesOfEach(out, ls);
  }

  lemma NothingIsBlank()
    ensures Blank("")
  {
  }

  /** A normalised insertion declares the routes that it declares with every line boundary read as a newline, in order
      and number. */
  lemma NormaliserRoutes(anchorLine: string, insertion: string)
    requires EndsNL(insertion) && Normalizes(anchorLine, insertion)
    ensures RoutesOf(Normalized(anchorLine, insertion)) == RoutesOf(Plain(insertion))
  {
    hide RoutesOf, RoutesOfEach, Contains, NormalLines, SplitLines, Plain;
    var indent, ls := AnchorIndent(anchorLine), SplitLines(insertion);
    IndentIsBlank(anchorLine);
    JoinSplit(insertion);
    NormalLinesKeepRoutes(indent, ls);
    RoutesOfJoined(ls);
    RoutesOfJoined(NormalLines(indent, ls));
  }

  /** So the routes stay exactly when nothing is rewritten or reading the other line boundaries as newlines changes
      none of them; in particular when newlines are the only line boundaries. */
  lemma NormaliserKeepsRoutes(anchorLine: string, insertion: string)
    requires EndsNL(insertion)
    ensures RoutesOf(Normalized(anchorLine, insertion)) == RoutesOf(insertion)
       <==> !Normalizes(anchorLine, insertion) || RoutesOf(Plain(insertion)) == RoutesOf(insertion)
    ensures PlainBreaks(insertion) ==> RoutesOf(Normalized(anchorLine, insertion)) == RoutesOf(insertion)
  {
    hide RoutesOf, Normalizes, IsBreak, JoinNL;
    if Normalizes(anchorLine, insertion) {
      NormaliserRoutes(anchorLine, insertion);
    }
    if PlainBreaks(insertion) {
      assert Plain(insertion) == insertion;
    }
  }
}
