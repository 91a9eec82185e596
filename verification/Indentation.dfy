/** What the indentation normaliser does to a text, line by line, and when applying it twice is the same as
    applying it once. */
module Indentation {
  import opened Text
  import opened Insertion

  // ---------------------------------------------------------------- splitting joined lines

  predicate UnbrokenLines(ls: seq<string>) {
    forall i :: 0 <= i < |ls| ==> NoBreaks(ls[i])
  }

  lemma BreakAtUnique(l: string, c: char, rest: string)
    requires NoBreaks(l) && IsBreak(c)
    ensures BreakAt(l + [c] + rest) == |l|
  {
    var s := l + [c] + rest;
    assert s[|l|] == c;
    assert forall i :: 0 <= i < |l| ==> s[i] == l[i];
  }

  lemma SplitCons(l: string, rest: string)
    requires NoBreaks(l)
    ensures SplitLines(l + "\n" + rest) == [l] + SplitLines(rest)
  {
    var s := l + "\n" + rest;
    BreakAtUnique(l, '\n', rest);
    assert s == l + ['\n'] + rest;
    assert s[..|l|] == l && s[|l| + 1..] == rest;
  }

  lemma {:induction false} SplitJoin(ls: seq<string>)
    requires ls != [] && UnbrokenLines(ls)
    ensures SplitLines(JoinNL(ls) + "\n") == ls
  {
    hide NoBreaks, SplitLines, BreakAt;
    if |ls| == 1 {
      assert ls[0] + "\n" == ls[0] + "\n" + "";
      SplitCons(ls[0], "");
      NothingSplits();
    } else {
      SplitJoin(ls[1..]);
      SplitCons(ls[0], JoinNL(ls[1..]) + "\n");
      JoinNLCons(ls);
    }
  }

  lemma NothingSplits()
    ensures SplitLines("") == []
  {
  }

  lemma JoinNLCons(ls: seq<string>)
    requires |ls| > 1
    ensures JoinNL(ls) + "\n" == ls[0] + "\n" + (JoinNL(ls[1..]) + "\n")
  {
    Regrouped(ls[0] + "\n", JoinNL(ls[1..]), "\n");
  }

  lemma {:induction false} SplitUnbroken(s: string)
    ensures UnbrokenLines(SplitLines(s))
    decreases |s|
  {
    if s != "" && BreakAt(s) < |s| {
      SplitUnbroken(s[BreakAt(s) + 1..]);
    }
  }

  lemma NotAcrossBreak(s: string, t: string, p: nat, b: nat)
    requires OccursAt(s, t, p) && NoBreaks(t) && b < |s| && IsBreak(s[b]) && p + |t| > b
    ensures p > b
  {
    hide IsBreak;
    OccursChars(s, t, p);
    if p <= b {
      InsideOccurrence(s, t, p, b);
    }
  }

  lemma SplitFirst(s: string)
    requires s != "" && BreakAt(s) < |s|
    ensures SplitLines(s) == [s[..BreakAt(s)]] + SplitLines(s[BreakAt(s) + 1..])
  {
    hide BreakAt, IsBreak;
  }

  /** A pattern without line boundary lies within one of the split lines. */
  lemma {:induction false} SplitFindsLine(s: string, t: string)
    requires t != "" && NoBreaks(t) && Contains(s, t)
    ensures exists i :: 0 <= i < |SplitLines(s)| && Contains(SplitLines(s)[i], t)
    decreases |s|
  {
    hide IsBreak, OccursAt, NoBreaks, Contains, SplitLines;
    var p := Occurrence(s, t);
    var b := BreakAt(s);
    if b == |s| {
      WholeLine(s);
      assert Contains(SplitLines(s)[0], t);
    } else {
      SplitFirst(s);
      var rest := s[b + 1..];
      if p + |t| <= b {
        OccursInSlice(s, t, p, 0, b);
        assert s[0..b] == s[..b];
        assert Contains(SplitLines(s)[0], t);
      } else {
        NotAcrossBreak(s, t, p, b);
        OccursInSlice(s, t, p, b + 1, |s|);
        assert s[b + 1..|s|] == rest;
        SplitFindsLine(rest, t);
        var i :| 0 <= i < |SplitLines(rest)| && Contains(SplitLines(rest)[i], t);
        assert SplitLines(s)[i + 1] == SplitLines(rest)[i];
      }
    }
  }

  lemma WholeLine(s: string)
    requires s != "" && BreakAt(s) == |s|
    ensures SplitLines(s) == [s]
  {
  }

  lemma Occurrence(s: string, t: string) returns (p: nat)
    requires Contains(s, t)
    ensures OccursAt(s, t, p) && p + |t| <= |s|
  {
    p :| 0 <= p <= |s| - |t| && OccursAt(s, t, p);
  }

  lemma {:induction false} ContainsInJoinNL(ls: seq<string>, i: nat, t: string)
    requires i < |ls| && Contains(ls[i], t)
    ensures Contains(JoinNL(ls) + "\n", t)
  {
    var s := JoinNL(ls) + "\n";
    if |ls| == 1 {
      assert s == "" + ls[0] + "\n";
      ContainsInContext("", ls[0], "\n", t);
    } else if i == 0 {
      assert s == "" + ls[0] + ("\n" + JoinNL(ls[1..]) + "\n");
      ContainsInContext("", ls[0], "\n" + JoinNL(ls[1..]) + "\n", t);
    } else {
      ContainsInJoinNL(ls[1..], i - 1, t);
      assert s == (ls[0] + "\n") + (JoinNL(ls[1..]) + "\n") + "";
      ContainsInContext(ls[0] + "\n", JoinNL(ls[1..]) + "\n", "", t);
    }
  }

  // ---------------------------------------------------------------- one line

  lemma BlanksPrefix(indent: string, s: string)
    requires AllBlanks(indent)
    ensures Blanks(indent + s) == |indent| + Blanks(s)
  {
    var t := indent + s;
    assert forall i :: 0 <= i < |indent| + Blanks(s) ==> t[i] == if i < |indent| then indent[i] else s[i - |indent|];
    assert Blanks(s) < |s| ==> t[|indent| + Blanks(s)] == s[Blanks(s)];
  }

  lemma InkAfterBlanks(indent: string, line: string, cut: nat)
    requires !Blank(line) && cut <= Blanks(line)
    ensures !Blank(indent + line[cut..])
  {
    var j :| 0 <= j < |line| && !IsSpace(line[j]);
    assert IsSpace(' ');
    assert Blanks(line) <= j;
    assert (indent + line[cut..])[|indent| + j - cut] == line[j];
  }

  lemma DropBlanks(line: string, k: nat)
    requires k <= Blanks(line)
    ensures Blanks(line[k..]) == Blanks(line) - k
    ensures line[k..][Blanks(line[k..])..] == line[Blanks(line)..]
  {
    var t := line[k..];
    assert forall i :: 0 <= i < Blanks(line) - k ==> t[i] == line[k + i];
    assert Blanks(line) < |line| ==> t[Blanks(line) - k] == line[Blanks(line)];
  }

  // ---------------------------------------------------------------- all lines

  /** The amount of indentation that the line at `i` of the content loses. */
  function Cut(content: seq<string>, i: nat): nat
    requires i < |content|
  {
    var f := FirstNonBlank(content);
    if i == f then Blanks(content[i]) else if f == |content| then 0 else BaseIndent(content[f + 1..])
  }

  lemma CutAtMost(content: seq<string>, i: nat)
    requires i < |content| && !Blank(content[i])
    ensures Cut(content, i) <= Blanks(content[i])
  {
    var f := FirstNonBlank(content);
    if i != f {
      assert content[f + 1..][i - f - 1] == content[i];
    }
  }

  lemma IndentLinesAt(indent: string, content: seq<string>, i: nat)
    requires i < |content|
    ensures Blank(content[i]) ==> IndentLines(indent, content)[i] == content[i]
    ensures !Blank(content[i]) ==>
              && Cut(content, i) <= Blanks(content[i])
              && !Blank(IndentLines(indent, content)[i])
              && IndentLines(indent, content)[i] == indent + content[i][Cut(content, i)..]
  {
    if !Blank(content[i]) {
      CutAtMost(content, i);
      InkAfterBlanks(indent, content[i], Cut(content, i));
    }
  }

  /** Indenting moves no blank line, so the first non-blank line stays where it is. */
  lemma SameFirstNonBlank(indent: string, content: seq<string>)
    ensures FirstNonBlank(IndentLines(indent, content)) == FirstNonBlank(content)
  {
    var out := IndentLines(indent, content);
    forall i | 0 <= i < |content|
      ensures Blank(out[i]) == Blank(content[i])
    {
      IndentLinesAt(indent, content, i);
    }
  }

  /** The least indentation is attained, so below a blank indentation the new least indentation of the body is
      exactly the width of that indentation. */
  lemma {:induction false} MinBlanksShift(ls: seq<string>, out: seq<string>, indent: string, base: nat)
    requires |out| == |ls| && AllBlanks(indent)
    requires forall i :: 0 <= i < |ls| ==> Blank(out[i]) == Blank(ls[i])
    requires forall i :: 0 <= i < |ls| && !Blank(ls[i]) ==> base <= Blanks(ls[i]) && out[i] == indent + ls[i][base..]
    ensures MinBlanks(out).Some? == MinBlanks(ls).Some?
    ensures MinBlanks(ls).Some? ==> MinBlanks(out).value + base == |indent| + MinBlanks(ls).value
  {
    if ls != [] {
      MinBlanksShift(ls[1..], out[1..], indent, base);
      if !Blank(ls[0]) {
        BlanksPrefix(indent, ls[0][base..]);
        DropBlanks(ls[0], base);
      }
    }
  }

  lemma SecondCut(indent: string, content: seq<string>, i: nat)
    requires AllBlanks(indent) && i < |content| && !Blank(content[i])
    ensures Cut(IndentLines(indent, content), i) == |indent|
  {
    hide IndentLines, Blank, Blanks, FirstNonBlank;
    var out := IndentLines(indent, content);
    var f := FirstNonBlank(content);
    SameFirstNonBlank(indent, content);
    IndentLinesAt(indent, content, i);
    if i == f {
      DropBlanks(content[i], Blanks(content[i]));
      BlanksPrefix(indent, content[i][Blanks(content[i])..]);
    } else {
      var body, after := content[f + 1..], out[f + 1..];
      var base := BaseIndent(body);
      assert body[i - f - 1] == content[i];
      forall k | 0 <= k < |body|
        ensures Blank(after[k]) == Blank(body[k])
        ensures !Blank(body[k]) ==> base <= Blanks(body[k]) && after[k] == indent + body[k][base..]
      {
        IndentLinesAt(indent, content, f + 1 + k);
        assert body[k] == content[f + 1 + k] && after[k] == out[f + 1 + k];
      }
      MinBlanksShift(body, after, indent, base);
    }
  }

  lemma IndentLinesTwice(indent: string, content: seq<string>)
    requires AllBlanks(indent)
    ensures IndentLines(indent, IndentLines(indent, content)) == IndentLines(indent, content)
  {
    var out := IndentLines(indent, content);
    forall i | 0 <= i < |content|
      ensures IndentLines(indent, out)[i] == out[i]
    {
      IndentLinesAt(indent, content, i);
      IndentLinesAt(indent, out, i);
      if !Blank(content[i]) {
        SecondCut(indent, content, i);
        assert out[i][|indent|..] == content[i][Cut(content, i)..];
      }
    }
  }

  /** With a tab in the indentation the route line is pushed further right every time. */
  lemma FirstLineMoves(indent: string, content: seq<string>)
    requires !AllBlanks(indent) && FirstNonBlank(content) < |content|
    ensures IndentLines(indent, IndentLines(indent, content)) != IndentLines(indent, content)
  {
    var out := IndentLines(indent, content);
    var f := FirstNonBlank(content);
    SameFirstNonBlank(indent, content);
    IndentLinesAt(indent, content, f);
    IndentLinesAt(indent, out, f);
    var k :| 0 <= k < |indent| && indent[k] != ' ';
    assert out[f][k] == indent[k];
    assert Blanks(out[f]) <= k;
    assert |IndentLines(indent, out)[f]| > |out[f]|;
  }

  lemma ContentOfNormal(indent: string, ls: seq<string>)
    ensures LeadingBlank(NormalLines(indent, ls)) <==> LeadingBlank(ls)
    ensures ContentLines(NormalLines(indent, ls)) == IndentLines(indent, ContentLines(ls))
  {
    var content := ContentLines(ls);
    if !LeadingBlank(ls) && ls != [] {
      IndentLinesAt(indent, content, 0);
    }
  }

  /** Number of lines kept ahead of the content: 0 or 1. */
  function Ahead(ls: seq<string>): nat {
    if LeadingBlank(ls) then 1 else 0
  }

  lemma ContentAt(ls: seq<string>)
    ensures |ContentLines(ls)| == |ls| - Ahead(ls)
    ensures forall i :: Ahead(ls) <= i < |ls| ==> ContentLines(ls)[i - Ahead(ls)] == ls[i]
  {
  }

  lemma NormalLinesAt(indent: string, ls: seq<string>, i: nat)
    requires i < |ls|
    ensures |NormalLines(indent, ls)| == |ls|
    ensures Blank(ls[i]) ==> NormalLines(indent, ls)[i] == if i == 0 then "" else ls[i]
    ensures !Blank(ls[i]) ==> Ahead(ls) <= i && |ContentLines(ls)| == |ls| - Ahead(ls)
    ensures !Blank(ls[i]) ==>
              var cut := Cut(ContentLines(ls), i - Ahead(ls));
              cut <= Blanks(ls[i]) && NormalLines(indent, ls)[i] == indent + ls[i][cut..]
  {
    hide Cut, Blanks, IndentLines;
    ContentAt(ls);
    if i >= Ahead(ls) {
      assert ContentLines(ls)[i - Ahead(ls)] == ls[i];
      assert NormalLines(indent, ls)[i] == IndentLines(indent, ContentLines(ls))[i - Ahead(ls)];
      IndentLinesAt(indent, ContentLines(ls), i - Ahead(ls));
    }
  }

  /** The line at `i` of the result is the line at `i` behind the indentation, without some of its blanks. */
  ghost predicate Reindented(indent: string, line: string, r: string) {
    exists cut :: 0 <= cut <= Blanks(line) && r == indent + line[cut..]
  }

  /** What the normaliser does, line by line: the number of lines stays; a blank line stays as it is, except that
      a blank first line is emptied; every other line starts with the anchor's indentation and keeps its text. */
  lemma NormaliserShape(indent: string, ls: seq<string>)
    ensures |NormalLines(indent, ls)| == |ls|
    ensures forall i :: 0 <= i < |ls| && Blank(ls[i]) ==> NormalLines(indent, ls)[i] == if i == 0 then "" else ls[i]
    ensures forall i :: 0 <= i < |ls| && !Blank(ls[i]) ==> Reindented(indent, ls[i], NormalLines(indent, ls)[i])
  {
    var out := NormalLines(indent, ls);
    forall i | 0 <= i < |ls|
      ensures Blank(ls[i]) ==> out[i] == if i == 0 then "" else ls[i]
      ensures !Blank(ls[i]) ==> Reindented(indent, ls[i], out[i])
    {
      NormalLinesAt(indent, ls, i);
    }
  }

  /** Two lines below the first route line keep their relative indentation. */
  lemma NormaliserKeepsRelativeIndent(indent: string, ls: seq<string>, i: nat, j: nat)
    requires AllBlanks(indent)
    requires Ahead(ls) + FirstNonBlank(ContentLines(ls)) < i < |ls| && !Blank(ls[i])
    requires Ahead(ls) + FirstNonBlank(ContentLines(ls)) < j < |ls| && !Blank(ls[j])
    ensures |NormalLines(indent, ls)| == |ls|
    ensures Blanks(NormalLines(indent, ls)[i]) - Blanks(NormalLines(indent, ls)[j]) == Blanks(ls[i]) - Blanks(ls[j])
  {
    var d := Ahead(ls);
    NormalLinesAt(indent, ls, i);
    NormalLinesAt(indent, ls, j);
    var c := Cut(ContentLines(ls), i - d);
    assert c == Cut(ContentLines(ls), j - d);
    BlanksPrefix(indent, ls[i][c..]);
    BlanksPrefix(indent, ls[j][c..]);
    DropBlanks(ls[i], c);
    DropBlanks(ls[j], c);
  }

  // ---------------------------------------------------------------- the text as a whole

  lemma NormalUnbroken(indent: string, ls: seq<string>)
    requires NoBreaks(indent) && UnbrokenLines(ls)
    ensures UnbrokenLines(NormalLines(indent, ls))
  {
    forall i | 0 <= i < |NormalLines(indent, ls)|
      ensures NoBreaks(NormalLines(indent, ls)[i])
    {
      hide NormalLines, Cut, Blank, Blanks;
      NormalLinesAt(indent, ls, i);
    }
  }

  /** Splitting the normalised text gives the normalised lines. */
  lemma NormalizedLines(anchorLine: string, insertion: string)
    requires EndsNL(insertion) && NoBreaks(AnchorIndent(anchorLine)) && Normalizes(anchorLine, insertion)
    ensures SplitLines(Normalized(anchorLine, insertion)) == NormalLines(AnchorIndent(anchorLine), SplitLines(insertion))
  {
    var indent, ls := AnchorIndent(anchorLine), SplitLines(insertion);
    SplitUnbroken(insertion);
    NormalUnbroken(indent, ls);
    SplitJoin(NormalLines(indent, ls));
  }

  lemma MarkUnbroken()
    ensures NoBreaks(ROUTE_MARK) && NoNewline(ROUTE_MARK) && Tight(ROUTE_MARK)
  {
    assert ROUTE_MARK == ['@', 'a', 'p', 'p', '.'];
    PrintableIsInk('@');
    PrintableIsInk('a');
    PrintableIsInk('p');
    PrintableIsInk('.');
  }

  lemma MarkAfterBlanks(line: string, cut: nat)
    requires cut <= Blanks(line) && Contains(line, ROUTE_MARK)
    ensures Contains(line[cut..], ROUTE_MARK)
  {
    var p :| 0 <= p <= |line| - |ROUTE_MARK| && OccursAt(line, ROUTE_MARK, p);
    assert line[p] == line[p..p + |ROUTE_MARK|][0] == '@';
    assert cut <= p;
    assert line[cut..][p - cut..p - cut + |ROUTE_MARK|] == line[p..p + |ROUTE_MARK|];
    assert OccursAt(line[cut..], ROUTE_MARK, p - cut);
  }

  lemma MarkedIsInk(line: string)
    requires Contains(line, ROUTE_MARK)
    ensures !Blank(line)
  {
    MarkUnbroken();
    TightSurvivesStrip(line, ROUTE_MARK);
    StripShape(line);
  }

  lemma BlankDeclaresNothing(insertion: string)
    requires Blank(insertion)
    ensures RoutesOf(insertion) == []
  {
    if Contains(insertion, ROUTE_MARK) {
      MarkedIsInk(insertion);
    } else {
      RoutesNeedMark(insertion);
    }
  }

  /** A text that mentions a route has a line that is not blank. */
  lemma MarkedContent(s: string)
    requires Contains(s, ROUTE_MARK)
    ensures var content := ContentLines(SplitLines(s)); FirstNonBlank(content) < |content|
  {
    hide Contains, SplitLines, Blank;
    MarkUnbroken();
    SplitFindsLine(s, ROUTE_MARK);
    var ls := SplitLines(s);
    var i :| 0 <= i < |ls| && Contains(ls[i], ROUTE_MARK);
    MarkedIsInk(ls[i]);
    ContentAt(ls);
    if i >= Ahead(ls) {
      assert ContentLines(ls)[i - Ahead(ls)] == ls[i];
    }
  }

  /** The normalised text still mentions a route. */
  lemma KeepsMark(anchorLine: string, insertion: string)
    requires EndsNL(insertion) && Normalizes(anchorLine, insertion)
    ensures Contains(Normalized(anchorLine, insertion), ROUTE_MARK)
  {
    hide Contains, SplitLines, Blank, Cut;
    var indent, ls := AnchorIndent(anchorLine), SplitLines(insertion);
    var out := NormalLines(indent, ls);
    MarkUnbroken();
    SplitFindsLine(insertion, ROUTE_MARK);
    var i :| 0 <= i < |ls| && Contains(ls[i], ROUTE_MARK);
    MarkedIsInk(ls[i]);
    NormalLinesAt(indent, ls, i);
    var cut := Cut(ContentLines(ls), i - Ahead(ls));
    MarkAfterBlanks(ls[i], cut);
    assert out[i] == indent + ls[i][cut..] + "";
    ContainsInContext(indent, ls[i][cut..], "", ROUTE_MARK);
    ContainsInJoinNL(out, i, ROUTE_MARK);
  }

  /** So it meets the normaliser's conditions again. */
  lemma StillNormalizes(anchorLine: string, insertion: string)
    requires EndsNL(insertion) && Normalizes(anchorLine, insertion)
    ensures Normalizes(anchorLine, Normalized(anchorLine, insertion))
  {
    hide Normalized, Contains, SplitLines, FirstNonBlank;
    KeepsMark(anchorLine, insertion);
    MarkedContent(Normalized(anchorLine, insertion));
  }

  lemma NormalizedBlank(anchorLine: string, insertion: string)
    requires EndsNL(insertion)
    ensures Blank(Normalized(anchorLine, insertion)) <==> Blank(insertion)
  {
    if Normalizes(anchorLine, insertion) {
      hide Normalized, Blank, Contains;
      KeepsMark(anchorLine, insertion);
      MarkedIsInk(insertion);
      MarkedIsInk(Normalized(anchorLine, insertion));
    }
  }

  // ---------------------------------------------------------------- counting line boundaries

  function BreakCount(s: string): nat {
    if s == "" then 0 else (if IsBreak(s[0]) then 1 else 0) + BreakCount(s[1..])
  }

  lemma {:induction false} BreakCountAppend(a: string, b: string)
    ensures BreakCount(a + b) == BreakCount(a) + BreakCount(b)
  {
    hide IsBreak;
    if a == "" {
      assert a + b == b;
    } else {
      BreakCountAppend(a[1..], b);
      assert (a + b)[1..] == a[1..] + b;
    }
  }

  lemma {:induction false} NoBreaksCount(s: string)
    ensures BreakCount(s) == 0 <==> NoBreaks(s)
  {
    hide IsBreak;
    if s != "" {
      NoBreaksCount(s[1..]);
      assert forall i :: 0 < i < |s| ==> s[i] == s[1..][i - 1];
    }
  }

  lemma BreakIsOne(c: char)
    requires IsBreak(c)
    ensures BreakCount([c]) == 1
  {
    assert BreakCount([c][1..]) == 0;
  }

  /** A text that ends with a newline has as many lines as line boundaries. */
  lemma {:induction false} SplitCountsBreaks(s: string)
    requires Terminated(s)
    ensures |SplitLines(s)| == BreakCount(s)
    decreases |s|
  {
    hide IsBreak;
    if s != "" {
      hide BreakCount;
      NewlineBreaks();
      var b := BreakAt(s);
      var head, rest := s[..b], s[b + 1..];
      assert rest == "" || rest[|rest| - 1] == s[|s| - 1];
      SplitCountsBreaks(rest);
      SplitFirst(s);
      BreakCountAt(s, b);
    } else {
      NoBreaksCount(s);
    }
  }

  lemma BreakCountAt(s: string, b: nat)
    requires b < |s| && IsBreak(s[b]) && NoBreaks(s[..b])
    ensures BreakCount(s) == 1 + BreakCount(s[b + 1..])
  {
    hide IsBreak, BreakCount;
    var head, rest := s[..b], s[b + 1..];
    NoBreaksCount(head);
    BreakIsOne(s[b]);
    BreakCountAppend(head, [s[b]]);
    BreakCountAppend(head + [s[b]], rest);
    assert s == head + [s[b]] + rest;
  }

  lemma NewlineBreaks()
    ensures IsBreak('\n')
  {
  }

  function BreaksWithin(ls: seq<string>): nat {
    if ls == [] then 0 else BreakCount(ls[0]) + BreaksWithin(ls[1..])
  }

  lemma {:induction false} JoinedBreaks(ls: seq<string>)
    requires ls != []
    ensures BreakCount(JoinNL(ls) + "\n") == BreaksWithin(ls) + |ls|
  {
    hide IsBreak, BreakCount;
    NewlineBreaks();
    BreakIsOne('\n');
    BreakCountAppend(ls[0], "\n");
    if |ls| == 1 {
      assert BreaksWithin(ls[1..]) == 0;
    } else {
      JoinedBreaks(ls[1..]);
      assert JoinNL(ls) + "\n" == (ls[0] + "\n") + (JoinNL(ls[1..]) + "\n");
      BreakCountAppend(ls[0] + "\n", JoinNL(ls[1..]) + "\n");
    }
  }

  lemma {:induction false} BreaksAtLeast(ls: seq<string>, i: nat)
    requires i < |ls|
    ensures BreaksWithin(ls) >= BreakCount(ls[i])
  {
    hide BreakCount;
    if i > 0 {
      BreaksAtLeast(ls[1..], i - 1);
    }
  }

  /** A line boundary within the indentation, such as a form feed, adds lines at every turn. */
  lemma BrokenIndentGrows(anchorLine: string, insertion: string)
    requires EndsNL(insertion) && Normalizes(anchorLine, insertion) && !NoBreaks(AnchorIndent(anchorLine))
    ensures BreakCount(Normalized(anchorLine, insertion)) > BreakCount(insertion)
  {
    hide BreakCount, NoBreaks, Contains, SplitLines, Cut, BreaksWithin;
    var indent, ls := AnchorIndent(anchorLine), SplitLines(insertion);
    var out := NormalLines(indent, ls);
    SplitCountsBreaks(insertion);
    var i := Ahead(ls) + FirstNonBlank(ContentLines(ls));
    ContentAt(ls);
    assert !Blank(ls[i]);
    NormalLinesAt(indent, ls, i);
    NoBreaksCount(indent);
    BreakCountAppend(indent, ls[i][Cut(ContentLines(ls), i - Ahead(ls))..]);
    BreaksAtLeast(out, i);
    JoinedBreaks(out);
  }

  // ---------------------------------------------------------------- normalising twice

  lemma TwiceUnbroken(anchorLine: string, insertion: string)
    requires EndsNL(insertion) && Normalizes(anchorLine, insertion) && NoBreaks(AnchorIndent(anchorLine))
    ensures Normalized(anchorLine, Normalized(anchorLine, insertion)) == Normalized(anchorLine, insertion)
       <==> AllBlanks(AnchorIndent(anchorLine))
  {
    var indent, ls := AnchorIndent(anchorLine), SplitLines(insertion);
    var once := Normalized(anchorLine, insertion);
    StillNormalizes(anchorLine, insertion);
    NormalizedLines(anchorLine, insertion);
    NormalizedLines(anchorLine, once);
    ContentOfNormal(indent, ls);
    if AllBlanks(indent) {
      IndentLinesTwice(indent, ContentLines(ls));
    } else {
      FirstLineMoves(indent, ContentLines(ls));
    }
  }

  lemma BlanksAreUnbroken(s: string)
    requires AllBlanks(s)
    ensures NoBreaks(s)
  {
    var far := Span(0x2028, 0x2029, End);
    assert !InRanges(32, far);
    assert !InRanges(32, Span(28, 30, Span(0x85, 0x85, far)));
    assert !IsBreak(' ');
  }

  /** Normalising twice is normalising once exactly when the anchor is indented with blanks only (or nothing is
      rewritten). */
  lemma NormaliserIdempotent(anchorLine: string, insertion: string)
    requires EndsNL(insertion)
    ensures Normalized(anchorLine, Normalized(anchorLine, insertion)) == Normalized(anchorLine, insertion)
        <==> !Normalizes(anchorLine, insertion) || AllBlanks(AnchorIndent(anchorLine))
  {
    hide Normalizes, AllBlanks, NoBreaks, JoinNL, NormalLines, SplitLines;
    if Normalizes(anchorLine, insertion) {
      if NoBreaks(AnchorIndent(anchorLine)) {
        TwiceUnbroken(anchorLine, insertion);
      } else {
        StillNormalizes(anchorLine, insertion);
        if AllBlanks(AnchorIndent(anchorLine)) {
          BlanksAreUnbroken(AnchorIndent(anchorLine));
        }
        BrokenIndentGrows(anchorLine, Normalized(anchorLine, insertion));
      }
    }
  }
}
