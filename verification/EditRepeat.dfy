/** When a successful insert may be repeated: the second call then finds the first one's text near the anchor, or
    its routes, and leaves the file alone. */
module EditRepeat {
  import opened Text
  import opened Insertion
  import opened Editor
  import opened EditProofs
  import opened Indentation

  // ---------------------------------------------------------------- stripping a concatenation

  lemma EndsAfterPrefix(a: string, b: string)
    requires !Blank(b)
    ensures !Blank(a + b) && Trail(a + b) == |a| + Trail(b)
    ensures Blank(a) ==> Lead(a + b) == |a| + Lead(b)
    ensures !Blank(a) ==> Lead(a + b) == Lead(a)
  {
    var s := a + b;
    StripShape(b);
    assert forall i :: 0 <= i < |b| ==> s[|a| + i] == b[i];
    assert !IsSpace(s[|a| + Lead(b)]) && !IsSpace(s[|a| + Trail(b) - 1]);
    assert !Blank(a) ==> !IsSpace(s[Lead(a)]);
  }

  lemma BlankAppend(a: string, b: string)
    requires Blank(a) && Blank(b)
    ensures Blank(a + b)
  {
  }

  lemma StripBlankPrefix(a: string, b: string)
    requires Blank(a)
    ensures Strip(a + b) == Strip(b)
  {
    hide Lead, Trail, Blank, Strip;
    var s := a + b;
    StripShape(s);
    StripShape(b);
    if Blank(b) {
      BlankAppend(a, b);
    } else {
      EndsAfterPrefix(a, b);
      assert b == s[|a|..|s|];
      SliceOfSlice(s, |a|, |s|, |a| + Lead(b), |a| + Trail(b));
    }
  }

  lemma StripGrows(a: string, b: string)
    requires !Blank(a)
    ensures |Strip(a + b)| > |Strip(b)|
  {
    var s := a + b;
    assert s[Lead(a)] == a[Lead(a)];
    StripShape(s);
    StripShape(b);
    if !Blank(b) {
      EndsAfterPrefix(a, b);
    }
  }

  lemma ContainedIsShorter(s: string, t: string)
    requires Contains(s, t)
    ensures |t| <= |s|
  {
  }

  lemma EnsureNLBlank(content: string)
    ensures Blank(EnsureNL(content)) <==> Blank(content)
  {
    assert IsSpace('\n');
    var r := EnsureNL(content);
    assert forall i :: 0 <= i < |content| ==> r[i] == content[i];
  }

  // ---------------------------------------------------------------- the window around the anchor

  lemma WindowCovers(insertion: string)
    ensures WindowSize(insertion) >= |Lines(insertion)| + 4
  {
    SplitLinesCount(insertion);
    hide Lines, SplitLines;
  }

  lemma NearWindow(window: seq<string>, insertion: string, a: seq<string>, b: seq<string>)
    requires window == a + Lines(insertion) + b && !Blank(insertion)
    ensures Contains(Strip(Join(window)), Strip(insertion))
  {
    hide Lines, Strip, Blank;
    JoinAppend(a + Lines(insertion), b);
    JoinAppend(a, Lines(insertion));
    JoinLines(insertion);
    ContainsWhole(Join(a), insertion, Join(b));
    StrippedContains(Join(window), insertion);
  }

  lemma ContainsWhole(a: string, s: string, b: string)
    ensures Contains(a + s + b, s)
  {
    assert OccursAt(s, s, 0);
    ContainsInContext(a, s, b, s);
  }

  lemma NearAfterInsert(lines: seq<string>, idx: nat, insertion: string)
    requires idx + 1 + |Lines(insertion)| <= |lines|
    requires lines[idx + 1..idx + 1 + |Lines(insertion)|] == Lines(insertion) && !Blank(insertion)
    ensures NearAnchor(lines, idx, insertion, true)
  {
    hide Lines, Join, Strip, Contains, WindowSize;
    var n, size := |Lines(insertion)|, WindowSize(insertion);
    WindowCovers(insertion);
    StripShape(insertion);
    var hi := if idx + 1 + size <= |lines| then idx + 1 + size else |lines|;
    var rest := lines[idx + 1 + n..hi];
    assert lines[idx + 1..hi] == [] + Lines(insertion) + rest;
    NearWindow(lines[idx + 1..hi], insertion, [], rest);
  }

  lemma NearBeforeInsert(lines: seq<string>, idx: nat, insertion: string)
    requires |Lines(insertion)| <= idx < |lines|
    requires lines[idx - |Lines(insertion)|..idx] == Lines(insertion) && !Blank(insertion)
    ensures NearAnchor(lines, idx, insertion, false)
  {
    hide Lines, Join, Strip, Contains, WindowSize;
    var n, size := |Lines(insertion)|, WindowSize(insertion);
    WindowCovers(insertion);
    StripShape(insertion);
    var lo := if size <= idx then idx - size else 0;
    var rest := lines[lo..idx - n];
    assert lines[lo..idx] == rest + Lines(insertion) + [];
    NearWindow(lines[lo..idx], insertion, rest, []);
  }

  // ---------------------------------------------------------------- repeating insert_after

  predicate NoLineHas(lines: seq<string>, anchor: string) {
    forall i :: 0 <= i < |lines| ==> !Contains(lines[i], anchor)
  }

  lemma FirstIndexIs(lines: seq<string>, anchor: string, k: nat)
    requires k < |lines| && Contains(lines[k], anchor) && forall i :: 0 <= i < k ==> !Contains(lines[i], anchor)
    ensures FirstIndex(lines, anchor) == Some(k)
  {
    hide Contains;
  }

  lemma LineAfter(lines: seq<string>, inserted: seq<string>, idx: nat, i: nat)
    requires idx < |lines| && i < |lines| + |inserted|
    ensures var after := lines[..idx + 1] + inserted + lines[idx + 1..];
            && |after| == |lines| + |inserted|
            && after[i] == if i <= idx then lines[i]
                           else if i <= idx + |inserted| then inserted[i - idx - 1] else lines[i - |inserted|]
  {
  }

  lemma SameFirstIndex(lines: seq<string>, inserted: seq<string>, anchor: string, idx: nat)
    requires FirstIndex(lines, anchor) == Some(idx)
    ensures FirstIndex(lines[..idx + 1] + inserted + lines[idx + 1..], anchor) == Some(idx)
  {
    hide Contains, FirstIndex;
    var after := lines[..idx + 1] + inserted + lines[idx + 1..];
    forall i | 0 <= i <= idx
      ensures after[i] == lines[i]
    {
      LineAfter(lines, inserted, idx, i);
    }
    FirstIndexIs(after, anchor, idx);
  }

  lemma SameIndexAfter(lines: seq<string>, inserted: seq<string>, anchor: string, idx: nat)
    requires AfterIndex(lines, anchor) == Some(idx)
    requires FirstIndex(lines, anchor).Some? || NoLineHas(inserted, anchor)
    ensures AfterIndex(lines[..idx + 1] + inserted + lines[idx + 1..], anchor) == Some(idx)
  {
    hide Contains, Strip, FirstIndex;
    var after := lines[..idx + 1] + inserted + lines[idx + 1..];
    if FirstIndex(lines, anchor).None? {
      forall i | 0 <= i < |after|
        ensures !Contains(after[i], anchor)
      {
        LineAfter(lines, inserted, idx, i);
      }
      SameFirstIndex(lines, inserted, APP_INIT_CALL, idx);
    } else {
      SameFirstIndex(lines, inserted, anchor, idx);
    }
  }

  /** Repeating a committed `insert_after` changes nothing when the insertion is not blank, the anchor line is
      terminated, and the anchor was matched as given (or no inserted line matches it). */
  lemma RepeatInsertAfter(c: Checks, path: string, text: string, anchor: string, content: string)
    requires AfterVerdict(c, path, text, anchor, content).Commit?
    requires AfterIndex(Lines(text), anchor).Some?
    requires var lines, idx := Lines(text), AfterIndex(Lines(text), anchor).value;
             var insertion := AfterInsertion(text, idx, content);
             && FullLine(lines[idx]) && !Blank(insertion)
             && (FirstIndex(lines, anchor).Some? || NoLineHas(Lines(insertion), anchor))
    ensures var once := AfterVerdict(c, path, text, anchor, content).text;
            Apply(once, AfterVerdict(c, path, once, anchor, content)) == once
  {
    hide InsertVerdict, Normalized, AfterBlockHeader, AfterDecoratorLine, Splice, Lines, AfterIndex, FirstIndex,
         Contains, Blank, EnsureNL;
    var lines, idx := Lines(text), AfterIndex(Lines(text), anchor).value;
    var insertion := AfterInsertion(text, idx, content);
    var once := AfterVerdict(c, path, text, anchor, content).text;
    AfterCommitted(c, path, text, anchor, content);
    InsertAfterFrame(c, path, text, anchor, content);
    SameIndexAfter(lines, Lines(insertion), anchor, idx);
    var reread := Lines(once);
    assert reread[idx] == lines[idx] && reread[..idx + 1] == lines[..idx + 1];
    assert reread[idx + 1..idx + 1 + |Lines(insertion)|] == Lines(insertion);
    NearAfterInsert(reread, idx, insertion);
    RepeatedInsert(c, path, text, idx, once, idx, insertion, true);
  }

  /** The second insert meets the same guards; found near its anchor, it keeps the file. */
  lemma RepeatedInsert(c: Checks, path: string, text: string, idx: nat, once: string, idx': nat, insertion: string, after: bool)
    requires idx < |Lines(text)| && idx' < |Lines(once)| && InsertVerdict(c, path, text, idx, insertion, after).Commit?
    requires NearAnchor(Lines(once), idx', insertion, after)
    ensures !InsertVerdict(c, path, once, idx', insertion, after).Commit?
  {
    hide RouteExists, RouteBeforeInit, NearAnchor, Splice, Lines;
  }

  lemma UnmarkedInsertion(text: string, idx: nat, content: string)
    requires idx < |Lines(text)| && !Contains(EnsureNL(content), ROUTE_MARK)
    ensures AfterInsertion(text, idx, content) == EnsureNL(content)
  {
    hide Lines, Contains, EnsureNL;
  }

  /** What can stop a second insert, whose text is not secret and does not come ahead of the initialisation. */
  lemma SecondInsert(c: Checks, path: string, text: string, idx: nat, insertion: string, after: bool)
    requires idx < |Lines(text)| && insertion != "" && !c.secretLike(insertion)
    requires !RouteBeforeInit(Lines(text), if after then idx + 1 else idx, insertion)
    ensures var v := InsertVerdict(c, path, text, idx, insertion, after);
            var point := if after then idx + 1 else idx;
            && (v.Commit? <==>
                  && !RouteExists(Lines(text), insertion) && !NearAnchor(Lines(text), idx, insertion, after)
                  && (IsPython(path) ==> c.validPython(path, Splice(Lines(text), point, point, insertion))))
            && (v.Commit? ==> v.text != text)
  {
    hide Lines, NearAnchor, Splice, IsPython, RouteExists, RouteBeforeInit;
    SplicedIsLonger(text, if after then idx + 1 else idx, insertion);
  }

  lemma SplicedIsLonger(text: string, point: nat, insertion: string)
    requires point <= |Lines(text)|
    ensures |Splice(Lines(text), point, point, insertion)| == |text| + |insertion|
  {
    hide Lines, Splice;
    var lines := Lines(text);
    SpliceText(lines, point, point, insertion);
    JoinLines(text);
    JoinAppend(lines[..point], lines[point..]);
    assert lines == lines[..point] + lines[point..];
  }

  lemma NotSecret(c: Checks, path: string, text: string, idx: nat, insertion: string, after: bool)
    requires idx < |Lines(text)| && InsertVerdict(c, path, text, idx, insertion, after).Commit?
    ensures !c.secretLike(insertion)
  {
    hide Lines, Contains, NearAnchor, Splice, IsPython, RouteExists, RouteBeforeInit;
  }

  lemma RoutesFound(lines: seq<string>, a: seq<string>, insertion: string, b: seq<string>)
    requires lines == a + Lines(insertion) + b && RoutesOf(insertion) != []
    ensures RouteExists(lines, insertion)
  {
    hide Lines, RouteList;
    RouteListAppend(a + Lines(insertion), b);
    RouteListAppend(a, Lines(insertion));
    assert RoutesOf(insertion)[0] in RouteList(lines);
  }

  lemma InitStillAhead(lines: seq<string>, p: nat, more: seq<string>, q: nat, insertion: string)
    requires p <= |lines| && p <= q <= |more| && more[..p] == lines[..p] && !RouteBeforeInit(lines, p, insertion)
    ensures !RouteBeforeInit(more, q, insertion)
  {
    hide Contains;
    assert more[..q] == lines[..p] + more[p..q];
    JoinAppend(lines[..p], more[p..q]);
    if Contains(Join(lines[..p]), APP_INIT) {
      ContainsInContext("", Join(lines[..p]), Join(more[p..q]), APP_INIT);
      assert "" + Join(lines[..p]) + Join(more[p..q]) == Join(more[..q]);
    }
  }

  lemma GluedNear(lines: seq<string>, idx: nat, insertion: string)
    requires insertion != "" && Lines(insertion) != []
    requires idx < |lines| && lines[idx + 1..] == Lines(insertion)[1..]
    ensures NearAnchor(lines, idx, insertion, true) <==> !Blank(insertion) && Blank(Lines(insertion)[0])
  {
    hide Lines, Strip, WindowSize, Blank, Contains;
    var inserted := Lines(insertion);
    var first, tail := inserted[0], Join(inserted[1..]);
    WindowCovers(insertion);
    StripShape(insertion);
    JoinLines(insertion);
    assert insertion == first + tail;
    var size := WindowSize(insertion);
    assert |lines| <= idx + 1 + size;
    var hi := if idx + 1 + size <= |lines| then idx + 1 + size else |lines|;
    assert lines[idx + 1..hi] == inserted[1..];
    if Blank(first) {
      StripBlankPrefix(first, tail);
      assert Strip(tail) == "" + Strip(insertion) + "";
      ContainsWhole("", Strip(insertion), "");
    } else {
      StripGrows(first, tail);
      if Contains(Strip(tail), Strip(insertion)) {
        ContainedIsShorter(Strip(tail), Strip(insertion));
      }
    }
  }

  /** The verdict of `insert_after` once its anchor line is known. */
  lemma AfterAt(c: Checks, path: string, text: string, anchor: string, content: string, idx: nat)
    requires AfterIndex(Lines(text), anchor) == Some(idx)
    ensures idx < |Lines(text)|
    ensures var line, insertion := Lines(text)[idx], AfterInsertion(text, idx, content);
            AfterVerdict(c, path, text, anchor, content)
            == if AfterBlockHeader(line, insertion) then Refuse(AfterBlock)
               else if AfterDecoratorLine(line, insertion) then Refuse(AfterDecorator)
               else InsertVerdict(c, path, text, idx, insertion, true)
  {
    hide InsertVerdict, Lines, Normalized, AfterBlockHeader, AfterDecoratorLine;
  }

  /** The text that a second `insert_after` at line `idx` would leave. */
  function TwiceAfter(once: string, idx: nat, insertion: string): string
    requires idx < |Lines(once)|
  {
    Splice(Lines(once), idx + 1, idx + 1, insertion)
  }

  /** Exactly when a committed `insert_after` behind a terminated anchor line may be repeated, in any file and for any
      content: the content is not blank, or the file is a Python file that the repeated blank lines make invalid. */
  lemma RepeatInsertAfterExactly(c: Checks, path: string, text: string, anchor: string, content: string)
    requires AfterVerdict(c, path, text, anchor, content).Commit?
    requires AfterIndex(Lines(text), anchor).Some?
    requires var lines, idx := Lines(text), AfterIndex(Lines(text), anchor).value;
             && FullLine(lines[idx])
             && (FirstIndex(lines, anchor).Some? || NoLineHas(Lines(AfterInsertion(text, idx, content)), anchor))
    ensures var once, idx := AfterVerdict(c, path, text, anchor, content).text, AfterIndex(Lines(text), anchor).value;
            && idx < |Lines(once)|
            && (Apply(once, AfterVerdict(c, path, once, anchor, content)) == once
                <==> !Blank(content)
                     || (IsPython(path) && !c.validPython(path, TwiceAfter(once, idx, AfterInsertion(text, idx, content)))))
  {
    hide AfterVerdict, InsertVerdict, Normalized, AfterBlockHeader, AfterDecoratorLine, Splice, Lines, Contains, Blank,
         NearAnchor, EnsureNL, AfterIndex, FirstIndex, IsPython, RouteExists, RouteBeforeInit, NoLineHas, FullLine;
    var lines, idx := Lines(text), AfterIndex(Lines(text), anchor).value;
    var insertion := AfterInsertion(text, idx, content);
    var once := AfterVerdict(c, path, text, anchor, content).text;
    var reread := Lines(once);
    AfterCommitted(c, path, text, anchor, content);
    InsertAfterFrame(c, path, text, anchor, content);
    SameIndexAfter(lines, Lines(insertion), anchor, idx);
    assert reread[idx] == lines[idx];
    EnsureNLBlank(content);
    NormalizedBlank(lines[idx], EnsureNL(content));
    AfterAt(c, path, once, anchor, content, idx);
    if !Blank(insertion) {
      RepeatInsertAfter(c, path, text, anchor, content);
    } else {
      NotSecret(c, path, text, idx, insertion, true);
      BlankDeclaresNothing(insertion);
      NothingDeclared(reread, insertion);
      BlankNotNear(reread, idx, insertion, true);
      BlankPassesInit(reread, idx + 1, insertion);
      SecondInsert(c, path, once, idx, insertion, true);
    }
  }

  lemma NothingDeclared(lines: seq<string>, insertion: string)
    requires RoutesOf(insertion) == []
    ensures !RouteExists(lines, insertion)
  {
    hide RoutesOf;
  }

  lemma BlankPassesInit(lines: seq<string>, point: nat, insertion: string)
    requires point <= |lines| && Blank(insertion)
    ensures !RouteBeforeInit(lines, point, insertion)
  {
    hide Contains, Blank;
    if Contains(insertion, ROUTE_MARK) {
      MarkedIsInk(insertion);
    }
  }

  // ---------------------------------------------------------------- repeating insert_after behind an open line

  /** The file after a committed `insert_after` whose anchor line was open: `line` is the line that was continued. */
  ghost predicate AfterOpenLine(c: Checks, path: string, text: string, anchor: string, content: string,
                                idx: nat, insertion: string, line: string) {
    && AfterVerdict(c, path, text, anchor, content).Commit?
    && FirstIndex(Lines(text), anchor) == Some(idx) && !FullLine(Lines(text)[idx])
    && insertion == AfterInsertion(text, idx, content)
    && Lines(insertion) != [] && line == Lines(text)[idx] + Lines(insertion)[0]
  }

  /** Some route of the insertion stands on the continued line or on a line below it. */
  predicate RouteBelow(insertion: string, line: string)
    requires Lines(insertion) != []
  {
    exists r :: r in RoutesOf(insertion) && r in RoutesFrom(line, 0) + RouteList(Lines(insertion)[1..])
  }

  lemma OpenRoutes(lines: seq<string>, idx: nat, insertion: string, line: string)
    requires Lines(insertion) != [] && idx < |lines| && !RouteExists(lines, insertion)
    ensures RouteExists(lines[..idx] + [line] + Lines(insertion)[1..], insertion) <==> RouteBelow(insertion, line)
  {
    hide Lines, RouteList, RoutesFrom;
    var ahead, below := lines[..idx], Lines(insertion)[1..];
    assert lines == ahead + lines[idx..];
    RouteListAppend(ahead, lines[idx..]);
    RouteListAppend(ahead + [line], below);
    RouteListAppend(ahead, [line]);
    OneLineRoutes(line);
    forall r | r in RoutesOf(insertion)
      ensures r !in RouteList(ahead)
    {
      assert r !in RouteList(lines);
    }
  }

  /** Exactly when a committed `insert_after` behind an open anchor line may be repeated, as long as the normaliser
      treats the anchor line and the continued line alike: the continued line, now the anchor line, stops every route;
      or a route of the content is complete there; or the content starts with a blank line, and so begins on the next
      line; or the repetition is no valid Python. */
  lemma RepeatContinuedExactly(c: Checks, path: string, text: string, anchor: string, content: string,
                               idx: nat, insertion: string, line: string)
    requires AfterOpenLine(c, path, text, anchor, content, idx, insertion, line)
    requires Normalized(line, EnsureNL(content)) == insertion
    ensures var once := AfterVerdict(c, path, text, anchor, content).text;
            && idx < |Lines(once)|
            && (Apply(once, AfterVerdict(c, path, once, anchor, content)) == once
                <==> || AfterBlockHeader(line, insertion) || AfterDecoratorLine(line, insertion)
                     || RouteBelow(insertion, line)
                     || (!Blank(content) && Blank(Lines(insertion)[0]))
                     || (IsPython(path) && !c.validPython(path, TwiceAfter(once, idx, insertion))))
  {
    hide AfterVerdict, InsertVerdict, Normalized, AfterBlockHeader, AfterDecoratorLine, Splice, Lines, Contains, Blank,
         NearAnchor, EnsureNL, AfterIndex, IsPython, RouteExists, RouteBeforeInit, FullLine, RouteBelow;
    var lines := Lines(text);
    var once := AfterVerdict(c, path, text, anchor, content).text;
    var reread, inserted := Lines(once), Lines(insertion);
    DirectIndex(lines, anchor);
    AfterCommitted(c, path, text, anchor, content);
    InsertAfterFrame(c, path, text, anchor, content);
    OpenIsLast(text, idx);
    GluedIndex(text, insertion, anchor, idx, reread);
    assert reread[idx] == line;
    EnsureNLBlank(content);
    NormalizedBlank(lines[idx], EnsureNL(content));
    GluedNear(reread, idx, insertion);
    AfterAt(c, path, once, anchor, content, idx);
    PassedGuards(c, path, text, idx, insertion, true);
    OpenRoutes(lines, idx, insertion, line);
    OpenKeepsInit(lines, idx, insertion, reread);
    SecondInsert(c, path, once, idx, insertion, true);
  }

  /** The normaliser treats a line and its continuation alike unless the continuation completes the call of the app
      initialisation on an indented line. */
  lemma NormalizesAlike(open: string, more: string, insertion: string)
    requires !Blank(open)
    requires AnchorIndent(open) == "" || Contains(open, APP_INIT_CALL) || !Contains(open + more, APP_INIT_CALL)
    ensures Normalized(open + more, insertion) == Normalized(open, insertion)
  {
    hide Contains, JoinNL, NormalLines, FirstNonBlank, ContentLines, SplitLines;
    var line := open + more;
    var i :| 0 <= i < |open| && !IsSpace(open[i]);
    assert line[Lead(open)] == open[Lead(open)];
    assert Lead(line) == Lead(open);
    assert AnchorIndent(line) == AnchorIndent(open);
    if Contains(open, APP_INIT_CALL) {
      ContainsInContext("", open, more, APP_INIT_CALL);
      assert "" + open + more == line;
    }
  }

  lemma DirectIndex(lines: seq<string>, anchor: string)
    ensures FirstIndex(lines, anchor).Some? ==> AfterIndex(lines, anchor) == FirstIndex(lines, anchor)
  {
    hide FirstIndex;
  }

  lemma OpenIsLast(text: string, idx: nat)
    requires idx < |Lines(text)| && !FullLine(Lines(text)[idx])
    ensures idx == |Lines(text)| - 1
  {
    hide Lines, FullLine;
    JoinLines(text);
    OpenOrFull(Lines(text), idx);
  }

  lemma PassedGuards(c: Checks, path: string, text: string, idx: nat, insertion: string, after: bool)
    requires idx < |Lines(text)| && InsertVerdict(c, path, text, idx, insertion, after).Commit?
    ensures !c.secretLike(insertion) && !RouteExists(Lines(text), insertion)
    ensures !RouteBeforeInit(Lines(text), if after then idx + 1 else idx, insertion)
  {
    hide Lines, Contains, NearAnchor, Splice, IsPython, RouteExists, RouteBeforeInit;
  }

  lemma OpenKeepsInit(lines: seq<string>, idx: nat, insertion: string, reread: seq<string>)
    requires Lines(insertion) != [] && idx == |lines| - 1 && !RouteBeforeInit(lines, idx + 1, insertion)
    requires reread == lines[..idx] + [lines[idx] + Lines(insertion)[0]] + Lines(insertion)[1..]
    ensures !RouteBeforeInit(reread, idx + 1, insertion)
  {
    hide Lines, Contains;
    var l, m := lines[idx], Lines(insertion)[0];
    assert reread[..idx + 1] == lines[..idx] + [l + m] && lines[..idx + 1] == lines[..idx] + [l];
    JoinAppend(lines[..idx], [l + m]);
    JoinAppend(lines[..idx], [l]);
    JoinOne(l + m);
    JoinOne(l);
    var a := Join(lines[..idx]) + l;
    assert Join(reread[..idx + 1]) == "" + a + m;
    if Contains(a, APP_INIT) {
      ContainsInContext("", a, m, APP_INIT);
    }
  }

  lemma UnmarkedVerdict(c: Checks, path: string, text: string, anchor: string, content: string, idx: nat)
    requires AfterIndex(Lines(text), anchor) == Some(idx) && !Contains(EnsureNL(content), ROUTE_MARK)
    ensures AfterVerdict(c, path, text, anchor, content) == InsertVerdict(c, path, text, idx, EnsureNL(content), true)
  {
    hide InsertVerdict, Lines, Contains, EnsureNL, AfterIndex, AfterInsertion;
    UnmarkedInsertion(text, idx, content);
  }

  lemma BlankNotNear(lines: seq<string>, idx: nat, insertion: string, after: bool)
    requires idx < |lines| && Blank(insertion)
    ensures !NearAnchor(lines, idx, insertion, after)
  {
    StripShape(insertion);
  }

  lemma GluedIndex(text: string, insertion: string, anchor: string, idx: nat, reread: seq<string>)
    requires Lines(insertion) != []
    requires FirstIndex(Lines(text), anchor) == Some(idx) && !FullLine(Lines(text)[idx])
    requires reread == Lines(text)[..idx] + [Lines(text)[idx] + Lines(insertion)[0]] + Lines(insertion)[1..]
    ensures AfterIndex(reread, anchor) == Some(idx)
    ensures reread[idx + 1..] == Lines(insertion)[1..]
  {
    hide Lines, Contains, Strip;
    var l := Lines(text)[idx];
    assert reread[idx] == "" + l + Lines(insertion)[0];
    ContainsInContext("", l, Lines(insertion)[0], anchor);
    assert forall i :: 0 <= i < idx ==> reread[i] == Lines(text)[i];
  }

  // ---------------------------------------------------------------- repeating insert_before

  lemma IndexBefore(lines: seq<string>, inserted: seq<string>, anchor: string, idx: nat)
    requires FirstIndex(lines, anchor) == Some(idx) && NoLineHas(inserted, anchor)
    ensures FirstIndex(lines[..idx] + inserted + lines[idx..], anchor) == Some(idx + |inserted|)
  {
    hide Contains;
    var all := lines[..idx] + inserted + lines[idx..];
    assert all[idx + |inserted|] == lines[idx];
    forall i | 0 <= i < idx + |inserted|
      ensures !Contains(all[i], anchor)
    {
      if i < idx {
        assert all[i] == lines[i];
      } else {
        assert all[i] == inserted[i - idx];
      }
    }
  }

  lemma BeforeAt(c: Checks, path: string, text: string, anchor: string, content: string, idx: nat)
    requires FirstIndex(Lines(text), anchor) == Some(idx)
    ensures idx < |Lines(text)|
    ensures BeforeVerdict(c, path, text, anchor, content) == InsertVerdict(c, path, text, idx, EnsureNL(content), false)
  {
    hide InsertVerdict, Lines, EnsureNL;
  }

  /** Repeating a committed `insert_before` changes nothing when the content is not blank and no inserted line
      contains the anchor. */
  lemma RepeatInsertBefore(c: Checks, path: string, text: string, anchor: string, content: string)
    requires BeforeVerdict(c, path, text, anchor, content).Commit?
    requires !Blank(content) && NoLineHas(Lines(EnsureNL(content)), anchor)
    ensures var once := BeforeVerdict(c, path, text, anchor, content).text;
            Apply(once, BeforeVerdict(c, path, once, anchor, content)) == once
  {
    hide BeforeVerdict, InsertVerdict, Splice, Lines, FirstIndex, Contains, Blank, EnsureNL, NearAnchor, NoLineHas;
    BeforeCommitted(c, path, text, anchor, content);
    var lines, idx := Lines(text), FirstIndex(Lines(text), anchor).value;
    var insertion := EnsureNL(content);
    var once := BeforeVerdict(c, path, text, anchor, content).text;
    var n := |Lines(insertion)|;
    InsertBeforeFrame(c, path, text, anchor, content);
    EnsureNLBlank(content);
    IndexBefore(lines, Lines(insertion), anchor, idx);
    assert Lines(once)[idx + n - n..idx + n] == Lines(insertion);
    NearBeforeInsert(Lines(once), idx + n, insertion);
    RepeatedInsert(c, path, text, idx, once, idx + n, insertion, false);
    BeforeAt(c, path, once, anchor, content, idx + n);
  }

  /** Routes that the content declares are found in the first insertion, wherever the second call finds its anchor. */
  lemma RepeatInsertBeforeRoutes(c: Checks, path: string, text: string, anchor: string, content: string)
    requires BeforeVerdict(c, path, text, anchor, content).Commit?
    requires RoutesOf(EnsureNL(content)) != []
    ensures var once := BeforeVerdict(c, path, text, anchor, content).text;
            Apply(once, BeforeVerdict(c, path, once, anchor, content)) == once
  {
    hide Splice, Lines, FirstIndex, Contains, EnsureNL, NearAnchor, IsPython, RouteExists, RouteBeforeInit, RoutesOf;
    var lines, idx := Lines(text), FirstIndex(Lines(text), anchor).value;
    BeforeCommitted(c, path, text, anchor, content);
    InsertBeforeFrame(c, path, text, anchor, content);
    var once := BeforeVerdict(c, path, text, anchor, content).text;
    RoutesFound(Lines(once), lines[..idx], EnsureNL(content), lines[idx..]);
  }

  lemma EnsureNLNonEmpty(content: string)
    ensures EnsureNL(content) != ""
  {
  }
}
