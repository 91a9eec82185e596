/** Exactly when an insert may be repeated, for every file, anchor and content: the lines after the first call, the
    anchor line of the second call and the text it would insert are all computed from the first file. */
module RepeatExact {
  import opened Text
  import opened Insertion
  import opened Editor
  import opened EditProofs
  import opened Indentation
  import opened EditRepeat

  // ---------------------------------------------------------------- what stops a second insert

  /** The guards of an insert into `lines` at `idx`, and the parser on its result. */
  ghost predicate Stops(c: Checks, path: string, lines: seq<string>, idx: nat, insertion: string, after: bool)
    requires idx < |lines|
  {
    var point := if after then idx + 1 else idx;
    || RouteExists(lines, insertion)
    || NearAnchor(lines, idx, insertion, after)
    || c.secretLike(insertion)
    || (IsPython(path) && !c.validPython(path, Splice(lines, point, point, insertion)))
  }

  lemma StopsMeans(c: Checks, path: string, text: string, idx: nat, insertion: string, after: bool)
    requires idx < |Lines(text)| && insertion != ""
    requires !RouteBeforeInit(Lines(text), if after then idx + 1 else idx, insertion)
    ensures Apply(text, InsertVerdict(c, path, text, idx, insertion, after)) == text
       <==> Stops(c, path, Lines(text), idx, insertion, after)
  {
    hide Lines, NearAnchor, Splice, IsPython, RouteExists, RouteBeforeInit;
    SplicedIsLonger(text, if after then idx + 1 else idx, insertion);
  }

  // ---------------------------------------------------------------- insert_after

  /** The lines of the file once `inserted` was put behind line `idx`, continuing that line if it was open. */
  function LinesAfter(lines: seq<string>, idx: nat, inserted: seq<string>): seq<string>
    requires idx < |lines|
  {
    if FullLine(lines[idx]) || inserted == [] then lines[..idx + 1] + inserted + lines[idx + 1..]
    else lines[..idx] + [lines[idx] + inserted[0]] + inserted[1..]
  }

  lemma Extends(a: string, b: string, t: string)
    requires Contains(a, t)
    ensures Contains(a + b, t)
  {
    hide Contains;
    ContainsInContext("", a, b, t);
    assert "" + a + b == a + b;
  }

  lemma LinesAfterShape(lines: seq<string>, idx: nat, inserted: seq<string>, t: string)
    requires idx < |lines|
    ensures var all := LinesAfter(lines, idx, inserted);
            idx < |all| && all[..idx] == lines[..idx] && (Contains(lines[idx], t) ==> Contains(all[idx], t))
  {
    hide Contains, FullLine;
    if !FullLine(lines[idx]) && inserted != [] && Contains(lines[idx], t) {
      Extends(lines[idx], inserted[0], t);
    }
  }

  lemma FirstFrom(lines: seq<string>, all: seq<string>, t: string, idx: nat)
    requires idx < |lines| && idx < |all| && all[..idx] == lines[..idx]
    requires forall i :: 0 <= i < idx ==> !Contains(lines[i], t)
    ensures FirstIndex(all, t).Some? ==> idx <= FirstIndex(all, t).value
    ensures Contains(all[idx], t) ==> FirstIndex(all, t) == Some(idx)
  {
    hide Contains;
    assert forall i :: 0 <= i < idx ==> all[i] == all[..idx][i] == lines[i];
  }

  /** The second call finds an anchor line, not ahead of the first one. */
  lemma SecondIndex(lines: seq<string>, inserted: seq<string>, anchor: string, idx: nat)
    requires AfterIndex(lines, anchor) == Some(idx)
    ensures idx < |lines|
    ensures var k := AfterIndex(LinesAfter(lines, idx, inserted), anchor); k.Some? && idx <= k.value
  {
    hide Contains, Strip, LinesAfter;
    var all := LinesAfter(lines, idx, inserted);
    LinesAfterShape(lines, idx, inserted, anchor);
    FirstFrom(lines, all, anchor, idx);
    if FirstIndex(lines, anchor).None? {
      LinesAfterShape(lines, idx, inserted, APP_INIT_CALL);
      FirstFrom(lines, all, APP_INIT_CALL, idx);
    }
  }

  lemma LinesUpTo(lines: seq<string>, idx: nat, inserted: seq<string>)
    requires idx < |lines|
    ensures var more := if FullLine(lines[idx]) || inserted == [] then "" else inserted[0];
            && idx < |LinesAfter(lines, idx, inserted)|
            && LinesAfter(lines, idx, inserted)[..idx + 1] == lines[..idx] + [lines[idx] + more]
  {
    hide FullLine;
    var more := if FullLine(lines[idx]) || inserted == [] then "" else inserted[0];
    var all := LinesAfter(lines, idx, inserted);
    assert lines[idx] + "" == lines[idx];
    assert all[idx] == lines[idx] + more;
    assert all[..idx + 1] == all[..idx] + [all[idx]];
    assert all[..idx] == lines[..idx];
  }

  /** The initialisation that stood ahead of the first insertion stands ahead of the second. */
  lemma StillInit(lines: seq<string>, idx: nat, inserted: seq<string>, k: nat)
    requires idx < |lines| && idx <= k < |LinesAfter(lines, idx, inserted)|
    requires Contains(Join(lines[..idx + 1]), APP_INIT)
    ensures Contains(Join(LinesAfter(lines, idx, inserted)[..k + 1]), APP_INIT)
  {
    hide Contains, FullLine;
    var all := LinesAfter(lines, idx, inserted);
    var more := if FullLine(lines[idx]) || inserted == [] then "" else inserted[0];
    LinesUpTo(lines, idx, inserted);
    assert lines[..idx + 1] == lines[..idx] + [lines[idx]];
    JoinAppend(lines[..idx], [lines[idx] + more]);
    JoinAppend(lines[..idx], [lines[idx]]);
    JoinOne(lines[idx] + more);
    JoinOne(lines[idx]);
    assert Join(all[..idx + 1]) == Join(lines[..idx + 1]) + more;
    Extends(Join(lines[..idx + 1]), more, APP_INIT);
    assert all[..k + 1] == all[..idx + 1] + all[idx + 1..k + 1];
    JoinAppend(all[..idx + 1], all[idx + 1..k + 1]);
    Extends(Join(all[..idx + 1]), Join(all[idx + 1..k + 1]), APP_INIT);
  }

  lemma SameMark(line: string, insertion: string)
    requires EndsNL(insertion)
    ensures Contains(Normalized(line, insertion), ROUTE_MARK) <==> Contains(insertion, ROUTE_MARK)
  {
    if Normalizes(line, insertion) {
      KeepsMark(line, insertion);
    }
  }

  lemma AfterReread(c: Checks, path: string, text: string, anchor: string, content: string)
    requires AfterVerdict(c, path, text, anchor, content).Commit?
    ensures AfterIndex(Lines(text), anchor).Some?
    ensures var idx := AfterIndex(Lines(text), anchor).value;
            Lines(AfterVerdict(c, path, text, anchor, content).text)
            == LinesAfter(Lines(text), idx, Lines(AfterInsertion(text, idx, content)))
  {
    hide AfterVerdict, AfterIndex, Lines, AfterInsertion, FullLine;
    InsertAfterFrame(c, path, text, anchor, content);
  }

  /** Exactly when a committed `insert_after` may be repeated, whatever the file, the anchor and the content. With
      `again` the lines after the first call, `k` the anchor line found there and `second` the text for that line, the
      second call stops at the tests of the anchor line, at a route or a near copy found in `again`, at the secret test
      or at the parser. */
  lemma RepeatInsertAfterAlways(c: Checks, path: string, text: string, anchor: string, content: string)
    requires AfterVerdict(c, path, text, anchor, content).Commit?
    ensures AfterIndex(Lines(text), anchor).Some?
    ensures var once := AfterVerdict(c, path, text, anchor, content).text;
            var lines, idx := Lines(text), AfterIndex(Lines(text), anchor).value;
            var again := LinesAfter(lines, idx, Lines(AfterInsertion(text, idx, content)));
            && AfterIndex(again, anchor).Some?
            && var k := AfterIndex(again, anchor).value;
               var second := Normalized(again[k], EnsureNL(content));
               (Apply(once, AfterVerdict(c, path, once, anchor, content)) == once
                <==> || AfterBlockHeader(again[k], second) || AfterDecoratorLine(again[k], second)
                     || Stops(c, path, again, k, second, true))
  {
    hide AfterVerdict, InsertVerdict, Normalized, AfterBlockHeader, AfterDecoratorLine, Lines, Contains, LinesAfter,
         EnsureNL, AfterIndex, IsPython, RouteBeforeInit, Stops;
    AfterCommitted(c, path, text, anchor, content);
    var lines, idx := Lines(text), AfterIndex(Lines(text), anchor).value;
    var once := AfterVerdict(c, path, text, anchor, content).text;
    var insertion := AfterInsertion(text, idx, content);
    AfterReread(c, path, text, anchor, content);
    SecondIndex(lines, Lines(insertion), anchor, idx);
    var again := Lines(once);
    var k := AfterIndex(again, anchor).value;
    var second := Normalized(again[k], EnsureNL(content));
    NormalizedEndsNL(again[k], EnsureNL(content));
    PassedGuards(c, path, text, idx, insertion, true);
    SecondPassesInit(lines, idx, insertion, k, second, EnsureNL(content));
    AfterAt(c, path, once, anchor, content, k);
    StopsMeans(c, path, once, k, second, true);
  }

  lemma SecondPassesInit(lines: seq<string>, idx: nat, insertion: string, k: nat, second: string, content: string)
    requires idx < |lines| && idx <= k < |LinesAfter(lines, idx, Lines(insertion))| && EndsNL(content)
    requires insertion == Normalized(lines[idx], content)
    requires second == Normalized(LinesAfter(lines, idx, Lines(insertion))[k], content)
    requires !RouteBeforeInit(lines, idx + 1, insertion)
    ensures !RouteBeforeInit(LinesAfter(lines, idx, Lines(insertion)), k + 1, second)
  {
    hide Contains, Lines, LinesAfter, Normalized;
    var all := LinesAfter(lines, idx, Lines(insertion));
    SameMark(lines[idx], content);
    SameMark(all[k], content);
    if Contains(second, ROUTE_MARK) {
      StillInit(lines, idx, Lines(insertion), k);
    }
  }

  // ---------------------------------------------------------------- insert_before

  function LinesBefore(lines: seq<string>, idx: nat, inserted: seq<string>): seq<string>
    requires idx <= |lines|
  {
    lines[..idx] + inserted + lines[idx..]
  }

  /** The anchor line of the second call: the first inserted line with the anchor, or the old anchor line. */
  function SecondBefore(inserted: seq<string>, anchor: string, idx: nat): nat {
    match FirstIndex(inserted, anchor)
    case Some(i) => idx + i
    case None => idx + |inserted|
  }

  lemma SecondBeforeIndex(lines: seq<string>, inserted: seq<string>, anchor: string, idx: nat)
    requires FirstIndex(lines, anchor) == Some(idx)
    ensures idx < |lines|
    ensures FirstIndex(LinesBefore(lines, idx, inserted), anchor) == Some(SecondBefore(inserted, anchor, idx))
  {
    hide Contains, LinesBefore;
    var all, k := LinesBefore(lines, idx, inserted), SecondBefore(inserted, anchor, idx);
    LineBefore(lines, idx, inserted, k);
    forall i | 0 <= i < k
      ensures !Contains(all[i], anchor)
    {
      LineBefore(lines, idx, inserted, i);
    }
    FirstIndexIs(all, anchor, k);
  }

  lemma LineBefore(lines: seq<string>, idx: nat, inserted: seq<string>, i: nat)
    requires idx < |lines| && i <= idx + |inserted|
    ensures |LinesBefore(lines, idx, inserted)| == |lines| + |inserted|
    ensures LinesBefore(lines, idx, inserted)[i]
         == if i < idx then lines[i] else if i < idx + |inserted| then inserted[i - idx] else lines[idx]
  {
  }

  /** Exactly when a committed `insert_before` may be repeated, whatever the file, the anchor and the content. */
  lemma RepeatInsertBeforeExactly(c: Checks, path: string, text: string, anchor: string, content: string)
    requires BeforeVerdict(c, path, text, anchor, content).Commit?
    ensures FirstIndex(Lines(text), anchor).Some?
    ensures var once, insertion := BeforeVerdict(c, path, text, anchor, content).text, EnsureNL(content);
            var idx := FirstIndex(Lines(text), anchor).value;
            var again, k := LinesBefore(Lines(text), idx, Lines(insertion)), SecondBefore(Lines(insertion), anchor, idx);
            && k < |again|
            && (Apply(once, BeforeVerdict(c, path, once, anchor, content)) == once
                <==> || RoutesOf(insertion) != []
                     || NearAnchor(again, k, insertion, false)
                     || (IsPython(path) && !c.validPython(path, Splice(again, k, k, insertion))))
  {
    hide InsertVerdict, Splice, Lines, FirstIndex, Contains, EnsureNL, NearAnchor, IsPython, RouteExists,
         RouteBeforeInit, RoutesOf, LinesBefore, SecondBefore;
    var lines, idx := Lines(text), FirstIndex(Lines(text), anchor).value;
    var insertion := EnsureNL(content);
    var once := BeforeVerdict(c, path, text, anchor, content).text;
    BeforeCommitted(c, path, text, anchor, content);
    BeforeReread(c, path, text, anchor, content);
    SecondBeforeIndex(lines, Lines(insertion), anchor, idx);
    var k := SecondBefore(Lines(insertion), anchor, idx);
    PassedGuards(c, path, text, idx, insertion, false);
    BeforePassesInit(lines, idx, Lines(insertion), k, insertion, anchor);
    EnsureNLNonEmpty(content);
    RoutesOnceMore(lines, idx, insertion);
    StopsMeans(c, path, once, k, insertion, false);
  }

  lemma BeforeReread(c: Checks, path: string, text: string, anchor: string, content: string)
    requires BeforeVerdict(c, path, text, anchor, content).Commit?
    ensures FirstIndex(Lines(text), anchor).Some?
    ensures Lines(BeforeVerdict(c, path, text, anchor, content).text)
         == LinesBefore(Lines(text), FirstIndex(Lines(text), anchor).value, Lines(EnsureNL(content)))
  {
    hide BeforeVerdict, Lines, FirstIndex, EnsureNL;
    InsertBeforeFrame(c, path, text, anchor, content);
  }

  lemma BeforePassesInit(lines: seq<string>, idx: nat, inserted: seq<string>, k: nat, insertion: string, anchor: string)
    requires idx < |lines| && k == SecondBefore(inserted, anchor, idx) && !RouteBeforeInit(lines, idx, insertion)
    ensures k <= |LinesBefore(lines, idx, inserted)| && !RouteBeforeInit(LinesBefore(lines, idx, inserted), k, insertion)
  {
    hide Contains, FirstIndex, RouteBeforeInit;
    InitStillAhead(lines, idx, LinesBefore(lines, idx, inserted), k, insertion);
  }

  /** A route of the insertion is found in the first insertion, and nowhere else. */
  lemma RoutesOnceMore(lines: seq<string>, idx: nat, insertion: string)
    requires idx <= |lines|
    ensures RouteExists(LinesBefore(lines, idx, Lines(insertion)), insertion) <==> RoutesOf(insertion) != []
  {
    hide Lines, RoutesOf;
    if RoutesOf(insertion) != [] {
      RoutesFound(LinesBefore(lines, idx, Lines(insertion)), lines[..idx], insertion, lines[idx..]);
    }
  }

  // ---------------------------------------------------------------- anchors within one line

  /** An anchor within one line that ends with a visible character; it may be indented. */
  predicate LineAnchor(anchor: string) {
    anchor != "" && NoNewline(anchor) && !IsSpace(anchor[|anchor| - 1])
  }

  lemma AnchorWithinStrip(a: string, b: string, anchor: string)
    requires !Blank(a) && LineAnchor(anchor) && Contains(b, anchor)
    ensures Contains(Strip(a + b), anchor)
  {
    var s := a + b;
    var i :| 0 <= i <= |b| - |anchor| && OccursAt(b, anchor, i);
    var p := |a| + i;
    OccursInContext(a, b, "", anchor, i);
    assert a + b + "" == s;
    LeadWithin(a, b);
    assert s[p..p + |anchor|][|anchor| - 1] == s[p + |anchor| - 1];
    TrailBeyond(s, p + |anchor| - 1, anchor[|anchor| - 1]);
    OccursWithinStrip(s, anchor, p);
  }

  lemma LeadWithin(a: string, b: string)
    requires !Blank(a)
    ensures Lead(a + b) <= |a|
  {
    var i :| 0 <= i < |a| && !IsSpace(a[i]);
    assert (a + b)[i] == a[i];
  }

  lemma TrailBeyond(s: string, p: nat, ch: char)
    requires p < |s| && s[p] == ch && !IsSpace(ch)
    ensures p < Trail(s)
  {
  }

  lemma TightBeforeBlank(a: string, b: string, t: string)
    requires Tight(t) && Blank(b) && Contains(a + b, t)
    ensures Contains(a, t)
  {
    var s := a + b;
    var i :| 0 <= i <= |s| - |t| && OccursAt(s, t, i);
    assert s[i + |t| - 1] == s[i..i + |t|][|t| - 1];
    assert forall k :: |a| <= k < |s| ==> s[k] == b[k - |a|];
    assert i + |t| <= |a|;
    assert a[i..i + |t|] == s[i..i + |t|];
    assert OccursAt(a, t, i);
  }

  /** The first call did not find the insertion in the window above the anchor line. */
  lemma NotNearBefore(c: Checks, path: string, text: string, idx: nat, insertion: string, after: bool)
    requires idx < |Lines(text)| && InsertVerdict(c, path, text, idx, insertion, after).Commit?
    ensures !NearAnchor(Lines(text), idx, insertion, after)
  {
    hide Lines, Contains, NearAnchor, Splice, IsPython, RouteExists, RouteBeforeInit;
  }

  /** A stretch directly above the anchor line, at most as high as the window, followed by blank lines: what it holds
      near the anchor the first call would have found. */
  lemma NothingAbove(lines: seq<string>, idx: nat, lo: nat, blank: string, insertion: string)
    requires lo <= idx < |lines| && idx - lo <= WindowSize(insertion) && Blank(blank) && !Blank(insertion)
    requires !NearAnchor(lines, idx, insertion, false)
    ensures !Contains(Join(lines[lo..idx]) + blank, Strip(insertion))
  {
    hide Contains, Blank, WindowSize, Strip, Tight;
    var t, size := Strip(insertion), WindowSize(insertion);
    var from := if size <= idx then idx - size else 0;
    StripIsTight(insertion);
    StripShape(insertion);
    if Contains(Join(lines[lo..idx]) + blank, t) {
      TightBeforeBlank(Join(lines[lo..idx]), blank, t);
      assert lines[from..idx] == lines[from..lo] + lines[lo..idx];
      JoinAppend(lines[from..lo], lines[lo..idx]);
      ContainsInContext(Join(lines[from..lo]), Join(lines[lo..idx]), "", t);
      assert Join(lines[from..lo]) + Join(lines[lo..idx]) + "" == Join(lines[from..idx]);
      TightSurvivesStrip(Join(lines[from..idx]), t);
    }
  }

  lemma StripOf(s: string, t: string)
    requires Contains(Strip(s), t)
    ensures Contains(s, t)
  {
    StripIsTight(s);
    ContainsTransitive(s, Strip(s), t);
  }

  /** Without the anchor on any line its text is in no window of them. */
  lemma NotInWindow(window: seq<string>, insertion: string, anchor: string)
    requires IsLineList(window) && LineAnchor(anchor) && NoLineHas(window, anchor) && Contains(Strip(insertion), anchor)
    ensures !Contains(Join(window), Strip(insertion))
  {
    hide Contains, Strip, FullLine;
    JoinContains(window, anchor);
    if Contains(Join(window), Strip(insertion)) {
      ContainsTransitive(Join(window), Strip(insertion), anchor);
    }
  }

  /** Where an inserted line holds the anchor, the second call does not find the insertion above that line. */
  lemma MovedNotNear(lines: seq<string>, idx: nat, insertion: string, anchor: string, j: nat)
    requires IsLineList(lines) && FirstIndex(lines, anchor) == Some(idx) && LineAnchor(anchor)
    requires FirstIndex(Lines(insertion), anchor) == Some(j) && EndsNL(insertion)
    requires !NearAnchor(lines, idx, insertion, false)
    ensures idx + j < |LinesBefore(lines, idx, Lines(insertion))|
    ensures !NearAnchor(LinesBefore(lines, idx, Lines(insertion)), idx + j, insertion, false)
  {
    hide Contains, Strip, WindowSize, Lines, Blank, FirstIndex, LineAnchor, Join, FullLine;
    var inserted, size := Lines(insertion), WindowSize(insertion);
    var all, k := LinesBefore(lines, idx, inserted), idx + j;
    WindowCovers(insertion);
    var lo := if size <= k then k - size else 0;
    var above, head, tail := lines[lo..idx], inserted[..j], inserted[j..];
    var window := all[lo..k];
    assert window == above + head;
    JoinAppend(above, head);
    JoinAppend(head, tail);
    assert inserted == head + tail;
    JoinLines(insertion);
    AnchorInTail(inserted, anchor, j);
    if Contains(Strip(Join(window)), Strip(insertion)) {
      StripOf(Join(window), Strip(insertion));
      if Blank(Join(head)) {
        AnchorIsInk(insertion, Join(tail), Join(head), anchor);
        NothingAbove(lines, idx, lo, Join(head), insertion);
      } else {
        AnchorWithinStrip(Join(head), Join(tail), anchor);
        NoAnchorAbove(lines, inserted, anchor, idx, j, lo);
        WindowIsLines(lines, insertion, idx, j, lo);
        NotInWindow(window, insertion, anchor);
      }
    }
  }

  lemma AnchorInTail(inserted: seq<string>, anchor: string, j: nat)
    requires FirstIndex(inserted, anchor) == Some(j)
    ensures j < |inserted| && Contains(Join(inserted[j..]), anchor)
  {
    hide Contains;
    assert inserted[j..][0] == inserted[j];
    ContainsInJoin(inserted[j..], 0, anchor);
  }

  lemma AnchorIsInk(insertion: string, tail: string, head: string, anchor: string)
    requires insertion == head + tail && Contains(tail, anchor) && LineAnchor(anchor)
    ensures !Blank(insertion)
  {
    var i :| 0 <= i <= |tail| - |anchor| && OccursAt(tail, anchor, i);
    var p := i + |anchor| - 1;
    assert tail[p] == tail[i..i + |anchor|][|anchor| - 1];
    assert insertion[|head| + p] == tail[p];
  }

  lemma NoAnchorAbove(lines: seq<string>, inserted: seq<string>, anchor: string, idx: nat, j: nat, lo: nat)
    requires FirstIndex(lines, anchor) == Some(idx) && FirstIndex(inserted, anchor) == Some(j) && lo <= idx
    ensures NoLineHas(lines[lo..idx] + inserted[..j], anchor)
  {
    hide Contains;
  }

  lemma WindowIsLines(lines: seq<string>, insertion: string, idx: nat, j: nat, lo: nat)
    requires IsLineList(lines) && lo <= idx < |lines| && j <= |Lines(insertion)| && EndsNL(insertion)
    ensures IsLineList(lines[lo..idx] + Lines(insertion)[..j])
  {
    hide Lines, FullLine;
    FullLinesOf(insertion);
  }

  /** For such an anchor the second call finds the insertion exactly when it is not blank and no line of it holds the
      anchor. */
  lemma NearExactly(c: Checks, path: string, text: string, anchor: string, content: string)
    requires BeforeVerdict(c, path, text, anchor, content).Commit? && LineAnchor(anchor)
    ensures FirstIndex(Lines(text), anchor).Some?
    ensures var insertion, idx := EnsureNL(content), FirstIndex(Lines(text), anchor).value;
            var again, k := LinesBefore(Lines(text), idx, Lines(insertion)), SecondBefore(Lines(insertion), anchor, idx);
            && k < |again|
            && (NearAnchor(again, k, insertion, false) <==> !Blank(content) && NoLineHas(Lines(insertion), anchor))
  {
    hide InsertVerdict, Splice, Lines, FirstIndex, Contains, Blank, EnsureNL, NearAnchor, LineAnchor;
    var lines, idx := Lines(text), FirstIndex(Lines(text), anchor).value;
    var insertion := EnsureNL(content);
    var inserted, n := Lines(insertion), |Lines(insertion)|;
    BeforeCommitted(c, path, text, anchor, content);
    SecondBeforeIndex(lines, inserted, anchor, idx);
    EnsureNLBlank(content);
    NotNearBefore(c, path, text, idx, insertion, false);
    JoinLines(text);
    NoneHas(inserted, anchor);
    if FirstIndex(inserted, anchor).Some? {
      MovedNotNear(lines, idx, insertion, anchor, FirstIndex(inserted, anchor).value);
    } else if Blank(insertion) {
      BlankNotNear(LinesBefore(lines, idx, inserted), idx + n, insertion, false);
    } else {
      assert LinesBefore(lines, idx, inserted)[idx + n - n..idx + n] == inserted;
      NearBeforeInsert(LinesBefore(lines, idx, inserted), idx + n, insertion);
    }
  }

  lemma NoneHas(inserted: seq<string>, anchor: string)
    ensures FirstIndex(inserted, anchor).None? <==> NoLineHas(inserted, anchor)
  {
    hide Contains;
  }

  /** So with an anchor within one line, repeating is safe exactly when the content declares a route, or it is not blank
      and none of its lines holds the anchor, or the repetition is no valid Python. */
  lemma RepeatInsertBeforeLine(c: Checks, path: string, text: string, anchor: string, content: string)
    requires BeforeVerdict(c, path, text, anchor, content).Commit? && LineAnchor(anchor)
    ensures FirstIndex(Lines(text), anchor).Some?
    ensures var once, insertion := BeforeVerdict(c, path, text, anchor, content).text, EnsureNL(content);
            var idx := FirstIndex(Lines(text), anchor).value;
            var again, k := LinesBefore(Lines(text), idx, Lines(insertion)), SecondBefore(Lines(insertion), anchor, idx);
            && k < |again|
            && (Apply(once, BeforeVerdict(c, path, once, anchor, content)) == once
                <==> || RoutesOf(insertion) != []
                     || (!Blank(content) && NoLineHas(Lines(insertion), anchor))
                     || (IsPython(path) && !c.validPython(path, Splice(again, k, k, insertion))))
  {
    hide BeforeVerdict, Splice, Lines, FirstIndex, Contains, Blank, EnsureNL, NearAnchor, LineAnchor, IsPython, RoutesOf,
         LinesBefore, SecondBefore, NoLineHas;
    RepeatInsertBeforeExactly(c, path, text, anchor, content);
    NearExactly(c, path, text, anchor, content);
  }
}
