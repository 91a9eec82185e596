/** What one edit of the line-edit engine does to the lines of the file when it is read again. */
module EditProofs {
  import opened Text
  import opened Insertion
  import opened Editor

  // ---------------------------------------------------------------- re-reading a spliced text

  lemma SpliceText(lines: seq<string>, from: nat, to: nat, middle: string)
    requires from <= to <= |lines|
    ensures Splice(lines, from, to, middle) == Join(lines[..from]) + middle + Join(lines[to..])
  {
    JoinThree(lines[..from], middle, lines[to..]);
  }

  /** Complete lines, a text ending in a newline, and remaining lines are read back as they were put together. */
  lemma SpliceLines(lines: seq<string>, from: nat, to: nat, middle: string)
    requires IsLineList(lines) && from <= to <= |lines| && EndsNL(middle)
    requires FullLines(lines[..from])
    ensures Lines(Splice(lines, from, to, middle)) == lines[..from] + Lines(middle) + lines[to..]
  {
    hide Lines, Join, Splice;
    SpliceText(lines, from, to, middle);
    var a, b := Join(lines[..from]), Join(lines[to..]);
    JoinFullTerminated(lines[..from]);
    LinesJoin(lines[..from]);
    LinesJoin(lines[to..]);
    assert a + middle + b == a + (middle + b);
    LinesAppend(a, middle + b);
    LinesAppend(middle, b);
  }

  /** An anchor line without terminator is the last line of the file, and what is inserted after it continues that
      line. */
  lemma GluedSplice(lines: seq<string>, middle: string)
    requires IsLineList(lines) && lines != [] && OpenLine(lines[|lines| - 1]) && EndsNL(middle)
    ensures Lines(middle) != []
    ensures Lines(Splice(lines, |lines|, |lines|, middle))
         == lines[..|lines| - 1] + [lines[|lines| - 1] + Lines(middle)[0]] + Lines(middle)[1..]
  {
    hide Lines, Splice, Contains;
    var k := |lines| - 1;
    var a, o := Join(lines[..k]), lines[k];
    SpliceText(lines, |lines|, |lines|, middle);
    assert lines[..|lines|] == lines && lines[|lines|..] == [];
    assert lines == lines[..k] + [o] + [];
    JoinThree(lines[..k], o, []);
    assert Splice(lines, |lines|, |lines|, middle) == a + (o + middle);
    JoinFullTerminated(lines[..k]);
    LinesJoin(lines[..k]);
    LinesAppend(a, o + middle);
    GluedLines(o, middle);
  }

  lemma OpenOrFull(lines: seq<string>, idx: nat)
    requires IsLineList(lines) && idx < |lines|
    ensures FullLine(lines[idx]) || (idx == |lines| - 1 && OpenLine(lines[idx]))
    ensures FullLines(lines[..idx])
    ensures FullLine(lines[idx]) ==> FullLines(lines[..idx + 1])
  {
  }

  lemma NormalizedEndsNL(anchorLine: string, insertion: string)
    requires EndsNL(insertion)
    ensures EndsNL(Normalized(anchorLine, insertion))
  {
  }

  // ---------------------------------------------------------------- frame of one edit

  /** What a committed insert has passed, and the text it commits. */
  lemma AfterCommitted(c: Checks, path: string, text: string, anchor: string, content: string)
    requires AfterVerdict(c, path, text, anchor, content).Commit?
    ensures AfterIndex(Lines(text), anchor).Some?
    ensures var lines, idx := Lines(text), AfterIndex(Lines(text), anchor).value;
            var insertion := AfterInsertion(text, idx, content);
            && EndsNL(insertion)
            && !AfterBlockHeader(lines[idx], insertion) && !AfterDecoratorLine(lines[idx], insertion)
            && InsertVerdict(c, path, text, idx, insertion, true).Commit?
            && AfterVerdict(c, path, text, anchor, content) == Commit(Splice(lines, idx + 1, idx + 1, insertion))
  {
    hide Normalized, RouteExists, RouteBeforeInit, NearAnchor, AfterBlockHeader, AfterDecoratorLine, Splice,
         Lines, AfterIndex;
    NormalizedEndsNL(Lines(text)[AfterIndex(Lines(text), anchor).value], EnsureNL(content));
  }

  lemma BeforeCommitted(c: Checks, path: string, text: string, anchor: string, content: string)
    requires BeforeVerdict(c, path, text, anchor, content).Commit?
    ensures FirstIndex(Lines(text), anchor).Some?
    ensures var idx := FirstIndex(Lines(text), anchor).value;
            && InsertVerdict(c, path, text, idx, EnsureNL(content), false).Commit?
            && BeforeVerdict(c, path, text, anchor, content) == Commit(Splice(Lines(text), idx, idx, EnsureNL(content)))
  {
    hide RouteExists, RouteBeforeInit, NearAnchor, Splice, Lines, Contains;
  }

  lemma ReplaceCommitted(c: Checks, path: string, text: string, start: int, end: int, content: string)
    requires ReplaceVerdict(c, path, text, start, end, content).Commit?
    ensures 1 <= start <= end <= |Lines(text)|
    ensures ReplaceVerdict(c, path, text, start, end, content).text == Splice(Lines(text), start - 1, end, EnsureNL(content))
  {
    hide RouteExists, Splice, Lines, Contains;
  }

  lemma AfterSpliceFrame(text: string, idx: nat, insertion: string)
    requires idx < |Lines(text)| && EndsNL(insertion)
    ensures var lines, inserted := Lines(text), Lines(insertion);
            var reread := Lines(Splice(lines, idx + 1, idx + 1, insertion));
            && inserted != []
            && (reread == lines[..idx + 1] + inserted + lines[idx + 1..] <==> FullLine(lines[idx]))
            && (!FullLine(lines[idx]) ==> reread == lines[..idx] + [lines[idx] + inserted[0]] + inserted[1..])
  {
    var lines := Lines(text);
    JoinLines(text);
    OpenOrFull(lines, idx);
    if FullLine(lines[idx]) {
      SpliceLines(lines, idx + 1, idx + 1, insertion);
    } else {
      GluedSplice(lines, insertion);
      assert |lines[..idx] + [lines[idx] + Lines(insertion)[0]] + Lines(insertion)[1..]|
          != |lines[..idx + 1] + Lines(insertion) + lines[idx + 1..]|;
    }
  }

  /** The lines before and after the insertion are untouched exactly when the anchor line is terminated; otherwise
      the anchor line itself is continued. */
  lemma InsertAfterFrame(c: Checks, path: string, text: string, anchor: string, content: string)
    requires AfterVerdict(c, path, text, anchor, content).Commit?
    ensures AfterIndex(Lines(text), anchor).Some?
    ensures var lines, idx := Lines(text), AfterIndex(Lines(text), anchor).value;
            var inserted := Lines(AfterInsertion(text, idx, content));
            var reread := Lines(AfterVerdict(c, path, text, anchor, content).text);
            && inserted != []
            && (reread == lines[..idx + 1] + inserted + lines[idx + 1..] <==> FullLine(lines[idx]))
            && (!FullLine(lines[idx]) ==> reread == lines[..idx] + [lines[idx] + inserted[0]] + inserted[1..])
  {
    hide AfterVerdict, InsertVerdict, Normalized, RouteExists, RouteBeforeInit, NearAnchor, AfterBlockHeader,
         AfterDecoratorLine, Splice, Lines, AfterIndex;
    AfterCommitted(c, path, text, anchor, content);
    var idx := AfterIndex(Lines(text), anchor).value;
    AfterSpliceFrame(text, idx, AfterInsertion(text, idx, content));
  }

  lemma InsertBeforeFrame(c: Checks, path: string, text: string, anchor: string, content: string)
    requires BeforeVerdict(c, path, text, anchor, content).Commit?
    ensures FirstIndex(Lines(text), anchor).Some?
    ensures var lines, idx := Lines(text), FirstIndex(Lines(text), anchor).value;
            Lines(BeforeVerdict(c, path, text, anchor, content).text)
            == lines[..idx] + Lines(EnsureNL(content)) + lines[idx..]
  {
    hide BeforeVerdict, InsertVerdict, FirstIndex, RouteExists, RouteBeforeInit, NearAnchor, Splice, Lines, Join,
         Contains;
    BeforeCommitted(c, path, text, anchor, content);
    var lines, idx := Lines(text), FirstIndex(Lines(text), anchor).value;
    JoinLines(text);
    OpenOrFull(lines, idx);
    SpliceLines(lines, idx, idx, EnsureNL(content));
  }

  lemma ReplaceRangeFrame(c: Checks, path: string, text: string, start: int, end: int, content: string)
    requires ReplaceVerdict(c, path, text, start, end, content).Commit?
    ensures 1 <= start <= end <= |Lines(text)|
    ensures Lines(ReplaceVerdict(c, path, text, start, end, content).text)
         == Lines(text)[..start - 1] + Lines(EnsureNL(content)) + Lines(text)[end..]
  {
    hide ReplaceVerdict, RouteExists, Splice, Lines, Join, Contains;
    ReplaceCommitted(c, path, text, start, end, content);
    JoinLines(text);
    OpenOrFull(Lines(text), start - 1);
    SpliceLines(Lines(text), start - 1, end, EnsureNL(content));
  }

  /** Appending keeps the old text as it is, terminates its last line if need be, and adds the new lines. */
  lemma AppendFrame(c: Checks, path: string, existing: string, content: string)
    requires AppendVerdict(c, path, existing, content).Commit?
    ensures var text := AppendVerdict(c, path, existing, content).text;
            && StartsWith(text, existing) && EndsWith(text, content)
            && Lines(text) == Lines(existing + if Terminated(existing) then "" else "\n") + Lines(content)
            && |Lines(text)| == |Lines(existing)| + |Lines(content)|
  {
    hide Lines, CompletePythonModule, IsPython, Terminated;
    var closed := existing + if Terminated(existing) then "" else "\n";
    assert AppendVerdict(c, path, existing, content).text == closed + content;
    ClosedTerminated(existing);
    LinesAppend(closed, content);
    if Terminated(existing) {
      assert closed == existing;
    } else {
      AppendingNewline(existing);
    }
    assert (closed + content)[|closed|..] == content && (closed + content)[..|existing|] == existing;
  }

  lemma ClosedTerminated(s: string)
    ensures Terminated(s + if Terminated(s) then "" else "\n")
  {
  }

  lemma AppendingNewline(s: string)
    requires !Terminated(s)
    ensures |Lines(s + "\n")| == |Lines(s)|
  {
    var lines := Lines(s);
    JoinLines(s);
    JoinEnds(lines);
    var k := |lines| - 1;
    OpenOrFull(lines, k);
    GluedSplice(lines, "\n");
    SpliceText(lines, |lines|, |lines|, "\n");
    assert lines[..|lines|] == lines && lines[|lines|..] == [];
    assert Splice(lines, |lines|, |lines|, "\n") == s + "\n" + "";
    assert s + "\n" + "" == s + "\n";
    assert FullLine("\n");
    assert "\n" == "\n" + "";
    LinesCons("\n", "");
  }
}
