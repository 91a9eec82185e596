/** The parts of Python's `str` that the modelled code relies on: substring search, `strip`, `splitlines`, reading
    a file as lines and joining lines again. A text is a `string` without carriage returns. */
module Text {

  datatype Option<+T> = None | Some(value: T)

  // ---------------------------------------------------------------- characters

  /** A set of code points, as consecutive ranges. */
  datatype Ranges = End | Span(lo: int, hi: int, rest: Ranges)

  predicate InRanges(n: int, ranges: Ranges) {
    match ranges
    case End => false
    case Span(lo, hi, rest) => lo <= n <= hi || InRanges(n, rest)
  }

  const SPACES := Span(9, 13, Span(28, 32, Span(0x85, 0x85, Span(0xA0, 0xA0, Span(0x1680, 0x1680,
    Span(0x2000, 0x200A, Span(0x2028, 0x2029, Span(0x202F, 0x202F, Span(0x205F, 0x205F, Span(0x3000, 0x3000, End))))))))))

  const BREAKS := Span(10, 12, Span(28, 30, Span(0x85, 0x85, Span(0x2028, 0x2029, End))))

  /** `str.isspace` of one character. */
  predicate IsSpace(c: char) {
    InRanges(c as int, SPACES)
  }

  /** A line boundary of `str.splitlines`. */
  predicate IsBreak(c: char) {
    InRanges(c as int, BREAKS)
  }

  /** No range reaches the printable ASCII characters. */
  predicate AvoidsPrintable(ranges: Ranges) {
    match ranges
    case End => true
    case Span(lo, hi, rest) => (hi <= 32 || lo >= 127) && AvoidsPrintable(rest)
  }

  lemma {:induction false} PrintableOutside(n: int, ranges: Ranges)
    requires 33 <= n <= 126 && AvoidsPrintable(ranges)
    ensures !InRanges(n, ranges)
  {
    if ranges.Span? {
      PrintableOutside(n, ranges.rest);
    }
  }

  predicate Printable(c: char) {
    33 <= c as int <= 126
  }

  lemma PrintableIsInk(c: char)
    requires Printable(c)
    ensures !IsSpace(c) && !IsBreak(c)
  {
    PrintableOutside(c as int, SPACES);
    PrintableOutside(c as int, BREAKS);
  }

  function LowerChar(c: char): char {
    if 'A' <= c <= 'Z' then (c as int + 32) as char else c
  }

  function Lower(s: string): (r: string)
    ensures |r| == |s|
  {
    seq(|s|, i requires 0 <= i < |s| => LowerChar(s[i]))
  }

  /** No capital letter is left, and nothing but capital letters changes. */
  lemma LowerMeans(s: string, i: nat)
    requires i < |s|
    ensures !('A' <= Lower(s)[i] <= 'Z')
    ensures Lower(s)[i] == s[i] || ('A' <= s[i] <= 'Z' && Lower(s)[i] as int == s[i] as int + 32)
    ensures Lower(Lower(s)) == Lower(s)
  {
    assert forall k :: 0 <= k < |s| ==> Lower(Lower(s))[k] == Lower(s)[k];
  }

  /** The whitespace characters by their code points, and the line boundaries among them. */
  lemma SpaceCodes(c: char)
    ensures var n := c as int;
            && (IsSpace(c) <==> || n in {9, 10, 11, 12, 13, 28, 29, 30, 31, 32, 133, 160, 5760, 8232, 8233, 8239, 8287, 12288}
                                || 8192 <= n <= 8202)
            && (IsBreak(c) <==> n in {10, 11, 12, 28, 29, 30, 133, 8232, 8233})
            && (IsBreak(c) ==> IsSpace(c))
  {
    CodesOfSpaces(c as int);
    CodesOfBreaks(c as int);
  }

  lemma SpanMeans(n: int, lo: int, hi: int, rest: Ranges)
    ensures InRanges(n, Span(lo, hi, rest)) <==> lo <= n <= hi || InRanges(n, rest)
  {
  }

  lemma CodesOfSpaces(n: int)
    ensures InRanges(n, SPACES) <==>
            || 9 <= n <= 13 || 28 <= n <= 32 || n == 133 || n == 160 || n == 5760 || 8192 <= n <= 8202
            || 8232 <= n <= 8233 || n == 8239 || n == 8287 || n == 12288
  {
    hide InRanges;
    NoRange(n);
    var r9 := Span(0x3000, 0x3000, End);
    SpanMeans(n, 0x3000, 0x3000, End);
    var r8 := Span(0x205F, 0x205F, r9);
    SpanMeans(n, 0x205F, 0x205F, r9);
    var r7 := Span(0x202F, 0x202F, r8);
    SpanMeans(n, 0x202F, 0x202F, r8);
    var r6 := Span(0x2028, 0x2029, r7);
    SpanMeans(n, 0x2028, 0x2029, r7);
    var r5 := Span(0x2000, 0x200A, r6);
    SpanMeans(n, 0x2000, 0x200A, r6);
    var r4 := Span(0x1680, 0x1680, r5);
    SpanMeans(n, 0x1680, 0x1680, r5);
    var r3 := Span(0xA0, 0xA0, r4);
    SpanMeans(n, 0xA0, 0xA0, r4);
    var r2 := Span(0x85, 0x85, r3);
    SpanMeans(n, 0x85, 0x85, r3);
    var r1 := Span(28, 32, r2);
    SpanMeans(n, 28, 32, r2);
    var r0 := Span(9, 13, r1);
    SpanMeans(n, 9, 13, r1);
    assert r0 == SPACES;
  }

  lemma CodesOfBreaks(n: int)
    ensures InRanges(n, BREAKS) <==> 10 <= n <= 12 || 28 <= n <= 30 || n == 133 || 8232 <= n <= 8233
  {
    hide InRanges;
    NoRange(n);
    var r3 := Span(0x2028, 0x2029, End);
    SpanMeans(n, 0x2028, 0x2029, End);
    var r2 := Span(0x85, 0x85, r3);
    SpanMeans(n, 0x85, 0x85, r3);
    var r1 := Span(28, 30, r2);
    SpanMeans(n, 28, 30, r2);
    var r0 := Span(10, 12, r1);
    SpanMeans(n, 10, 12, r1);
    assert r0 == BREAKS;
  }

  lemma NoRange(n: int)
    ensures !InRanges(n, End)
  {
  }

  // ---------------------------------------------------------------- substrings

  predicate OccursAt(s: string, t: string, i: int) {
    0 <= i <= |s| - |t| && s[i..i + |t|] == t
  }

  /** Python's `t in s`. */
  predicate Contains(s: string, t: string) {
    exists i :: 0 <= i <= |s| - |t| && OccursAt(s, t, i)
  }

  predicate StartsWith(s: string, t: string) {
    |t| <= |s| && s[..|t|] == t
  }

  predicate EndsWith(s: string, t: string) {
    |t| <= |s| && s[|s| - |t|..] == t
  }

  /** Sequences may be regrouped. */
  lemma Regrouped<T>(a: seq<T>, b: seq<T>, c: seq<T>)
    ensures a + (b + c) == a + b + c
  {
  }

  lemma OccursChars(s: string, t: string, i: int)
    requires OccursAt(s, t, i)
    ensures forall k :: 0 <= k < |t| ==> s[i + k] == t[k]
  {
    forall k | 0 <= k < |t|
      ensures s[i + k] == t[k]
    {
      assert s[i..i + |t|][k] == s[i + k];
    }
  }

  /** An occurrence within a slice of the text. */
  lemma OccursInSlice(s: string, t: string, i: int, a: nat, b: nat)
    requires OccursAt(s, t, i) && a <= i && i + |t| <= b <= |s|
    ensures OccursAt(s[a..b], t, i - a) && Contains(s[a..b], t)
  {
    SliceOfSlice(s, a, b, i, i + |t|);
    assert OccursAt(s[a..b], t, i - a);
  }

  lemma OccursInContext(a: string, s: string, b: string, t: string, i: int)
    requires OccursAt(s, t, i)
    ensures OccursAt(a + s + b, t, |a| + i)
  {
    assert (a + s + b)[|a| + i..|a| + i + |t|] == s[i..i + |t|];
  }

  lemma ContainsInContext(a: string, s: string, b: string, t: string)
    requires Contains(s, t)
    ensures Contains(a + s + b, t)
  {
    var i :| 0 <= i <= |s| - |t| && OccursAt(s, t, i);
    OccursInContext(a, s, b, t, i);
    var w := a + s + b;
    assert OccursAt(w, t, |a| + i);
  }

  lemma ContainsItself(s: string)
    ensures Contains(s, s)
  {
    assert OccursAt(s, s, 0);
  }

  lemma ContainsTransitive(a: string, b: string, c: string)
    requires Contains(a, b) && Contains(b, c)
    ensures Contains(a, c)
  {
    var i :| 0 <= i <= |a| - |b| && OccursAt(a, b, i);
    assert a == a[..i] + b + a[i + |b|..];
    ContainsInContext(a[..i], b, a[i + |b|..], c);
  }

  // ---------------------------------------------------------------- strip

  predicate Blank(s: string) {
    forall i :: 0 <= i < |s| ==> IsSpace(s[i])
  }

  /** Number of leading whitespace characters. */
  function Lead(s: string): (n: nat)
    ensures n <= |s|
    ensures forall i :: 0 <= i < n ==> IsSpace(s[i])
    ensures n < |s| ==> !IsSpace(s[n])
  {
    if s == "" || !IsSpace(s[0]) then 0 else 1 + Lead(s[1..])
  }

  /** Length of `s` without its trailing whitespace. */
  function Trail(s: string): (n: nat)
    ensures n <= |s|
    ensures forall i :: n <= i < |s| ==> IsSpace(s[i])
    ensures n > 0 ==> !IsSpace(s[n - 1])
  {
    if s == "" || !IsSpace(s[|s| - 1]) then |s| else Trail(s[..|s| - 1])
  }

  /** Python's `s.strip()`. */
  function Strip(s: string): string {
    if Lead(s) <= Trail(s) then s[Lead(s)..Trail(s)] else ""
  }

  function LStrip(s: string): string {
    s[Lead(s)..]
  }

  /** A blank text strips to nothing; any other text strips to the stretch between its first and last non-space
      characters. */
  lemma StripShape(s: string)
    ensures Blank(s) <==> Strip(s) == ""
    ensures !Blank(s) ==> Lead(s) < Trail(s) && Strip(s) == s[Lead(s)..Trail(s)]
  {
    if !Blank(s) {
      var i :| 0 <= i < |s| && !IsSpace(s[i]);
      assert Lead(s) <= i < Trail(s);
    }
  }

  /** Starts and ends with a non-space character. */
  predicate Tight(t: string) {
    t != "" && !IsSpace(t[0]) && !IsSpace(t[|t| - 1])
  }

  lemma StripIsTight(s: string)
    ensures !Blank(s) ==> Tight(Strip(s))
    ensures Contains(s, Strip(s))
  {
    StripShape(s);
    var w := Strip(s);
    if Blank(s) {
      assert OccursAt(s, w, 0);
    } else {
      assert OccursAt(s, w, Lead(s));
      assert w[0] == s[Lead(s)] && w[|w| - 1] == s[Trail(s) - 1];
    }
  }

  /** Stripping the text searched never loses an occurrence of a tight pattern. */
  lemma TightSurvivesStrip(s: string, t: string)
    requires Tight(t)
    ensures Contains(s, t) <==> Contains(Strip(s), t)
  {
    if Contains(Strip(s), t) {
      StripIsTight(s);
      ContainsTransitive(s, Strip(s), t);
    }
    if Contains(s, t) {
      var i :| 0 <= i <= |s| - |t| && OccursAt(s, t, i);
      TightWithinStrip(s, t, i);
    }
  }

  lemma SliceOfSlice<T>(s: seq<T>, a: nat, b: nat, i: nat, j: nat)
    requires a <= i <= j <= b <= |s|
    ensures s[a..b][i - a..j - a] == s[i..j]
  {
    var w := s[a..b];
    forall k | 0 <= k < j - i
      ensures w[i - a..j - a][k] == s[i..j][k]
    {
      assert w[i - a..j - a][k] == w[i - a + k] == s[a + (i - a + k)];
      assert s[i..j][k] == s[i + k];
    }
  }

  lemma OccursWithinStrip(s: string, t: string, i: int)
    requires OccursAt(s, t, i) && Lead(s) <= i && i + |t| <= Trail(s)
    ensures Contains(Strip(s), t)
  {
    var w := Strip(s);
    OccursInSlice(s, t, i, Lead(s), Trail(s));
    assert w == s[Lead(s)..Trail(s)];
  }

  lemma TightWithinStrip(s: string, t: string, i: int)
    requires Tight(t) && OccursAt(s, t, i)
    ensures Lead(s) <= i && i + |t| <= Trail(s)
    ensures Contains(Strip(s), t)
  {
    assert s[i] == s[i..i + |t|][0] && s[i + |t| - 1] == s[i..i + |t|][|t| - 1];
    assert Lead(s) <= i && i + |t| - 1 < Trail(s);
    OccursWithinStrip(s, t, i);
  }

  /** What `a in b` says after both sides were stripped. */
  lemma StrippedContains(b: string, a: string)
    requires Contains(b, a) && !Blank(a)
    ensures Contains(Strip(b), Strip(a))
  {
    StripIsTight(a);
    ContainsTransitive(b, a, Strip(a));
    TightSurvivesStrip(b, Strip(a));
  }

  // ---------------------------------------------------------------- lines of a file

  predicate NoNewline(s: string) {
    forall i :: 0 <= i < |s| ==> s[i] != '\n'
  }

  predicate EndsNL(s: string) {
    s != "" && s[|s| - 1] == '\n'
  }

  /** A text made of complete lines. */
  predicate Terminated(s: string) {
    s == "" || EndsNL(s)
  }

  /** One line followed by its terminator. */
  predicate FullLine(l: string) {
    EndsNL(l) && forall i :: 0 <= i < |l| - 1 ==> l[i] != '\n'
  }

  /** A last line that the file does not terminate. */
  predicate OpenLine(l: string) {
    l != "" && NoNewline(l)
  }

  /** Length of the first line, terminator included. */
  function LineLen(s: string): (n: nat)
    requires s != ""
    ensures 0 < n <= |s|
    ensures forall i :: 0 <= i < n - 1 ==> s[i] != '\n'
    ensures n < |s| ==> s[n - 1] == '\n'
  {
    if s[0] == '\n' || |s| == 1 then 1 else 1 + LineLen(s[1..])
  }

  /** `open(path).readlines()`. */
  function Lines(s: string): seq<string>
    decreases |s|
  {
    if s == "" then [] else [s[..LineLen(s)]] + Lines(s[LineLen(s)..])
  }

  /** `"".join(lines)`. */
  function Join(ls: seq<string>): string {
    if ls == [] then "" else ls[0] + Join(ls[1..])
  }

  predicate FullLines(ls: seq<string>) {
    forall i :: 0 <= i < |ls| ==> FullLine(ls[i])
  }

  /** What `readlines` can return: every line is complete, the last one possibly without terminator. */
  predicate IsLineList(ls: seq<string>) {
    && (forall i :: 0 <= i < |ls| - 1 ==> FullLine(ls[i]))
    && (ls != [] ==> FullLine(ls[|ls| - 1]) || OpenLine(ls[|ls| - 1]))
  }

  lemma LineLenUnique(a: string, b: string)
    requires FullLine(a)
    ensures LineLen(a + b) == |a|
  {
    var s := a + b;
    assert s[|a| - 1] == '\n';
    assert forall i :: 0 <= i < |a| - 1 ==> s[i] == a[i];
  }

  lemma LinesCons(a: string, b: string)
    requires FullLine(a)
    ensures Lines(a + b) == [a] + Lines(b)
  {
    LineLenUnique(a, b);
    assert (a + b)[..|a|] == a && (a + b)[|a|..] == b;
  }

  lemma LinesOpen(l: string)
    requires OpenLine(l)
    ensures Lines(l) == [l]
  {
    assert LineLen(l) == |l|;
    assert l[..|l|] == l && l[|l|..] == "";
  }

  lemma LinesUnfold(s: string)
    requires s != ""
    ensures Lines(s) == [s[..LineLen(s)]] + Lines(s[LineLen(s)..])
  {
  }

  /** The first line of a text, and what follows it. */
  lemma LinesHead(s: string)
    requires s != ""
    ensures var n := LineLen(s);
            && s == s[..n] + s[n..] && Lines(s) == [s[..n]] + Lines(s[n..])
            && (FullLine(s[..n]) || (OpenLine(s[..n]) && s[n..] == ""))
  {
    hide Lines, LineLen;
    LinesUnfold(s);
    var n := LineLen(s);
    assert forall i :: 0 <= i < n ==> s[..n][i] == s[i];
    if s[n - 1] != '\n' {
      assert n == |s|;
    }
  }

  lemma {:induction false} JoinLines(s: string)
    ensures Join(Lines(s)) == s
    ensures IsLineList(Lines(s))
    decreases |s|
  {
    if s != "" {
      var n := LineLen(s);
      LinesHead(s);
      JoinLines(s[n..]);
      assert Lines(s)[1..] == Lines(s[n..]);
    }
  }

  lemma {:induction false} LinesJoin(ls: seq<string>)
    requires IsLineList(ls)
    ensures Lines(Join(ls)) == ls
  {
    if ls != [] {
      LinesJoin(ls[1..]);
      if FullLine(ls[0]) {
        LinesCons(ls[0], Join(ls[1..]));
      } else {
        assert |ls| == 1;
        assert Join(ls[1..]) == "" && Join(ls) == ls[0];
        LinesOpen(ls[0]);
      }
    }
  }

  lemma {:induction false} JoinAppend(a: seq<string>, b: seq<string>)
    ensures Join(a + b) == Join(a) + Join(b)
  {
    if a == [] {
      assert a + b == b;
    } else {
      JoinAppend(a[1..], b);
      assert (a + b)[0] == a[0] && (a + b)[1..] == a[1..] + b;
      assert Join(a + b) == a[0] + Join(a[1..] + b);
      Regrouped(a[0], Join(a[1..]), Join(b));
    }
  }

  lemma JoinOne(x: string)
    ensures Join([x]) == x
  {
    assert Join([x][1..]) == "";
  }

  lemma JoinThree(a: seq<string>, x: string, b: seq<string>)
    ensures Join(a + [x] + b) == Join(a) + x + Join(b)
  {
    JoinAppend(a + [x], b);
    JoinAppend(a, [x]);
    JoinOne(x);
  }

  lemma NoLines()
    ensures Lines("") == []
  {
  }

  /** A text appended behind an open line continues that line. */
  lemma GluedLines(open: string, s: string)
    requires OpenLine(open) && s != ""
    ensures Lines(s) != []
    ensures Lines(open + s) == [open + Lines(s)[0]] + Lines(s)[1..]
  {
    hide Lines;
    LinesHead(s);
    var n := LineLen(s);
    var head, tail := s[..n], s[n..];
    assert open + s == (open + head) + tail;
    if FullLine(head) {
      LinesCons(open + head, tail);
    } else {
      assert open + s == open + head;
      LinesOpen(open + head);
      NoLines();
    }
  }

  /** A text ends with a newline exactly when its last line does. */
  lemma {:induction false} JoinEnds(ls: seq<string>)
    requires ls != [] && IsLineList(ls)
    ensures Join(ls) != ""
    ensures EndsNL(Join(ls)) <==> FullLine(ls[|ls| - 1])
  {
    if |ls| == 1 {
      assert Join(ls[1..]) == "" && Join(ls) == ls[0];
    } else {
      JoinEnds(ls[1..]);
      var r := Join(ls[1..]);
      assert Join(ls) == ls[0] + r;
      assert (ls[0] + r)[|ls[0] + r| - 1] == r[|r| - 1];
    }
  }

  lemma JoinFullTerminated(ls: seq<string>)
    requires FullLines(ls)
    ensures Terminated(Join(ls))
  {
    if ls != [] {
      JoinEnds(ls);
    }
  }

  lemma FullLinesOf(s: string)
    ensures FullLines(Lines(s)) <==> Terminated(s)
  {
    hide Lines, Join, FullLine, OpenLine, EndsNL;
    JoinLines(s);
    if Lines(s) != [] {
      JoinEnds(Lines(s));
    } else {
      JoinNone();
    }
  }

  lemma JoinNone()
    ensures Join([]) == ""
  {
  }

  /** Re-reading complete lines followed by any other lines. */
  lemma LinesAppend(a: string, b: string)
    requires Terminated(a)
    ensures Lines(a + b) == Lines(a) + Lines(b)
  {
    hide Lines, Join, FullLine, OpenLine, Terminated;
    JoinLines(a);
    JoinLines(b);
    JoinAppend(Lines(a), Lines(b));
    FullLinesOf(a);
    LinesJoin(Lines(a) + Lines(b));
  }

  lemma ContainsInJoin(ls: seq<string>, i: nat, t: string)
    requires i < |ls| && Contains(ls[i], t)
    ensures Contains(Join(ls), t)
  {
    assert ls == ls[..i] + [ls[i]] + ls[i + 1..];
    JoinThree(ls[..i], ls[i], ls[i + 1..]);
    ContainsInContext(Join(ls[..i]), ls[i], Join(ls[i + 1..]), t);
  }

  lemma InsideOccurrence(s: string, t: string, p: nat, q: nat)
    requires p + |t| <= |s| && p <= q < p + |t| && forall k :: 0 <= k < |t| ==> s[p + k] == t[k]
    ensures s[q] == t[q - p]
  {
    assert s[p + (q - p)] == t[q - p];
  }

  lemma NotAcross(a: string, b: string, t: string, p: nat)
    requires Terminated(a) && NoNewline(t) && p + |t| <= |a + b| && p + |t| > |a|
    requires forall k :: 0 <= k < |t| ==> (a + b)[p + k] == t[k]
    ensures p >= |a|
  {
    if p < |a| {
      InsideOccurrence(a + b, t, p, |a| - 1);
    }
  }

  /** A pattern without newline cannot straddle the end of a complete line. */
  lemma OccursLeftOrRight(a: string, b: string, t: string)
    requires Terminated(a) && t != "" && NoNewline(t) && Contains(a + b, t)
    ensures Contains(a, t) || Contains(b, t)
  {
    var s := a + b;
    var p :| 0 <= p <= |s| - |t| && OccursAt(s, t, p);
    OccursChars(s, t, p);
    if p + |t| <= |a| {
      OccursInSlice(s, t, p, 0, |a|);
      assert s[0..|a|] == a;
    } else {
      NotAcross(a, b, t, p);
      OccursInSlice(s, t, p, |a|, |s|);
      assert s[|a|..|s|] == b;
    }
  }

  /** A pattern without newline is found in joined lines exactly when some line holds it. */
  lemma {:induction false} JoinContains(ls: seq<string>, t: string)
    requires IsLineList(ls) && t != "" && NoNewline(t)
    ensures Contains(Join(ls), t) <==> exists i :: 0 <= i < |ls| && Contains(ls[i], t)
  {
    if i :| 0 <= i < |ls| && Contains(ls[i], t) {
      ContainsInJoin(ls, i, t);
    }
    if Contains(Join(ls), t) {
      JoinFindsLine(ls, t);
    }
  }

  lemma {:induction false} JoinFindsLine(ls: seq<string>, t: string)
    requires IsLineList(ls) && t != "" && NoNewline(t) && Contains(Join(ls), t)
    ensures exists i :: 0 <= i < |ls| && Contains(ls[i], t)
  {
    if |ls| == 1 {
      assert Join(ls[1..]) == "" && Join(ls) == ls[0];
      assert Contains(ls[0], t);
    } else if |ls| > 1 {
      OccursLeftOrRight(ls[0], Join(ls[1..]), t);
      if Contains(Join(ls[1..]), t) {
        JoinFindsLine(ls[1..], t);
        var i :| 0 <= i < |ls[1..]| && Contains(ls[1..][i], t);
        assert Contains(ls[i + 1], t);
      }
    }
  }

  // ---------------------------------------------------------------- splitlines

  /** Index of the first line boundary, or the length. */
  function BreakAt(s: string): (n: nat)
    ensures n <= |s| && (n < |s| ==> IsBreak(s[n]))
    ensures forall i :: 0 <= i < n ==> !IsBreak(s[i])
    ensures forall i :: 0 <= i < n ==> s[i] != '\n'
  {
    if s == "" || IsBreak(s[0]) then 0 else 1 + BreakAt(s[1..])
  }

  /** `s.splitlines()`. */
  function SplitLines(s: string): seq<string>
    decreases |s|
  {
    if s == "" then []
    else if BreakAt(s) == |s| then [s]
    else [s[..BreakAt(s)]] + SplitLines(s[BreakAt(s) + 1..])
  }

  /** Dropping a first character other than a newline loses no line unless it was the whole text. */
  lemma DropOne(s: string)
    requires s != "" && s[0] != '\n'
    ensures |Lines(s)| == if |s| == 1 then 1 else |Lines(s[1..])|
  {
    if |s| > 1 {
      assert LineLen(s) == 1 + LineLen(s[1..]);
      assert s[LineLen(s)..] == s[1..][LineLen(s[1..])..];
    } else {
      LinesOpen(s);
    }
  }

  lemma {:induction false} DropWithinLine(s: string, k: nat)
    requires k <= |s| && forall i :: 0 <= i < k ==> s[i] != '\n'
    ensures |Lines(s)| <= |Lines(s[k..])| + 1
    ensures s[k..] != "" ==> |Lines(s)| == |Lines(s[k..])|
    decreases k
  {
    if k > 0 {
      DropOne(s);
      if |s| > 1 {
        DropWithinLine(s[1..], k - 1);
        assert s[1..][k - 1..] == s[k..];
      }
    } else {
      assert s[k..] == s;
    }
  }

  lemma FirstBreakCount(s: string, b: nat)
    requires b < |s| && forall i :: 0 <= i < b ==> s[i] != '\n'
    ensures |Lines(s)| <= 1 + |Lines(s[b + 1..])|
  {
    if s[b] == '\n' {
      assert s == s[..b + 1] + s[b + 1..];
      LinesCons(s[..b + 1], s[b + 1..]);
    } else {
      DropWithinLine(s, b + 1);
    }
  }

  /** `splitlines` never finds fewer lines than `readlines`. */
  lemma {:induction false} SplitLinesCount(s: string)
    ensures |Lines(s)| <= |SplitLines(s)|
    decreases |s|
  {
    if s != "" {
      var b := BreakAt(s);
      if b == |s| {
        LinesOpen(s);
      } else {
        SplitLinesCount(s[b + 1..]);
        FirstBreakCount(s, b);
      }
    }
  }
}
