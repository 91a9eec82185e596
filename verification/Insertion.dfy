/** The guards and the indentation normaliser that decide whether a text may be inserted into a source file
    (`agent_loop_insertion_helpers.py`). */
module Insertion {
  import opened Text

  const ROUTE_MARK := "@app."
  const APP_INIT := "app = FastAPI"
  const APP_INIT_CALL := "app = FastAPI("
  const APP_INIT_ALIAS := "app = FastAPI()"

  // ---------------------------------------------------------------- routes

  datatype Route = Route(verb: string, path: string)

  predicate IsWord(c: char) {
    'a' <= c <= 'z' || 'A' <= c <= 'Z' || '0' <= c <= '9' || c == '_'
  }

  predicate IsQuote(c: char) {
    c == '\'' || c == '"'
  }

  function WordEnd(s: string, i: nat): (e: nat)
    requires i <= |s|
    ensures i <= e <= |s|
    decreases |s| - i
  {
    if i < |s| && IsWord(s[i]) then WordEnd(s, i + 1) else i
  }

  function SpaceEnd(s: string, i: nat): (e: nat)
    requires i <= |s|
    ensures i <= e <= |s|
    decreases |s| - i
  {
    if i < |s| && IsSpace(s[i]) then SpaceEnd(s, i + 1) else i
  }

  function PathEnd(s: string, i: nat): (e: nat)
    requires i <= |s|
    ensures i <= e <= |s|
    decreases |s| - i
  {
    if i < |s| && !IsQuote(s[i]) then PathEnd(s, i + 1) else i
  }

  /** A match of `@app\.(\w+)\(\s*['"]([^'"]+)['"]` starting at `i`, with the index after it. */
  function RouteAt(s: string, i: nat): (m: Option<(Route, nat)>)
    requires i <= |s|
    ensures m.Some? ==> OccursAt(s, ROUTE_MARK, i) && i < m.value.1 <= |s|
  {
    if !OccursAt(s, ROUTE_MARK, i) then None else CallAt(s, i + |ROUTE_MARK|)
  }

  /** The part from the verb on. */
  function CallAt(s: string, w: nat): (m: Option<(Route, nat)>)
    requires w <= |s|
    ensures m.Some? ==> w < m.value.1 <= |s|
  {
    var e := WordEnd(s, w);
    if e == w || e == |s| || s[e] != '(' then None else PathAt(s, s[w..e], SpaceEnd(s, e + 1))
  }

  /** The part from the opening quote on. */
  function PathAt(s: string, verb: string, q: nat): (m: Option<(Route, nat)>)
    requires q <= |s|
    ensures m.Some? ==> q < m.value.1 <= |s|
  {
    if q == |s| || !IsQuote(s[q]) then None
    else
      var p := PathEnd(s, q + 1);
      if p == q + 1 || p == |s| then None else Some((Route(verb, s[q + 1..p]), p + 1))
  }

  /** The non-overlapping matches from `i` on, left to right. */
  function RoutesFrom(s: string, i: nat): seq<Route>
    requires i <= |s|
    decreases |s| - i
  {
    if i == |s| then []
    else
      match RouteAt(s, i)
      case Some((route, next)) => [route] + RoutesFrom(s, next)
      case None => RoutesFrom(s, i + 1)
  }

  /** The routes of a list of lines, in order and with repetitions. */
  function RouteList(ls: seq<string>): seq<Route> {
    if ls == [] then [] else RoutesFrom(ls[0], 0) + RouteList(ls[1..])
  }

  function RoutesOf(text: string): seq<Route> {
    RouteList(Lines(text))
  }

  /** `app_route_already_exists`, the existing lines being those outside any excluded range. */
  predicate RouteExists(existing: seq<string>, insertion: string) {
    exists r :: r in RoutesOf(insertion) && r in RouteList(existing)
  }

  predicate Distinct<T(==)>(s: seq<T>) {
    forall i, j :: 0 <= i < j < |s| ==> s[i] != s[j]
  }

  lemma RouteListCons(l: string, ls: seq<string>)
    ensures RouteList([l] + ls) == RoutesFrom(l, 0) + RouteList(ls)
  {
    hide RoutesFrom;
    assert ([l] + ls)[1..] == ls;
  }

  lemma {:induction false} RouteListAppend(a: seq<string>, b: seq<string>)
    ensures RouteList(a + b) == RouteList(a) + RouteList(b)
  {
    if a == [] {
      assert a + b == b;
    } else {
      hide RouteList, RoutesFrom;
      RouteListAppend(a[1..], b);
      assert a == [a[0]] + a[1..] && a + b == [a[0]] + (a[1..] + b);
      RouteListCons(a[0], a[1..] + b);
      RouteListCons(a[0], a[1..]);
      Regrouped(RoutesFrom(a[0], 0), RouteList(a[1..]), RouteList(b));
    }
  }

  lemma OneLineRoutes(l: string)
    ensures RouteList([l]) == RoutesFrom(l, 0)
  {
    assert RouteList([l][1..]) == [];
  }

  lemma {:induction false} NoMarkNoRoutes(s: string, i: nat)
    requires i <= |s| && !Contains(s, ROUTE_MARK)
    ensures RoutesFrom(s, i) == []
    decreases |s| - i
  {
    if i < |s| {
      assert RouteAt(s, i) == None;
      NoMarkNoRoutes(s, i + 1);
    }
  }

  lemma {:induction false} NoMarkNoRouteList(ls: seq<string>)
    requires forall i :: 0 <= i < |ls| ==> !Contains(ls[i], ROUTE_MARK)
    ensures RouteList(ls) == []
  {
    if ls != [] {
      NoMarkNoRoutes(ls[0], 0);
      NoMarkNoRouteList(ls[1..]);
    }
  }

  /** A text that never mentions `@app.` declares no route. */
  lemma RoutesNeedMark(text: string)
    requires !Contains(text, ROUTE_MARK)
    ensures RoutesOf(text) == []
  {
    JoinLines(text);
    JoinContains(Lines(text), ROUTE_MARK);
    NoMarkNoRouteList(Lines(text));
  }

  // ---------------------------------------------------------------- guards

  /** `insertion_already_near_anchor`: Python slices clamp to the list. */
  function Window(lines: seq<string>, idx: nat, size: nat, after: bool): string
    requires idx < |lines|
  {
    if after then Join(lines[idx + 1..if idx + 1 + size <= |lines| then idx + 1 + size else |lines|])
    else Join(lines[if size <= idx then idx - size else 0..idx])
  }

  function WindowSize(insertion: string): nat {
    (if SplitLines(insertion) == [] then 1 else |SplitLines(insertion)|) + 4
  }

  predicate NearAnchor(lines: seq<string>, idx: nat, insertion: string, after: bool)
    requires idx < |lines|
  {
    && Strip(insertion) != ""
    && Contains(Strip(Window(lines, idx, WindowSize(insertion), after)), Strip(insertion))
  }

  /** `inserts_app_route_before_app_init`; `point` lines precede the insertion. */
  predicate RouteBeforeInit(lines: seq<string>, point: nat, insertion: string)
    requires point <= |lines|
  {
    Contains(insertion, ROUTE_MARK) && !Contains(Join(lines[..point]), APP_INIT)
  }

  predicate AfterBlockHeader(anchorLine: string, insertion: string) {
    && Contains(insertion, ROUTE_MARK)
    && EndsWith(Strip(anchorLine), ":") && !StartsWith(Strip(anchorLine), "@")
  }

  predicate AfterDecoratorLine(anchorLine: string, insertion: string) {
    Contains(insertion, ROUTE_MARK) && StartsWith(Strip(anchorLine), "@")
  }

  // ---------------------------------------------------------------- destructive writes

  const SOURCE_EXTENSIONS: set<string> := {
    ".py", ".js", ".ts", ".jsx", ".tsx", ".html", ".css", ".scss", ".sass", ".md", ".json", ".yaml", ".yml",
    ".toml", ".ini", ".cfg", ".sh", ".go", ".rs", ".java", ".cpp", ".c", ".h", ".rb", ".php", ".swift", ".kt"
  }

  /** `is_destructive_write`, for a file whose lower-case extension is `ext`; the ratio threshold of 0.3 is taken
      exactly. */
  predicate DestructiveWrite(ext: string, existing: nat, size: nat) {
    ext in SOURCE_EXTENSIONS && existing >= 200 && 10 * size < 3 * existing
  }

  // ---------------------------------------------------------------- indentation

  /** Number of leading blanks (the character `' '` only). */
  function Blanks(s: string): (n: nat)
    ensures n <= |s|
    ensures forall i :: 0 <= i < n ==> s[i] == ' '
    ensures n < |s| ==> s[n] != ' '
  {
    if s == "" || s[0] != ' ' then 0 else 1 + Blanks(s[1..])
  }

  predicate AllBlanks(s: string) {
    forall i :: 0 <= i < |s| ==> s[i] == ' '
  }

  predicate NoBreaks(s: string) {
    forall i :: 0 <= i < |s| ==> !IsBreak(s[i])
  }

  /** `"\n".join(lines)`. */
  function JoinNL(ls: seq<string>): string {
    if ls == [] then ""
    else if |ls| == 1 then ls[0]
    else ls[0] + "\n" + JoinNL(ls[1..])
  }

  function AnchorIndent(anchorLine: string): string {
    anchorLine[..Lead(anchorLine)]
  }

  function FirstNonBlank(ls: seq<string>): (n: nat)
    ensures n <= |ls| && (n < |ls| ==> !Blank(ls[n]))
    ensures forall i :: 0 <= i < n ==> Blank(ls[i])
  {
    if ls == [] || !Blank(ls[0]) then 0 else 1 + FirstNonBlank(ls[1..])
  }

  /** The smallest indentation among the non-blank lines. */
  function MinBlanks(ls: seq<string>): (m: Option<nat>)
    ensures m.Some? ==> forall i :: 0 <= i < |ls| && !Blank(ls[i]) ==> m.value <= Blanks(ls[i])
    ensures m.None? ==> forall i :: 0 <= i < |ls| ==> Blank(ls[i])
  {
    if ls == [] then None
    else
      var rest := MinBlanks(ls[1..]);
      if Blank(ls[0]) then rest
      else if rest.Some? && rest.value < Blanks(ls[0]) then rest
      else Some(Blanks(ls[0]))
  }

  function BaseIndent(ls: seq<string>): nat {
    match MinBlanks(ls)
    case Some(m) => m
    case None => 0
  }

  function IndentLine(indent: string, line: string, first: bool, base: nat): string {
    if Blank(line) then line
    else if first || |line| < base then indent + line[Blanks(line)..]
    else indent + line[base..]
  }

  function IndentLines(indent: string, content: seq<string>): (r: seq<string>)
    ensures |r| == |content|
  {
    var f := FirstNonBlank(content);
    var base := if f == |content| then 0 else BaseIndent(content[f + 1..]);
    seq(|content|, i requires 0 <= i < |content| => IndentLine(indent, content[i], i == f, base))
  }

  /** The lines that the normaliser keeps as they are ahead of the content. */
  predicate LeadingBlank(ls: seq<string>) {
    ls != [] && Blank(ls[0])
  }

  function ContentLines(ls: seq<string>): seq<string> {
    if LeadingBlank(ls) then ls[1..] else ls
  }

  function NormalLines(indent: string, ls: seq<string>): seq<string> {
    (if LeadingBlank(ls) then [""] else []) + IndentLines(indent, ContentLines(ls))
  }

  /** The normaliser rewrites the insertion: a route goes below an indented app initialisation. */
  predicate Normalizes(anchorLine: string, insertion: string) {
    && Contains(insertion, ROUTE_MARK) && Contains(anchorLine, APP_INIT_CALL) && AnchorIndent(anchorLine) != ""
    && var content := ContentLines(SplitLines(insertion)); FirstNonBlank(content) < |content|
  }

  /** `normalize_app_route_insertion_indent`. */
  function Normalized(anchorLine: string, insertion: string): string {
    if Normalizes(anchorLine, insertion) then
      JoinNL(NormalLines(AnchorIndent(anchorLine), SplitLines(insertion))) + (if EndsNL(insertion) then "\n" else "")
    else insertion
  }

  /** The loop of the original, building the list line by line. */
  method IndentContent(indent: string, content: seq<string>, first: nat, base: nat) returns (normalized: seq<string>)
    requires first == FirstNonBlank(content) < |content| && base == BaseIndent(content[first + 1..])
    ensures normalized == IndentLines(indent, content)
  {
    normalized := [];
    for i := 0 to |content|
      invariant |normalized| == i
      invariant forall k :: 0 <= k < i ==> normalized[k] == IndentLine(indent, content[k], k == first, base)
    {
      var line := content[i];
      if Blank(line) {
        normalized := normalized + [line];
      } else {
        var stripped;
        if i == first {
          stripped := line[Blanks(line)..];
        } else {
          stripped := if |line| >= base then line[base..] else line[Blanks(line)..];
        }
        normalized := normalized + [indent + stripped];
      }
    }
  }

  method NormalizeIndent(anchorLine: string, insertion: string) returns (r: string)
    ensures r == Normalized(anchorLine, insertion)
  {
    if !Contains(insertion, ROUTE_MARK) || !Contains(anchorLine, APP_INIT_CALL) {
      return insertion;
    }
    var indent := anchorLine[..|anchorLine| - |LStrip(anchorLine)|];
    if indent == "" {
      return insertion;
    }
    var lines := SplitLines(insertion);
    var leadingBlank := lines != [] && Blank(lines[0]);
    var content := if leadingBlank then lines[1..] else lines;
    var first := FirstNonBlank(content);
    if first == |content| {
      return insertion;
    }
    var normalized := IndentContent(indent, content, first, BaseIndent(content[first + 1..]));
    if leadingBlank {
      normalized := [""] + normalized;
    }
    assert normalized == NormalLines(indent, lines);
    r := JoinNL(normalized) + if EndsNL(insertion) then "\n" else "";
  }
}
