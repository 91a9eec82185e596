/** JSON objects in print (sections 2 to 7 of RFC 8259: any nesting, any insignificant whitespace, any string
    escapes), and what the extractor makes of a reply that holds one. */
module JsonPrint {
  import opened Text
  import opened JsonExtract

  // ---------------------------------------------------------------- printed JSON

  /** One item of a string literal: a character as it is, a two-character escape, or `\u` and four digits. */
  datatype Piece = Plain(c: char) | Escaped(c: char) | CodeUnit(digits: string)

  /** A value with the whitespace of its print. A scalar is a number or a literal name. */
  datatype Value =
    | Scalar(text: string)
    | Quoted(pieces: seq<Piece>)
    | Array(ws: string, items: Items)
    | Object(ws: string, members: Members)

  datatype Items = NoItem | Item(before: string, value: Value, after: string, rest: Items)

  datatype Members =
    | NoMember
    | Member(before: string, key: seq<Piece>, afterKey: string, beforeValue: string, value: Value, after: string, rest: Members)

  predicate IsWhitespace(s: string) {
    forall i :: 0 <= i < |s| ==> s[i] in " \t\n\r"
  }

  predicate IsHexDigit(c: char) {
    '0' <= c <= '9' || 'a' <= c <= 'f' || 'A' <= c <= 'F'
  }

  predicate ValidPiece(p: Piece) {
    match p
    case Plain(c) => c as int >= 0x20 && c != '"' && c != '\\'
    case Escaped(c) => c in "\"\\/bfnrt"
    case CodeUnit(digits) => |digits| == 4 && forall i :: 0 <= i < 4 ==> IsHexDigit(digits[i])
  }

  predicate ValidPieces(ps: seq<Piece>) {
    forall i :: 0 <= i < |ps| ==> ValidPiece(ps[i])
  }

  /** The characters that numbers, `true`, `false` and `null` are made of. */
  predicate IsScalarChar(c: char) {
    'a' <= c <= 'z' || 'A' <= c <= 'Z' || '0' <= c <= '9' || c == '+' || c == '-' || c == '.'
  }

  predicate Valid(v: Value) {
    match v
    case Scalar(text) => text != "" && forall i :: 0 <= i < |text| ==> IsScalarChar(text[i])
    case Quoted(pieces) => ValidPieces(pieces)
    case Array(ws, items) => IsWhitespace(ws) && ValidItems(items)
    case Object(ws, members) => IsWhitespace(ws) && ValidMembers(members)
  }

  predicate ValidItems(items: Items) {
    match items
    case NoItem => true
    case Item(before, value, after, rest) => IsWhitespace(before) && Valid(value) && IsWhitespace(after) && ValidItems(rest)
  }

  predicate ValidMembers(members: Members) {
    match members
    case NoMember => true
    case Member(before, key, afterKey, beforeValue, value, after, rest) =>
      && IsWhitespace(before) && ValidPieces(key) && IsWhitespace(afterKey) && IsWhitespace(beforeValue)
      && Valid(value) && IsWhitespace(after) && ValidMembers(rest)
  }

  function PrintPiece(p: Piece): string {
    match p
    case Plain(c) => [c]
    case Escaped(c) => ['\\', c]
    case CodeUnit(digits) => ['\\', 'u'] + digits
  }

  function PrintPieces(ps: seq<Piece>): string {
    if ps == [] then "" else PrintPiece(ps[0]) + PrintPieces(ps[1..])
  }

  function PrintQuoted(ps: seq<Piece>): string {
    "\"" + PrintPieces(ps) + "\""
  }

  function Print(v: Value): string {
    match v
    case Scalar(text) => text
    case Quoted(pieces) => PrintQuoted(pieces)
    case Array(ws, items) => "[" + ws + PrintItems(items) + "]"
    case Object(ws, members) => "{" + ws + PrintMembers(members) + "}"
  }

  function PrintItems(items: Items): string {
    match items
    case NoItem => ""
    case Item(before, value, after, rest) =>
      before + Print(value) + after + (if rest.NoItem? then "" else ",") + PrintItems(rest)
  }

  function PrintMembers(members: Members): string {
    match members
    case NoMember => ""
    case Member(before, key, afterKey, beforeValue, value, after, rest) =>
      before + PrintQuoted(key) + afterKey + ":" + beforeValue + Print(value) + after
      + (if rest.NoMember? then "" else ",") + PrintMembers(rest)
  }

  // ---------------------------------------------------------------- scanning without returning

  /** The scanner would return at this character. */
  predicate Closes(st: State, ch: char) {
    !st.escape && !st.inString && ch == '}' && st.depth == 1
  }

  /** State after a stretch inside which the scanner does not return; nothing when it does. */
  function Scan(st: State, t: string): Option<State> {
    if t == "" then Some(st)
    else
      match Scan(st, t[..|t| - 1])
      case None => None
      case Some(s) => if Closes(s, t[|t| - 1]) then None else Some(Move(s, t[|t| - 1]))
  }

  function Outside(depth: int): State {
    State(depth, false, false)
  }

  lemma {:induction false} ScanAppend(st: State, a: string, b: string)
    requires Scan(st, a).Some?
    ensures Scan(st, a + b) == Scan(Scan(st, a).value, b)
    decreases |b|
  {
    if b == "" {
      assert a + b == a;
    } else {
      var init := b[..|b| - 1];
      ScanAppend(st, a, init);
      assert (a + b)[..|a + b| - 1] == a + init;
    }
  }

  /** Two stretches that each bring the scanner back to `st` do so together. */
  lemma ScanBoth(st: State, a: string, b: string)
    requires Scan(st, a) == Some(st) && Scan(st, b) == Some(st)
    ensures Scan(st, a + b) == Some(st)
  {
    ScanAppend(st, a, b);
  }

  lemma ScanOne(st: State, ch: char)
    requires !Closes(st, ch)
    ensures Scan(st, [ch]) == Some(Move(st, ch))
  {
    assert [ch][..0] == "";
  }

  lemma ScanTwo(st: State, a: char, b: char)
    requires !Closes(st, a) && !Closes(Move(st, a), b)
    ensures Scan(st, [a, b]) == Some(Move(Move(st, a), b))
  {
    ScanOne(st, a);
    ScanOne(Move(st, a), b);
    ScanAppend(st, [a], [b]);
    assert [a] + [b] == [a, b];
  }

  /** Characters that leave the state alone. */
  lemma {:induction false} ScanNeutral(st: State, t: string)
    requires forall i :: 0 <= i < |t| ==> Move(st, t[i]) == st && !Closes(st, t[i])
    ensures Scan(st, t) == Some(st)
    decreases |t|
  {
    if t != "" {
      var init := t[..|t| - 1];
      assert forall i :: 0 <= i < |init| ==> init[i] == t[i];
      ScanNeutral(st, init);
    }
  }

  lemma ScanWhitespace(depth: int, ws: string)
    requires IsWhitespace(ws)
    ensures Scan(Outside(depth), ws) == Some(Outside(depth))
  {
    ScanNeutral(Outside(depth), ws);
  }

  lemma ScanPunctuation(depth: int, p: string)
    requires p in {"", ",", ":", "[", "]"}
    ensures Scan(Outside(depth), p) == Some(Outside(depth))
  {
    ScanNeutral(Outside(depth), p);
  }

  // ---------------------------------------------------------------- scanning a printed value

  lemma ScanPiece(depth: int, p: Piece)
    requires ValidPiece(p)
    ensures Scan(State(depth, true, false), PrintPiece(p)) == Some(State(depth, true, false))
  {
    var st := State(depth, true, false);
    match p {
      case Plain(c) => ScanOne(st, c);
      case Escaped(c) => ScanTwo(st, '\\', c);
      case CodeUnit(digits) =>
        ScanTwo(st, '\\', 'u');
        ScanNeutral(st, digits);
        ScanAppend(st, ['\\', 'u'], digits);
    }
  }

  lemma {:induction false} ScanPieces(depth: int, ps: seq<Piece>)
    requires ValidPieces(ps)
    ensures Scan(State(depth, true, false), PrintPieces(ps)) == Some(State(depth, true, false))
  {
    if ps != [] {
      ScanPiece(depth, ps[0]);
      ScanPieces(depth, ps[1..]);
      ScanBoth(State(depth, true, false), PrintPiece(ps[0]), PrintPieces(ps[1..]));
    }
  }

  lemma ScanQuoted(depth: int, ps: seq<Piece>)
    requires ValidPieces(ps)
    ensures Scan(Outside(depth), PrintQuoted(ps)) == Some(Outside(depth))
  {
    var st, body := Outside(depth), PrintPieces(ps);
    ScanOne(st, '"');
    ScanPieces(depth, ps);
    ScanAppend(st, "\"", body);
    ScanOne(State(depth, true, false), '"');
    ScanAppend(st, "\"" + body, "\"");
  }

  lemma ScanBrackets(depth: int, ws: string, body: string)
    requires IsWhitespace(ws) && Scan(Outside(depth), body) == Some(Outside(depth))
    ensures Scan(Outside(depth), "[" + ws + body + "]") == Some(Outside(depth))
  {
    hide Scan, IsWhitespace;
    var st := Outside(depth);
    ScanPunctuation(depth, "[");
    ScanWhitespace(depth, ws);
    ScanPunctuation(depth, "]");
    ScanBoth(st, "[", ws);
    ScanBoth(st, "[" + ws, body);
    ScanBoth(st, "[" + ws + body, "]");
  }

  lemma ScanBraces(depth: int, open: string)
    requires depth >= 1 && Scan(Outside(depth), open) == Some(Outside(depth + 1))
    ensures Scan(Outside(depth), open + "}") == Some(Outside(depth))
  {
    hide Scan;
    ScanOne(Outside(depth + 1), '}');
    ScanAppend(Outside(depth), open, "}");
  }

  /** A printed value leaves the scanner as it was, at every depth inside an object. */
  lemma {:induction false} ScanValue(depth: int, v: Value)
    requires depth >= 1 && Valid(v)
    ensures Scan(Outside(depth), Print(v)) == Some(Outside(depth))
    decreases v
  {
    hide Scan, IsWhitespace, PrintQuoted, PrintItems, PrintMembers;
    var st := Outside(depth);
    match v {
      case Scalar(text) =>
        ScanNeutral(st, text);
      case Quoted(pieces) =>
        ScanQuoted(depth, pieces);
      case Array(ws, items) =>
        ScanItems(depth, items);
        ScanBrackets(depth, ws, PrintItems(items));
      case Object(ws, members) =>
        ScanOpenObject(depth, ws, members);
        ScanBraces(depth, "{" + ws + PrintMembers(members));
    }
  }

  lemma {:induction false} ScanItems(depth: int, items: Items)
    requires depth >= 1 && ValidItems(items)
    ensures Scan(Outside(depth), PrintItems(items)) == Some(Outside(depth))
    decreases items
  {
    hide Scan, IsWhitespace, Print;
    if items.NoItem? {
      ScanPunctuation(depth, "");
    } else {
      var Item(before, value, after, rest) := items;
      var st, comma := Outside(depth), if rest.NoItem? then "" else ",";
      ScanWhitespace(depth, before);
      ScanValue(depth, value);
      ScanWhitespace(depth, after);
      ScanPunctuation(depth, comma);
      ScanItems(depth, rest);
      ScanBoth(st, before, Print(value));
      ScanBoth(st, before + Print(value), after);
      ScanBoth(st, before + Print(value) + after, comma);
      ScanBoth(st, before + Print(value) + after + comma, PrintItems(rest));
    }
  }

  lemma {:induction false} ScanMembers(depth: int, members: Members)
    requires depth >= 1 && ValidMembers(members)
    ensures Scan(Outside(depth), PrintMembers(members)) == Some(Outside(depth))
    decreases members, 0
  {
    hide Scan, IsWhitespace, Print, PrintQuoted;
    if members.NoMember? {
      ScanPunctuation(depth, "");
    } else {
      var Member(before, key, afterKey, beforeValue, value, after, rest) := members;
      var st, comma := Outside(depth), if rest.NoMember? then "" else ",";
      ScanWhitespace(depth, before);
      ScanQuoted(depth, key);
      ScanWhitespace(depth, afterKey);
      ScanPunctuation(depth, ":");
      ScanWhitespace(depth, beforeValue);
      ScanValue(depth, value);
      ScanWhitespace(depth, after);
      ScanPunctuation(depth, comma);
      ScanMembers(depth, rest);
      var t := before + PrintQuoted(key);
      ScanBoth(st, before, PrintQuoted(key));
      ScanBoth(st, t, afterKey);
      ScanBoth(st, t + afterKey, ":");
      ScanBoth(st, t + afterKey + ":", beforeValue);
      ScanBoth(st, t + afterKey + ":" + beforeValue, Print(value));
      ScanBoth(st, t + afterKey + ":" + beforeValue + Print(value), after);
      ScanBoth(st, t + afterKey + ":" + beforeValue + Print(value) + after, comma);
      ScanBoth(st, t + afterKey + ":" + beforeValue + Print(value) + after + comma, PrintMembers(rest));
    }
  }

  /** Up to its closing brace an object takes the scanner one level deeper. */
  lemma {:induction false} ScanOpenObject(depth: int, ws: string, members: Members)
    requires depth >= 0 && IsWhitespace(ws) && ValidMembers(members)
    ensures Scan(Outside(depth), "{" + ws + PrintMembers(members)) == Some(Outside(depth + 1))
    decreases members, 1
  {
    hide Scan, IsWhitespace, PrintMembers;
    ScanOne(Outside(depth), '{');
    ScanWhitespace(depth + 1, ws);
    ScanMembers(depth + 1, members);
    ScanAppend(Outside(depth), "{", ws);
    ScanAppend(Outside(depth), "{" + ws, PrintMembers(members));
  }

  // ---------------------------------------------------------------- the extractor on printed objects

  lemma {:induction false} ScanReads(st: State, t: string)
    requires Scan(st, t).Some?
    ensures Read(st, t) == Scan(st, t).value
    decreases |t|
  {
    if t != "" {
      ScanReads(st, t[..|t| - 1]);
    }
  }

  lemma {:induction false} ScanPrefix(st: State, t: string, k: nat)
    requires Scan(st, t).Some? && k <= |t|
    ensures Scan(st, t[..k]).Some?
    decreases |t|
  {
    if k < |t| {
      assert t[..|t| - 1][..k] == t[..k];
      ScanPrefix(st, t[..|t| - 1], k);
    } else {
      assert t[..k] == t;
    }
  }

  /** As long as the scanner has not returned, it is below the first opening brace. */
  lemma {:induction false} ScanStaysDeep(t: string)
    requires t != "" && t[0] == '{' && Scan(START, t).Some?
    ensures Scan(START, t).value.depth >= 1
    decreases |t|
  {
    if |t| > 1 {
      ScanStaysDeep(t[..|t| - 1]);
    } else {
      assert t[..0] == "";
    }
  }

  lemma ScannedNotBalanced(t: string, k: nat)
    requires t != "" && t[0] == '{' && Scan(START, t).Some? && 0 < k <= |t|
    ensures !Balanced(t[..k])
  {
    ScanPrefix(START, t, k);
    ScanStaysDeep(t[..k]);
    ScanReads(START, t[..k]);
    BalancedIsRead(t[..k]);
  }

  /** A printed object is balanced and none of its proper prefixes is. */
  lemma PrintedObject(ws: string, members: Members)
    requires Valid(Object(ws, members))
    ensures IsFirstObject(Print(Object(ws, members)), Some(Print(Object(ws, members))))
  {
    hide Balanced;
    var p := Print(Object(ws, members));
    var open := "{" + ws + PrintMembers(members);
    assert p == open + "}" && p[..|p| - 1] == open;
    ScanOpenObject(0, ws, members);
    ScanReads(START, open);
    BalancedIsRead(p);
    assert open[0] == '{' && p[0] == '{';
    FindBraceAt(p, 0);
    assert p[0..|p|] == p;
    forall k | 0 < k < |p|
      ensures !Balanced(p[0..k])
    {
      ScannedNotBalanced(open, k);
      assert p[0..k] == open[..k];
    }
  }

  /** Printer and extractor agree: of any printed object, behind any text without an opening brace and before any
      other text, the extractor returns exactly the print. */
  lemma ExtractPrinted(before: string, ws: string, members: Members, after: string)
    requires Valid(Object(ws, members)) && '{' !in before
    ensures IsFirstObject(before + Print(Object(ws, members)) + after, Some(Print(Object(ws, members))))
  {
    PrintedObject(ws, members);
    FirstObjectInContext(before, Print(Object(ws, members)), Print(Object(ws, members)), after);
  }

  /** The extractor returns a printed object from where it stands exactly when no opening brace is in front of it. */
  lemma ExtractPrintedExactly(before: string, ws: string, members: Members, after: string)
    requires Valid(Object(ws, members))
    ensures var text := before + Print(Object(ws, members)) + after;
            FindBrace(text) == |before| && IsFirstObject(text, Some(Print(Object(ws, members)))) <==> '{' !in before
  {
    hide IsFirstObject, Print, Valid;
    var p := Print(Object(ws, members));
    var text := before + p + after;
    assert forall i :: 0 <= i < |before| ==> text[i] == before[i];
    if '{' !in before {
      ExtractPrinted(before, ws, members, after);
      PrintedStart(ws, members);
      assert text[|before|] == p[0];
      FindBraceAt(text, |before|);
    }
  }

  lemma PrintedStart(ws: string, members: Members)
    ensures Print(Object(ws, members)) != "" && Print(Object(ws, members))[0] == '{'
  {
  }

  // ---------------------------------------------------------------- a brace in front of the object

  lemma {:induction false} ClosedIsBalanced(t: string)
    requires Scan(START, t) == None
    ensures exists k :: 0 < k <= |t| && Balanced(t[..k])
    decreases |t|
  {
    hide Balanced;
    var init := t[..|t| - 1];
    if Scan(START, init) == None {
      ClosedIsBalanced(init);
      var k :| 0 < k <= |init| && Balanced(init[..k]);
      assert t[..k] == init[..k];
    } else {
      ScanReads(START, init);
      BalancedIsRead(t);
      assert t[..|t|] == t;
    }
  }

  /** A stretch that starts at the first brace holds no object exactly when the scanner gets to its end. */
  lemma NothingIffOpen(front: string, t: string)
    requires '{' !in front && t != "" && t[0] == '{'
    ensures IsFirstObject(front + t, None) <==> Scan(START, t).Some?
  {
    hide Balanced, Scan;
    var text, start := front + t, |front|;
    assert text[start] == t[0];
    FindBraceAt(text, start);
    assert forall k :: start < k <= |text| ==> text[start..k] == t[..k - start];
    if Scan(START, t).Some? {
      forall k | start < k <= |text|
        ensures !Balanced(text[start..k])
      {
        ScannedNotBalanced(t, k - start);
      }
    } else {
      ClosedIsBalanced(t);
      var k :| 0 < k <= |t| && Balanced(t[..k]);
      assert text[start..start + k] == t[..k];
    }
  }

  lemma ScanThroughObject(stray: string, d: int, ws: string, members: Members, after: string)
    requires Valid(Object(ws, members)) && stray != "" && stray[0] == '{' && Scan(START, stray) == Some(Outside(d))
    ensures Scan(START, stray + Print(Object(ws, members))) == Some(Outside(d))
    ensures Scan(START, stray + Print(Object(ws, members)) + after) == Scan(Outside(d), after)
  {
    hide Scan, Print, Valid;
    ScanStaysDeep(stray);
    ScanValue(d, Object(ws, members));
    ScanAppend(START, stray, Print(Object(ws, members)));
    ScanAppend(START, stray + Print(Object(ws, members)), after);
  }

  /** Braces left open in front of a printed object hide it, whatever follows: the extractor returns nothing exactly
      when what follows does not close the first of them, and otherwise a stretch that reaches beyond the object. */
  lemma StrayBraceHidesObject(front: string, stray: string, d: int, ws: string, members: Members, after: string)
    requires Valid(Object(ws, members)) && '{' !in front
    requires stray != "" && stray[0] == '{' && Scan(START, stray) == Some(Outside(d))
    ensures var p := Print(Object(ws, members));
            var text := front + (stray + p + after);
            && (IsFirstObject(text, None) <==> Scan(Outside(d), after).Some?)
            && (forall t :: IsFirstObject(text, Some(t)) ==> |t| > |stray| + |p|)
  {
    hide Balanced, Scan, Print, Valid, IsFirstObject;
    var p := Print(Object(ws, members));
    var t := stray + p + after;
    ScanThroughObject(stray, d, ws, members, after);
    assert t[0] == stray[0];
    NothingIffOpen(front, t);
    forall r | IsFirstObject(front + t, Some(r))
      ensures |r| > |stray| + |p|
    {
      FoundFromFirstBrace(front, t, r);
      if |r| <= |stray| + |p| {
        assert t[..|r|] == (stray + p)[..|r|];
        ScannedNotBalanced(stray + p, |r|);
      }
    }
  }

  lemma FoundFromFirstBrace(front: string, t: string, r: string)
    requires '{' !in front && t != "" && t[0] == '{' && IsFirstObject(front + t, Some(r))
    ensures 0 < |r| <= |t| && r == t[..|r|] && Balanced(r)
  {
    var text, start := front + t, |front|;
    assert text[start] == t[0];
    FindBraceAt(text, start);
    assert text[start..start + |r|] == t[..|r|];
  }
}
