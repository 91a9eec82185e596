/** The scanner that finds the first complete JSON object in a model reply (`_extract_first_json_object`), next to
    an independent definition of what it looks for. */
module JsonExtract {
  import opened Text

  // ---------------------------------------------------------------- what is looked for

  /** Index of the first opening brace, or the length. */
  function FindBrace(text: string): (n: nat)
    ensures n <= |text| && (n < |text| ==> text[n] == '{')
    ensures forall i :: 0 <= i < n ==> text[i] != '{'
  {
    if text == "" || text[0] == '{' then 0 else 1 + FindBrace(text[1..])
  }

  /** Index after the string literal whose opening quote precedes `i`; beyond the end when it is not closed. */
  function StringEnd(t: string, i: nat): (e: nat)
    ensures e > i
    decreases |t| - i
  {
    if i >= |t| then i + 1
    else if t[i] == '\\' then StringEnd(t, i + 2)
    else if t[i] == '"' then i + 1
    else StringEnd(t, i + 1)
  }

  /** Opening minus closing braces outside string literals from `i` on; nothing when a string literal is left
      open. */
  function Balance(t: string, i: nat): Option<int>
    decreases |t| - i
  {
    if i > |t| then None
    else if i == |t| then Some(0)
    else if t[i] == '"' then Balance(t, StringEnd(t, i + 1))
    else
      match Balance(t, i + 1)
      case None => None
      case Some(b) => Some(b + if t[i] == '{' then 1 else if t[i] == '}' then -1 else 0)
  }

  /** A stretch whose braces balance, string literals aside. */
  predicate Balanced(t: string) {
    t != "" && Balance(t, 0) == Some(0)
  }

  /** `r` is the shortest balanced stretch that starts at the first opening brace, if there is one. */
  ghost predicate IsFirstObject(text: string, r: Option<string>) {
    var start := FindBrace(text);
    match r
    case Some(t) =>
      && Balanced(t)
      && |t| <= |text| - start && t == text[start..start + |t|]
      && forall k :: start < k < start + |t| ==> !Balanced(text[start..k])
    case None =>
      forall k :: start < k <= |text| ==> !Balanced(text[start..k])
  }

  // ---------------------------------------------------------------- the scanner

  /** Brace depth, inside a string, and after a backslash in a string. */
  datatype State = State(depth: int, inString: bool, escape: bool)

  const START := State(0, false, false)

  function Move(st: State, ch: char): State {
    if st.escape then st.(escape := false)
    else if ch == '\\' && st.inString then st.(escape := true)
    else if ch == '"' then st.(inString := !st.inString)
    else if st.inString then st
    else if ch == '{' then st.(depth := st.depth + 1)
    else if ch == '}' then st.(depth := st.depth - 1)
    else st
  }

  function Read(st: State, t: string): State {
    if t == "" then st else Move(Read(st, t[..|t| - 1]), t[|t| - 1])
  }

  lemma {:induction false} ReadAppend(st: State, a: string, b: string)
    ensures Read(st, a + b) == Read(Read(st, a), b)
    decreases |b|
  {
    if b == "" {
      assert a + b == a;
    } else {
      var init := b[..|b| - 1];
      ReadAppend(st, a, init);
      assert (a + b)[..|a + b| - 1] == a + init;
    }
  }

  lemma ReadOne(st: State, ch: char)
    ensures Read(st, [ch]) == Move(st, ch)
  {
    assert [ch][..0] == "";
  }

  lemma ReadCons(st: State, t: string, i: nat, j: nat)
    requires i < j <= |t|
    ensures Read(st, t[i..j]) == Read(Move(st, t[i]), t[i + 1..j])
  {
    assert t[i..j] == [t[i]] + t[i + 1..j];
    ReadAppend(st, [t[i]], t[i + 1..j]);
    ReadOne(st, t[i]);
  }

  /** Inside a string literal the scanner stays inside up to the index that `StringEnd` gives. */
  lemma {:induction false} ReadString(d: int, t: string, i: nat)
    requires i <= |t|
    ensures var e := StringEnd(t, i);
            if e <= |t| then Read(State(d, true, false), t[i..e]) == State(d, false, false)
            else Read(State(d, true, false), t[i..]).inString
    decreases |t| - i
  {
    var st := State(d, true, false);
    var e := StringEnd(t, i);
    if i == |t| {
      assert t[i..] == "";
    } else {
      var j := if e <= |t| then e else |t|;
      assert t[i..] == t[i..|t|];
      ReadCons(st, t, i, j);
      if t[i] == '\\' {
        if i + 1 == |t| {
          assert t[i + 1..j] == "";
        } else {
          ReadCons(State(d, true, true), t, i + 1, j);
          ReadString(d, t, i + 2);
          assert t[i + 2..] == t[i + 2..|t|];
        }
      } else if t[i] == '"' {
        assert t[i + 1..j] == "";
      } else {
        ReadString(d, t, i + 1);
        assert t[i + 1..] == t[i + 1..|t|];
      }
    }
  }

  /** The flags of the scanner and the recursive definition count the same braces. */
  lemma {:induction false} ReadBalance(d: int, t: string, i: nat)
    requires i <= |t|
    ensures match Balance(t, i)
            case Some(b) => Read(State(d, false, false), t[i..]) == State(d + b, false, false)
            case None => Read(State(d, false, false), t[i..]).inString
    decreases |t| - i
  {
    var st := State(d, false, false);
    assert t[i..] == t[i..|t|];
    if i == |t| {
      assert t[i..] == "";
    } else {
      ReadCons(st, t, i, |t|);
      assert t[i + 1..] == t[i + 1..|t|];
      if t[i] == '"' {
        var e := StringEnd(t, i + 1);
        ReadString(d, t, i + 1);
        if e <= |t| {
          assert t[i + 1..] == t[i + 1..e] + t[e..];
          ReadAppend(State(d, true, false), t[i + 1..e], t[e..]);
          ReadBalance(d, t, e);
        }
      } else {
        ReadBalance(Move(st, t[i]).depth, t, i + 1);
      }
    }
  }

  lemma BalancedIsRead(t: string)
    ensures Balanced(t) <==> t != "" && Read(START, t) == START
  {
    ReadBalance(0, t, 0);
    assert t[0..] == t;
  }

  lemma ReadNothing()
    ensures Read(START, "") == START
  {
  }

  lemma ReadNext(text: string, start: nat, i: nat)
    requires start <= i < |text|
    ensures Read(START, text[start..i + 1]) == Move(Read(START, text[start..i]), text[i])
  {
    var t := text[start..i + 1];
    assert t[..|t| - 1] == text[start..i];
  }

  /** The one-pass scan finds exactly the shortest balanced stretch from the first brace. */
  method ExtractFirstJsonObject(text: string) returns (r: Option<string>)
    ensures IsFirstObject(text, r)
  {
    hide Balanced, Read;
    var start := FindBrace(text);
    if start == |text| {
      return None;
    }
    var depth, inString, escape := 0, false, false;
    assert text[start..start] == "";
    ReadNothing();
    for i := start to |text|
      invariant Read(START, text[start..i]) == State(depth, inString, escape)
      invariant i > start ==> depth >= 1
      invariant forall k :: start < k <= i ==> !Balanced(text[start..k])
    {
      var ch := text[i];
      ReadNext(text, start, i);
      BalancedIsRead(text[start..i + 1]);
      if escape {
        escape := false;
        continue;
      }
      if ch == '\\' && inString {
        escape := true;
        continue;
      }
      if ch == '"' {
        inString := !inString;
        continue;
      }
      if inString {
        continue;
      }
      if ch == '{' {
        depth := depth + 1;
      } else if ch == '}' {
        depth := depth - 1;
        if depth == 0 {
          return Some(text[start..i + 1]);
        }
      }
    }
    return None;
  }

  // ---------------------------------------------------------------- consequences of the definition

  lemma FirstObjectUnique(text: string, r: Option<string>, r': Option<string>)
    requires IsFirstObject(text, r) && IsFirstObject(text, r')
    ensures r == r'
  {
    var start := FindBrace(text);
    assert r.Some? && r'.Some? ==> |r.value| == |r'.value|;
  }

  lemma FindBraceAt(text: string, n: nat)
    requires n <= |text| && (n < |text| ==> text[n] == '{') && forall i :: 0 <= i < n ==> text[i] != '{'
    ensures FindBrace(text) == n
  {
  }

  /** A balanced stretch can only start at a brace when it is the first object. */
  lemma FirstObjectStart(text: string, t: string)
    requires IsFirstObject(text, Some(t))
    ensures FindBrace(text) < |text| && t[0] == '{'
  {
    assert t != "";
  }

  /** Text without an opening brace may be put in front, and any text behind, without changing a result. */
  lemma FirstObjectInContext(before: string, text: string, t: string, after: string)
    requires IsFirstObject(text, Some(t)) && '{' !in before
    ensures IsFirstObject(before + text + after, Some(t))
  {
    FirstObjectStart(text, t);
    hide Balanced;
    var start := FindBrace(text);
    var all := before + text + after;
    NoBraceAhead(before, text, after, start);
    var lo := |before| + start;
    FindBraceAt(all, lo);
    SameStretch(before, text, after, start, start + |t|);
    forall k | lo < k < lo + |t|
      ensures !Balanced(all[lo..k])
    {
      SameStretch(before, text, after, start, k - |before|);
    }
  }

  lemma NoBraceAhead(before: string, text: string, after: string, start: nat)
    requires '{' !in before && start < |text| && text[start] == '{' && forall i :: 0 <= i < start ==> text[i] != '{'
    ensures var all := before + text + after;
            && all[|before| + start] == '{'
            && forall i :: 0 <= i < |before| + start ==> all[i] != '{'
  {
    var all := before + text + after;
    forall i | 0 <= i < |before| + start
      ensures all[i] != '{'
    {
      if i < |before| {
        assert all[i] == before[i] && before[i] in before;
      } else {
        assert all[i] == text[i - |before|];
      }
    }
  }

  lemma SameStretch(before: string, text: string, after: string, i: nat, j: nat)
    requires i <= j <= |text|
    ensures (before + text + after)[|before| + i..|before| + j] == text[i..j]
  {
    var all := before + text + after;
    forall k | 0 <= k < j - i
      ensures all[|before| + i..|before| + j][k] == text[i..j][k]
    {
      assert all[|before| + i + k] == text[i + k];
    }
  }

  /** Extracting again from the extracted object gives the same object. */
  lemma FirstObjectIdempotent(text: string, t: string)
    requires IsFirstObject(text, Some(t))
    ensures IsFirstObject(t, Some(t))
  {
    var start := FindBrace(text);
    FirstObjectStart(text, t);
    FindBraceAt(t, 0);
    assert t[0..|t|] == t;
    forall k | 0 < k < |t|
      ensures !Balanced(t[0..k])
    {
      SliceOfSlice(text, start, start + |t|, start, start + k);
      assert t[0..k] == text[start..start + k];
    }
  }
}
