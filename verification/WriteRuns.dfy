/** What runs of whole-file writes can and cannot destroy: the destructive-write guard looks at one write at a time. */
module WriteRuns {
  import opened Text
  import opened Insertion
  import opened Editor

  /** The contents a file goes through when whole texts are written to it in turn. */
  function Writes(c: Checks, path: string, text: string, contents: seq<string>): (w: seq<string>)
    ensures |w| == |contents| + 1 && w[0] == text
    decreases |contents|
  {
    if contents == [] then [text]
    else [text] + Writes(c, path, Apply(text, WriteVerdict(c, path, Some(text), contents[0])), contents[1..])
  }

  function Written(c: Checks, path: string, text: string, contents: seq<string>): string {
    Writes(c, path, text, contents)[|contents|]
  }

  lemma WriteFirst(c: Checks, path: string, text: string, contents: seq<string>)
    requires contents != []
    ensures Written(c, path, text, contents)
         == Written(c, path, Apply(text, WriteVerdict(c, path, Some(text), contents[0])), contents[1..])
  {
    hide WriteVerdict;
  }

  lemma WriteNone(c: Checks, path: string, text: string)
    ensures Written(c, path, text, []) == text
  {
  }

  lemma WriteKeepsThird(c: Checks, path: string, text: string, content: string)
    requires Extension(path) in SOURCE_EXTENSIONS && |text| >= 200
    ensures 10 * |Apply(text, WriteVerdict(c, path, Some(text), content))| >= 3 * |text|
  {
    hide Extension, IsServer, IsPython;
  }

  /** What the guards say that do not look at the size: the parser, and the check on critical symbols. */
  predicate Permitted(c: Checks, path: string, before: string, content: string) {
    IsPython(path) ==> c.validPython(path, content) && !(IsServer(path) && c.dropsCritical(before, content))
  }

  /** A write to a source file takes effect unless it shrinks a large file too far or one of the others refuses it. */
  lemma WriteEffect(c: Checks, path: string, text: string, content: string)
    requires Extension(path) in SOURCE_EXTENSIONS
    ensures Apply(text, WriteVerdict(c, path, Some(text), content))
         == if (|text| >= 200 && 10 * |content| < 3 * |text|) || !Permitted(c, path, text, content) then text else content
  {
    hide Extension, IsServer, IsPython;
  }

  /** Outside Python files the destructive-write guard is the only one. */
  lemma PlainWrite(c: Checks, path: string, text: string, content: string)
    requires Extension(path) in SOURCE_EXTENSIONS && !IsPython(path)
    ensures Apply(text, WriteVerdict(c, path, Some(text), content))
         == if |text| >= 200 && 10 * |content| < 3 * |text| then text else content
  {
    hide Extension, IsServer, IsPython;
  }

  /** Some content on the way has 60 to 199 characters. */
  ghost predicate ThroughSmall(w: seq<string>) {
    exists i :: 0 <= i < |w| && 60 <= |w[i]| < 200
  }

  lemma SmallLater(a: seq<string>, b: seq<string>)
    requires ThroughSmall(b)
    ensures ThroughSmall(a + b)
  {
    var i :| 0 <= i < |b| && 60 <= |b[i]| < 200;
    assert (a + b)[|a| + i] == b[i];
  }

  /** The guard protects a large source file one write at a time: it can only become tiny by way of a content
      between 60 and 199 characters, which is no longer guarded. Outside Python files the last write makes it tiny
      exactly when that write is tiny and finds the file below 200 characters. */
  lemma {:induction false} ShrinksOnlyThroughSmall(c: Checks, path: string, text: string, contents: seq<string>)
    requires Extension(path) in SOURCE_EXTENSIONS && |text| >= 200
    ensures |Written(c, path, text, contents)| < 60 ==> ThroughSmall(Writes(c, path, text, contents))
    ensures var w, n := Writes(c, path, text, contents), |contents|;
            !IsPython(path) && n > 0 ==> (|w[n]| < 60 <==> |contents[n - 1]| < 60 && |w[n - 1]| < 200)
    decreases |contents|
  {
    hide WriteVerdict, Extension, IsPython;
    var w := Writes(c, path, text, contents);
    if contents != [] {
      LastWrite(c, path, text, contents);
      WriteKeepsThird(c, path, text, contents[0]);
      var next := Apply(text, WriteVerdict(c, path, Some(text), contents[0]));
      var rest := Writes(c, path, next, contents[1..]);
      assert w == [text] + rest;
      if |next| >= 200 {
        ShrinksOnlyThroughSmall(c, path, next, contents[1..]);
        assert Written(c, path, next, contents[1..]) == rest[|contents| - 1] == w[|contents|];
        if ThroughSmall(rest) {
          SmallLater([text], rest);
        }
      } else {
        assert w[1] == next;
        assert 60 <= |w[1]| < 200;
      }
    } else {
      WriteNone(c, path, text);
    }
  }

  lemma {:induction false} LastWrite(c: Checks, path: string, text: string, contents: seq<string>)
    requires contents != [] && Extension(path) in SOURCE_EXTENSIONS
    ensures var w, n := Writes(c, path, text, contents), |contents|;
            !IsPython(path) ==> (|w[n]| < 60 <==> |contents[n - 1]| < 60 && |w[n - 1]| < 200)
    decreases |contents|
  {
    hide WriteVerdict, Extension, IsPython;
    if !IsPython(path) {
      PlainWrite(c, path, text, contents[0]);
    }
    if |contents| > 1 {
      LastWrite(c, path, Apply(text, WriteVerdict(c, path, Some(text), contents[0])), contents[1..]);
    }
  }

  /** What the guard refuses in one write it accepts in two, exactly when the text in between is below 200 characters
      but at least three tenths of the original, and the other guards permit both. */
  lemma GuardHoldsOnlyPerWrite(c: Checks, path: string, text: string, small: string)
    requires Extension(path) in SOURCE_EXTENSIONS && |text| >= 200
    ensures WriteVerdict(c, path, Some(text), "") == Refuse(Destructive)
    ensures Written(c, path, text, [small, ""]) == ""
       <==> && |small| < 200 && 10 * |small| >= 3 * |text|
            && Permitted(c, path, text, small) && Permitted(c, path, small, "")
  {
    hide Extension, IsServer, IsPython, Writes, Permitted;
    var next := Apply(text, WriteVerdict(c, path, Some(text), small));
    WriteEffect(c, path, text, small);
    WriteEffect(c, path, next, "");
    assert [small, ""][1..] == [""] && [""][1..] == [];
    WriteFirst(c, path, text, [small, ""]);
    WriteFirst(c, path, next, [""]);
    WriteNone(c, path, Apply(next, WriteVerdict(c, path, Some(next), "")));
  }

  // ---------------------------------------------------------------- how many writes empty a file

  /** The size of the largest source file that `n` writes can empty: 199, 663, 2210, ... */
  function Reach(n: nat): (r: nat)
    requires n >= 1
    ensures r >= 199
  {
    if n == 1 then 199 else 10 * Reach(n - 1) / 3
  }

  /** No run of `n` writes empties a larger file, Python or not. */
  lemma {:induction false} WritesNeeded(c: Checks, path: string, text: string, contents: seq<string>)
    requires Extension(path) in SOURCE_EXTENSIONS && contents != [] && Written(c, path, text, contents) == ""
    ensures |text| <= Reach(|contents|)
    decreases |contents|
  {
    hide WriteVerdict, Extension, Writes, Written;
    var next := Apply(text, WriteVerdict(c, path, Some(text), contents[0]));
    WriteFirst(c, path, text, contents);
    if |text| >= 200 {
      WriteKeepsThird(c, path, text, contents[0]);
      if |contents| == 1 {
        assert contents[1..] == [];
        WriteNone(c, path, next);
      } else {
        WritesNeeded(c, path, next, contents[1..]);
      }
    }
  }

  /** Some text of `n` characters may be written over `before`. */
  ghost predicate Offers(c: Checks, path: string, before: string, n: nat) {
    exists s :: |s| == n && Permitted(c, path, before, s)
  }

  /** The guards that do not look at the size permit texts of every length; a comment, say. */
  ghost predicate Lenient(c: Checks, path: string) {
    forall before, n :: Offers(c, path, before, n)
  }

  lemma OtherFilesLenient(c: Checks, path: string)
    requires !IsPython(path)
    ensures Lenient(c, path)
  {
    hide IsPython, IsServer;
    forall before: string, n: nat
      ensures Offers(c, path, before, n)
    {
      var s := seq(n, _ => 'x');
      assert |s| == n && Permitted(c, path, before, s);
    }
  }

  lemma {:induction false} WritesSuffice(c: Checks, path: string, text: string, n: nat) returns (contents: seq<string>)
    requires Extension(path) in SOURCE_EXTENSIONS && Lenient(c, path) && n >= 1 && |text| <= Reach(n)
    ensures |contents| == n && Written(c, path, text, contents) == ""
    decreases n
  {
    hide WriteVerdict, Extension, Writes, Written, Permitted;
    if n == 1 {
      contents := [""];
      assert contents[1..] == [];
      assert Offers(c, path, text, 0);
      WriteEffect(c, path, text, "");
      WriteFirst(c, path, text, contents);
      WriteNone(c, path, Apply(text, WriteVerdict(c, path, Some(text), "")));
    } else {
      var r := Reach(n - 1);
      assert 10 * r >= 3 * |text|;
      assert Offers(c, path, text, r);
      var filler :| |filler| == r && Permitted(c, path, text, filler);
      var next := if |text| <= r then text else filler;
      WriteEffect(c, path, text, next);
      var rest := WritesSuffice(c, path, next, n - 1);
      contents := [next] + rest;
      assert contents[1..] == rest;
      WriteFirst(c, path, text, contents);
    }
  }

  /** Some run of `n` writes empties the file. */
  ghost predicate CanEmpty(c: Checks, path: string, text: string, n: nat) {
    exists contents :: |contents| == n && Written(c, path, text, contents) == ""
  }

  /** Where the other guards permit texts of every length, a source file can be emptied by `n` writes exactly up to the
      size that grows by ten thirds with every write: by one up to 199 characters, by two up to 663, and in the end at
      any size. */
  lemma EmptiedInWrites(c: Checks, path: string, text: string, n: nat)
    requires Extension(path) in SOURCE_EXTENSIONS && Lenient(c, path) && n >= 1
    ensures CanEmpty(c, path, text, n) <==> |text| <= Reach(n)
    ensures Reach(2) == 663
  {
    hide Extension, Written, Lenient;
    if contents :| |contents| == n && Written(c, path, text, contents) == "" {
      WritesNeeded(c, path, text, contents);
    }
    if |text| <= Reach(n) {
      var contents := WritesSuffice(c, path, text, n);
    }
  }
}
