/** The guards of whole-file writes and of appends in terms of the path and of the lines of the content. */
module WriteLaws {
  import opened Text
  import opened Insertion
  import opened Editor

  // ---------------------------------------------------------------- paths

  predicate Lacks(s: string, ch: char) {
    forall i :: 0 <= i < |s| ==> s[i] != ch
  }

  lemma {:induction false} AfterLastAt(a: string, ch: char, b: string)
    requires Lacks(b, ch)
    ensures AfterLast(a + [ch] + b, ch) == |a| + 1
  {
    var s := a + [ch] + b;
    if b != "" {
      assert s[..|s| - 1] == a + [ch] + b[..|b| - 1];
      AfterLastAt(a, ch, b[..|b| - 1]);
    }
  }

  lemma {:induction false} NoneLast(s: string, ch: char)
    requires Lacks(s, ch)
    ensures AfterLast(s, ch) == 0
  {
    if s != "" {
      NoneLast(s[..|s| - 1], ch);
    }
  }

  /** A directory as the front of a path: empty, or up to a slash. */
  predicate Directory(dir: string) {
    dir == "" || dir[|dir| - 1] == '/'
  }

  lemma BaseNameIs(dir: string, name: string)
    requires Directory(dir) && Lacks(name, '/')
    ensures BaseName(dir + name) == name
  {
    if dir == "" {
      assert dir + name == name;
      NoneLast(name, '/');
    } else {
      var front := dir[..|dir| - 1];
      assert dir + name == front + ['/'] + name;
      AfterLastAt(front, '/', name);
    }
  }

  lemma ExtensionOf(path: string, dot: nat)
    requires dot == AfterLast(BaseName(path), '.')
    ensures dot == 0 ==> Extension(path) == ""
    ensures (forall i :: 0 <= i < dot ==> BaseName(path)[i] == '.') ==> Extension(path) == ""
    ensures forall k :: 0 <= k < dot && BaseName(path)[k] != '.' ==> Extension(path) == Lower(BaseName(path)[dot - 1..])
  {
    hide AfterLast, BaseName, Lower;
  }

  /** A file name with a part ahead of its last period that is more than periods has the rest as its extension, in
      lower case. */
  lemma ExtensionMeans(dir: string, stem: string, w: string, k: nat)
    requires Directory(dir) && Lacks(stem, '/') && Lacks(w, '/') && Lacks(w, '.')
    requires k < |stem| && stem[k] != '.'
    ensures Extension(dir + stem + "." + w) == Lower("." + w)
  {
    hide AfterLast, BaseName, Extension, Directory, Lower;
    var name := stem + ['.'] + w;
    Regrouped(dir, stem, "." + w);
    assert name == stem + ("." + w) && dir + stem + "." + w == dir + stem + ("." + w);
    BaseNameIs(dir, name);
    AfterLastAt(stem, '.', w);
    ExtensionOf(dir + name, |stem| + 1);
    assert name[k] == stem[k];
    assert name[|stem|..] == "." + w;
  }

  /** A file name without a period behind its leading ones has no extension. */
  lemma NoExtension(dir: string, dots: string, rest: string)
    requires Directory(dir) && Lacks(rest, '/') && Lacks(rest, '.') && forall i :: 0 <= i < |dots| ==> dots[i] == '.'
    ensures Extension(dir + dots + rest) == ""
  {
    hide AfterLast, BaseName, Extension, Directory;
    var name := dots + rest;
    assert dir + dots + rest == dir + name;
    BaseNameIs(dir, name);
    if dots == "" {
      assert name == rest;
      NoneLast(rest, '.');
      ExtensionOf(dir + name, 0);
    } else {
      var front := dots[..|dots| - 1];
      assert name == front + ['.'] + rest;
      AfterLastAt(front, '.', rest);
      assert forall i :: 0 <= i < |dots| ==> name[i] == dots[i];
      ExtensionOf(dir + name, |dots|);
    }
  }

  /** The suffixes of source files. */
  predicate SourceSuffix(ext: string) {
    ext in {".py", ".js", ".ts", ".jsx", ".tsx", ".html", ".css", ".scss", ".sass", ".md", ".json", ".yaml", ".yml",
            ".toml", ".ini", ".cfg", ".sh", ".go", ".rs", ".java", ".cpp", ".c", ".h", ".rb", ".php", ".swift", ".kt"}
  }

  lemma SourceSuffixes(ext: string)
    ensures ext in SOURCE_EXTENSIONS <==> SourceSuffix(ext)
  {
  }

  // ---------------------------------------------------------------- writes

  /** A write over an existing file is refused as destructive exactly when the file's suffix, in any case, is one of the
      27 of source files, the file has 200 characters or more, and the new content less than three tenths of them. */
  lemma DestructiveExactly(c: Checks, dir: string, stem: string, w: string, k: nat, existing: string, content: string)
    requires Directory(dir) && Lacks(stem, '/') && Lacks(w, '/') && Lacks(w, '.')
    requires k < |stem| && stem[k] != '.'
    ensures WriteVerdict(c, dir + stem + "." + w, Some(existing), content) == Refuse(Destructive) <==>
            SourceSuffix(Lower("." + w)) && |existing| >= 200 && 10 * |content| < 3 * |existing|
  {
    hide Extension, Lower, IsServer, IsPython, SourceSuffix, SOURCE_EXTENSIONS;
    ExtensionMeans(dir, stem, w, k);
    SourceSuffixes(Lower("." + w));
  }

  /** A file whose name has no suffix is not guarded. */
  lemma PlainNameUnguarded(c: Checks, dir: string, dots: string, rest: string, existing: string, content: string)
    requires Directory(dir) && Lacks(rest, '/') && Lacks(rest, '.') && forall i :: 0 <= i < |dots| ==> dots[i] == '.'
    ensures WriteVerdict(c, dir + dots + rest, Some(existing), content) != Refuse(Destructive)
  {
    hide Extension, IsServer, IsPython;
    NoExtension(dir, dots, rest);
    NoSuffix();
  }

  lemma NoSuffix()
    ensures "" !in SOURCE_EXTENSIONS
  {
  }

  lemma {:induction false} LastSlash(s: string)
    ensures var n := AfterLast(s, '/'); Lacks(s[n..], '/') && (n > 0 ==> s[n - 1] == '/')
  {
    if s != "" && s[|s| - 1] != '/' {
      var init := s[..|s| - 1];
      LastSlash(init);
      var n := AfterLast(s, '/');
      assert s[n..] == init[n..] + [s[|s| - 1]];
    }
  }

  /** The files whose critical functions are guarded are those named `server.py`, in any directory; the source's second
      test adds none. */
  lemma ServerMeans(path: string)
    ensures IsServer(path) <==> path == "server.py" || EndsWith(path, "/server.py")
  {
    hide BaseName, EndsWith;
    if BaseName(path) == "server.py" {
      NamedServer(path);
    }
    WebServer(path);
    if EndsWith(path, "/server.py") {
      ServerInDirectory(path);
    }
    if path == "server.py" {
      NoSlash();
      BaseNameIs("", path);
      assert "" + path == path;
    }
  }

  lemma NamedServer(path: string)
    requires BaseName(path) == "server.py"
    ensures path == "server.py" || EndsWith(path, "/server.py")
  {
    hide AfterLast;
    LastSlash(path);
    NoSlash();
    var n := AfterLast(path, '/');
    if n > 0 {
      assert path[n - 1..] == ['/'] + path[n..];
    }
  }

  lemma WebServer(path: string)
    ensures EndsWith(path, "web/server.py") ==> EndsWith(path, "/server.py")
  {
    if EndsWith(path, "web/server.py") {
      assert "web/server.py"[3..] == "/server.py";
      assert path[|path| - 10..] == path[|path| - 13..][3..];
    }
  }

  lemma ServerInDirectory(path: string)
    requires EndsWith(path, "/server.py")
    ensures BaseName(path) == "server.py"
  {
    hide BaseName;
    NoSlash();
    var n := |path| - 9;
    var last := path[n - 1..];
    assert last == "/server.py" && last[0] == path[n - 1] && last[1..] == path[n..];
    assert path == path[..n] + "server.py" && path[..n][n - 1] == '/';
    BaseNameIs(path[..n], "server.py");
  }

  lemma NoSlash()
    ensures Lacks("server.py", '/') && |"server.py"| == 9 && |"/server.py"| == 10 && "/server.py"[1..] == "server.py"
    ensures "/server.py"[0] == '/' && "/server.py" == ['/'] + "server.py"
  {
  }

  /** A write that is neither the present content nor destructive is refused for its symbols exactly when it drops
      critical ones of a `server.py`. */
  lemma SymbolsExactly(c: Checks, path: string, existing: string, content: string)
    requires existing != content && WriteVerdict(c, path, Some(existing), content) != Refuse(Destructive)
    ensures WriteVerdict(c, path, Some(existing), content) == Refuse(SymbolRemoved) <==>
            (path == "server.py" || EndsWith(path, "/server.py")) && c.dropsCritical(existing, content)
  {
    hide Extension, IsServer;
    ServerMeans(path);
    ServerIsPython(path);
  }

  lemma ServerIsPython(path: string)
    ensures path == "server.py" || EndsWith(path, "/server.py") ==> EndsWith(path, ".py")
  {
    assert "server.py"[6..] == ".py" && "/server.py"[7..] == ".py";
    if EndsWith(path, "/server.py") {
      assert path[|path| - 3..] == path[|path| - 10..][7..];
    }
  }

  // ---------------------------------------------------------------- appends

  lemma MarkerInFront(s: string, m: string, n: nat)
    requires n <= |s| && StartsWith(s[..n], m)
    ensures Contains("\n" + s, "\n" + m)
  {
    var t, u := "\n" + s, "\n" + m;
    assert s[..n][..|m|] == s[..|m|];
    assert t[0..|u|] == u;
    assert OccursAt(t, u, 0);
  }

  lemma MarkerBehind(head: string, tail: string, u: string)
    requires FullLine(head) && Contains("\n" + tail, u)
    ensures Contains("\n" + (head + tail), u)
  {
    hide Contains;
    var front := "\n" + head[..|head| - 1];
    ContainsInContext(front, "\n" + tail, "", u);
    assert head == head[..|head| - 1] + "\n";
    assert front + ("\n" + tail) + "" == "\n" + (head + tail);
  }

  lemma MarkerFound(s: string, m: string, p: nat)
    requires m != "" && NoNewline(m) && s != "" && OccursAt("\n" + s, "\n" + m, p)
    ensures if p == 0 then StartsWith(s[..LineLen(s)], m)
            else FullLine(s[..LineLen(s)]) && Contains("\n" + s[LineLen(s)..], "\n" + m)
  {
    hide LineLen, Contains;
    var n := LineLen(s);
    var t, u := "\n" + s, "\n" + m;
    LinesHead(s);
    OccursChars(t, u, p);
    MarkerPlace(s, m, n, p);
    if p == 0 {
      assert s[..n][..|m|] == m;
    } else {
      OccursInSlice(t, u, p, n, |t|);
      assert t[n..|t|] == "\n" + s[n..];
    }
  }

  lemma MarkerFirst(s: string, m: string)
    requires m != "" && NoNewline(m) && s != ""
    ensures Contains("\n" + s, "\n" + m) <==>
            || StartsWith(s[..LineLen(s)], m)
            || (FullLine(s[..LineLen(s)]) && Contains("\n" + s[LineLen(s)..], "\n" + m))
  {
    hide LineLen, StartsWith, FullLine, OccursAt, NoNewline;
    var n := LineLen(s);
    var t, u := "\n" + s, "\n" + m;
    if StartsWith(s[..n], m) {
      MarkerInFront(s, m, n);
    } else if FullLine(s[..n]) && Contains("\n" + s[n..], u) {
      MarkerBehind(s[..n], s[n..], u);
      assert s[..n] + s[n..] == s;
    } else if p :| 0 <= p <= |t| - |u| && OccursAt(t, u, p) {
      MarkerFound(s, m, p);
    }
  }

  lemma MarkerPlace(s: string, m: string, n: nat, p: nat)
    requires 0 < n <= |s| && NoNewline(m) && m != ""
    requires (forall i :: 0 <= i < n - 1 ==> s[i] != '\n') && (n < |s| ==> s[n - 1] == '\n')
    requires p + |m| + 1 <= |s| + 1
    requires forall k :: 0 <= k < |m| + 1 ==> ("\n" + s)[p + k] == ("\n" + m)[k]
    ensures if p == 0 then |m| <= n && (forall k :: 0 <= k < |m| ==> s[k] == m[k]) else n <= p && s[n - 1] == '\n'
  {
    var t, u := "\n" + s, "\n" + m;
    assert t[p + 0] == u[0] == '\n';
    if p == 0 {
      forall k | 0 <= k < |m|
        ensures s[k] == m[k]
      {
        assert t[p + (k + 1)] == u[k + 1];
      }
    } else {
      assert s[p - 1] == t[p];
    }
  }

  /** A marker at the start of a line, looked for behind a newline, is found exactly when some line starts with it. */
  lemma {:induction false} MarkerLine(s: string, m: string)
    requires m != "" && NoNewline(m)
    ensures Contains("\n" + s, "\n" + m) <==> exists i :: 0 <= i < |Lines(s)| && StartsWith(Lines(s)[i], m)
    decreases |s|
  {
    hide Contains, StartsWith, LineLen;
    if s == "" {
      NoMarker(m);
    } else {
      var n := LineLen(s);
      LinesHead(s);
      MarkerFirst(s, m);
      MarkerLine(s[n..], m);
      var ls, rest := Lines(s), Lines(s[n..]);
      assert ls == [s[..n]] + rest && ls[0] == s[..n];
      NoLines();
      if i :| 0 <= i < |rest| && StartsWith(rest[i], m) {
        assert StartsWith(ls[i + 1], m);
      }
      if i :| 0 <= i < |ls| && StartsWith(ls[i], m) {
        assert i == 0 || StartsWith(rest[i - 1], m);
      }
      NoMarker(m);
    }
  }

  lemma NoMarker(m: string)
    requires m != ""
    ensures !Contains("\n" + "", "\n" + m)
  {
  }

  /** Some line starts with the word. */
  predicate SomeLine(s: string, m: string) {
    exists i :: 0 <= i < |Lines(s)| && StartsWith(Lines(s)[i], m)
  }

  lemma Markers(s: string)
    ensures (exists i :: 0 <= i < |MODULE_MARKERS| && Contains(s, MODULE_MARKERS[i])) <==>
            || Contains(s, "\n" + "def ") || Contains(s, "\n" + "async def ") || Contains(s, "\n" + "class ")
            || Contains(s, "\n" + "@pytest.fixture") || Contains(s, "\n" + "app = ") || Contains(s, "\n" + "client = ")
  {
    hide Contains;
    assert MODULE_MARKERS[0] == "\n" + "def " && MODULE_MARKERS[1] == "\n" + "async def ";
    assert MODULE_MARKERS[2] == "\n" + "class " && MODULE_MARKERS[3] == "\n" + "@pytest.fixture";
    assert MODULE_MARKERS[4] == "\n" + "app = " && MODULE_MARKERS[5] == "\n" + "client = ";
  }

  lemma MarkersAreWords()
    ensures NoNewline("def ") && NoNewline("async def ") && NoNewline("class ")
    ensures NoNewline("@pytest.fixture") && NoNewline("app = ") && NoNewline("client = ")
  {
  }

  /** An append is refused as a complete module exactly when it goes to a Python file that is not blank, its text starts
      with an import, and one of its lines starts a function, a class, a fixture, an app or a client. */
  lemma ModuleRefusedExactly(c: Checks, path: string, existing: string, content: string)
    ensures var s := content[Lead(content)..];
            AppendVerdict(c, path, existing, content) == Refuse(CompleteModule) <==>
              && EndsWith(path, ".py") && !Blank(existing)
              && (StartsWith(s, "import ") || StartsWith(s, "from "))
              && (|| SomeLine(s, "def ") || SomeLine(s, "async def ") || SomeLine(s, "class ")
                  || SomeLine(s, "@pytest.fixture") || SomeLine(s, "app = ") || SomeLine(s, "client = "))
  {
    hide Contains, Strip, StartsWith, EndsWith, Lines, Blank, MODULE_MARKERS;
    var s := LStrip(content);
    StripShape(existing);
    Markers("\n" + s);
    MarkersAreWords();
    MarkerLine(s, "def ");
    MarkerLine(s, "async def ");
    MarkerLine(s, "class ");
    MarkerLine(s, "@pytest.fixture");
    MarkerLine(s, "app = ");
    MarkerLine(s, "client = ");
  }
}
