/** Backup, restore and retention of the `.igris/` directory (`backup_manager.py`), with the backup store at its
    default place, the entry `backups` of that directory. */
module Backup {
  import opened Text

  // ---------------------------------------------------------------- directory trees

  datatype Meta = Meta(backupId: string, sizeBytes: nat, fileCount: nat)

  /** What reading a file as backup metadata gives: the metadata, a failure that the listing skips (no JSON, or not
      readable), or one that it does not catch (JSON that is no object, or no UTF-8). */
  datatype Reading = Readable(meta: Meta) | Unreadable | Uncaught

  /** A regular file, with what its text says when read as backup metadata, or a directory. */
  datatype Node = File(text: string, parsed: Reading) | Dir(entries: map<string, Node>)

  type Tree = map<string, Node>

  const META := "_backup_meta.json"
  const STORE := "backups"

  const EXCLUDE_PATTERNS := {"__pycache__", ".tmp", "checkpoints", "backups", "*.lock", "*.log", "*.pid"}

  /** One pattern: with a star in front it stands for the names that end like it. */
  predicate Matches(pattern: string, name: string) {
    if StartsWith(pattern, "*") then EndsWith(name, pattern[1..]) else name == pattern
  }

  /** Names that no backup takes. */
  predicate Excluded(name: string) {
    || name == "__pycache__" || name == ".tmp" || name == "checkpoints" || name == "backups"
    || EndsWith(name, ".lock") || EndsWith(name, ".log") || EndsWith(name, ".pid")
  }

  lemma PatternsMean(name: string)
    ensures Excluded(name) <==> exists pattern :: pattern in EXCLUDE_PATTERNS && Matches(pattern, name)
  {
    hide EndsWith;
    PlainPatterns(name);
    StarPatterns(name);
    if Excluded(name) {
      var pattern :| pattern in EXCLUDE_PATTERNS && Matches(pattern, name);
    }
  }

  lemma PlainPatterns(name: string)
    ensures Matches("__pycache__", name) <==> name == "__pycache__"
    ensures Matches(".tmp", name) <==> name == ".tmp"
    ensures Matches("checkpoints", name) <==> name == "checkpoints"
    ensures Matches("backups", name) <==> name == "backups"
  {
    assert "__pycache__"[0] == '_' && ".tmp"[0] == '.' && "checkpoints"[0] == 'c' && "backups"[0] == 'b';
    assert "*"[0] == '*';
  }

  lemma StarPatterns(name: string)
    ensures Matches("*.lock", name) <==> EndsWith(name, ".lock")
    ensures Matches("*.log", name) <==> EndsWith(name, ".log")
    ensures Matches("*.pid", name) <==> EndsWith(name, ".pid")
  {
    assert "*.lock"[..1] == "*" && "*.lock"[1..] == ".lock";
    assert "*.log"[..1] == "*" && "*.log"[1..] == ".log";
    assert "*.pid"[..1] == "*" && "*.pid"[1..] == ".pid";
  }

  /** `_should_exclude`: the patterns are tried in any order. */
  method ShouldExclude(name: string) returns (excluded: bool)
    ensures excluded <==> || name in {"__pycache__", ".tmp", "checkpoints", "backups"}
                          || EndsWith(name, ".lock") || EndsWith(name, ".log") || EndsWith(name, ".pid")
  {
    hide Matches, EndsWith;
    PatternsMean(name);
    var rest := EXCLUDE_PATTERNS;
    while rest != {}
      invariant rest <= EXCLUDE_PATTERNS
      invariant forall pattern :: pattern in EXCLUDE_PATTERNS && pattern !in rest ==> !Matches(pattern, name)
      decreases rest
    {
      var pattern :| pattern in rest;
      rest := rest - {pattern};
      if Matches(pattern, name) {
        return true;
      }
    }
    return false;
  }

  // ---------------------------------------------------------------- paths

  /** What stands at a path below a node. */
  function At(d: Node, path: seq<string>): Option<Node> {
    if path == [] then Some(d)
    else if d.Dir? && path[0] in d.entries then At(d.entries[path[0]], path[1..])
    else None
  }

  /** No name on the path is one that backups leave out. */
  predicate Clean(path: seq<string>) {
    forall i :: 0 <= i < |path| ==>
      && path[i] !in {"__pycache__", ".tmp", "checkpoints", "backups"}
      && !EndsWith(path[i], ".lock") && !EndsWith(path[i], ".log") && !EndsWith(path[i], ".pid")
  }

  /** The copy has, at exactly the clean paths of the source, the same files and directories in place of directories. */
  ghost predicate Copies(src: Node, copy: Node) {
    forall path: seq<string> :: CopiedAt(src, copy, path)
  }

  predicate CopiedAt(src: Node, copy: Node, path: seq<string>) {
    var from, to := At(src, path), At(copy, path);
    && (to.Some? <==> from.Some? && Clean(path))
    && (to.Some? ==> if from.value.File? then to.value == from.value else to.value.Dir?)
  }

  /** What a backup of a directory holds. */
  function Filtered(d: Node): (r: Node)
    ensures r.Dir? <==> d.Dir?
  {
    match d
    case File(_, _) => d
    case Dir(entries) => Dir(map name | name in entries && !Excluded(name) :: Filtered(entries[name]))
  }

  lemma CleanStep(path: seq<string>)
    requires path != []
    ensures Clean(path) <==> !Excluded(path[0]) && Clean(path[1..])
  {
    hide EndsWith;
    assert path == [path[0]] + path[1..];
    assert forall i :: 0 <= i < |path| - 1 ==> path[1..][i] == path[i + 1];
    assert forall i :: 1 <= i < |path| ==> path[i] == path[1..][i - 1];
  }

  lemma {:induction false} FilteredAt(src: Node, path: seq<string>)
    ensures CopiedAt(src, Filtered(src), path)
    decreases |path|
  {
    hide Excluded, Clean;
    if path != [] {
      CleanStep(path);
      if src.Dir? && path[0] in src.entries {
        FilteredAt(src.entries[path[0]], path[1..]);
      }
    } else {
      NothingUnclean();
    }
  }

  lemma NothingUnclean()
    ensures Clean([])
  {
  }

  /** A copy is determined by what stands at its paths. */
  lemma FilteredCopies(src: Node)
    ensures Copies(src, Filtered(src))
  {
    hide CopiedAt, Filtered;
    forall path: seq<string>
      ensures CopiedAt(src, Filtered(src), path)
    {
      FilteredAt(src, path);
    }
  }

  function Size(f: Node): nat {
    if f.File? then |f.text| else 0
  }

  /** Number of files, and the sum of their sizes. */
  datatype Tally = Tally(files: nat, bytes: nat)

  function Plus(a: Tally, b: Tally): Tally {
    Tally(a.files + b.files, a.bytes + b.bytes)
  }

  /** The files at and below a node. */
  ghost function Totals(d: Node): Tally
    decreases d, if d.Dir? then |d.entries| + 1 else 0
  {
    if d.File? then Tally(1, Size(d)) else TotalsOver(d, d.entries.Keys)
  }

  ghost function TotalsOver(d: Node, names: set<string>): Tally
    requires d.Dir? && names <= d.entries.Keys
    decreases d, |names|
  {
    if names == {} then Tally(0, 0)
    else
      var name :| name in names;
      Plus(Totals(d.entries[name]), TotalsOver(d, names - {name}))
  }

  lemma TotalsUnfold(d: Node, names: set<string>) returns (name: string)
    requires d.Dir? && names <= d.entries.Keys && names != {}
    ensures name in names && TotalsOver(d, names) == Plus(Totals(d.entries[name]), TotalsOver(d, names - {name}))
  {
    hide Plus;
    name :| name in names && TotalsOver(d, names) == Plus(Totals(d.entries[name]), TotalsOver(d, names - {name}));
  }

  /** The sum does not depend on the order of the directory entries. */
  lemma {:induction false} TotalsPick(d: Node, names: set<string>, name: string)
    requires d.Dir? && names <= d.entries.Keys && name in names
    ensures TotalsOver(d, names) == Plus(Totals(d.entries[name]), TotalsOver(d, names - {name}))
    decreases |names|
  {
    hide TotalsOver, Totals;
    var other := TotalsUnfold(d, names);
    if other != name {
      TotalsPick(d, names - {other}, name);
      TotalsPick(d, names - {name}, other);
      assert names - {other} - {name} == names - {name} - {other};
    }
  }

  lemma {:induction false} FilteredTwice(d: Node)
    ensures Filtered(Filtered(d)) == Filtered(d)
    decreases d
  {
    if d.Dir? {
      forall name | name in d.entries && !Excluded(name)
        ensures Filtered(Filtered(d.entries[name])) == Filtered(d.entries[name])
      {
        FilteredTwice(d.entries[name]);
      }
      assert Filtered(Filtered(d)).entries == Filtered(d).entries;
    }
  }

  lemma FilteredEntries(src: Node)
    requires src.Dir?
    ensures forall name :: name in Filtered(src).entries <==> name in src.entries && !Excluded(name)
    ensures forall name :: name in Filtered(src).entries ==> Filtered(src).entries[name] == Filtered(src.entries[name])
  {
    hide Excluded;
  }

  lemma TotalsOfDir(d: Node)
    requires d.Dir?
    ensures Totals(d) == TotalsOver(d, d.entries.Keys) && TotalsOver(d, {}) == Tally(0, 0)
  {
  }

  lemma TotalsOfFile(f: Node)
    requires f.File?
    ensures Totals(f) == Tally(1, |f.text|) && Filtered(f) == f
  {
  }

  /** `_copy_tree` into a new directory; directory entries come in any order. */
  method CopyTree(src: Node) returns (copy: Tree, fileCount: nat, totalSize: nat)
    requires src.Dir?
    ensures Dir(copy) == Filtered(src) && Copies(src, Dir(copy))
    ensures Tally(fileCount, totalSize) == Totals(Filtered(src))
    decreases src
  {
    hide Filtered, Totals, TotalsOver, Copies, EndsWith;
    FilteredCopies(src);
    ghost var target := Filtered(src);
    FilteredEntries(src);
    TotalsOfDir(target);
    copy, fileCount, totalSize := map[], 0, 0;
    var rest := src.entries.Keys;
    ghost var left := target.entries.Keys;
    while rest != {}
      invariant rest <= src.entries.Keys && left <= target.entries.Keys
      invariant forall name :: name in left <==> name in target.entries && name in rest
      invariant forall name :: name in copy <==> name in target.entries && name !in left
      invariant forall name :: name in copy ==> copy[name] == target.entries[name]
      invariant Plus(Tally(fileCount, totalSize), TotalsOver(target, left)) == Totals(target)
      decreases rest
    {
      var name :| name in rest;
      rest := rest - {name};
      var excluded := ShouldExclude(name);
      if excluded {
        continue;
      }
      TotalsPick(target, left, name);
      left := left - {name};
      var item := src.entries[name];
      if item.Dir? {
        var sub, fc, ts := CopyTree(item);
        copy := copy[name := Dir(sub)];
        fileCount := fileCount + fc;
        totalSize := totalSize + ts;
      } else {
        TotalsOfFile(item);
        copy := copy[name := item];
        fileCount := fileCount + 1;
        totalSize := totalSize + Size(item);
      }
    }
    assert left == {};
    assert copy == target.entries;
  }

  // ---------------------------------------------------------------- names in order

  /** Lexicographic order of names. */
  predicate Less(a: string, b: string) {
    b != "" && (a == "" || a[0] < b[0] || (a[0] == b[0] && Less(a[1..], b[1..])))
  }

  lemma {:induction false} LessTransitive(a: string, b: string, c: string)
    requires Less(a, b) && Less(b, c)
    ensures Less(a, c)
  {
    if a != "" && a[0] == b[0] && b[0] == c[0] {
      LessTransitive(a[1..], b[1..], c[1..]);
    }
  }

  lemma {:induction false} LessTotal(a: string, b: string)
    ensures a != b ==> Less(a, b) || Less(b, a)
  {
    if a != "" && b != "" && a[0] == b[0] {
      LessTotal(a[1..], b[1..]);
      assert a == [a[0]] + a[1..] && b == [b[0]] + b[1..];
    }
  }

  lemma {:induction false} LessAsymmetric(a: string, b: string)
    ensures !(Less(a, b) && Less(b, a))
  {
    if a != "" && b != "" && a[0] == b[0] {
      LessAsymmetric(a[1..], b[1..]);
    }
  }

  predicate IsGreatest(m: string, names: set<string>) {
    m in names && forall x :: x in names ==> x == m || Less(x, m)
  }

  lemma {:induction false} GreatestExists(names: set<string>)
    requires names != {}
    ensures exists m :: IsGreatest(m, names)
    decreases names
  {
    var x :| x in names;
    if names == {x} {
      assert IsGreatest(x, names);
    } else {
      GreatestExists(names - {x});
      var m :| IsGreatest(m, names - {x});
      LessTotal(x, m);
      if Less(x, m) {
        assert IsGreatest(m, names);
      } else {
        forall y | y in names
          ensures y == x || Less(y, x)
        {
          if y != x && y != m {
            LessTransitive(y, m, x);
          }
        }
        assert IsGreatest(x, names);
      }
    }
  }

  lemma GreatestUnique(names: set<string>, a: string, b: string)
    requires IsGreatest(a, names) && IsGreatest(b, names)
    ensures a == b
  {
    LessAsymmetric(a, b);
  }

  function Greatest(names: set<string>): (m: string)
    requires names != {}
    ensures IsGreatest(m, names)
  {
    GreatestExists(names);
    assert forall a, b | IsGreatest(a, names) && IsGreatest(b, names) :: a == b by {
      forall a, b | IsGreatest(a, names) && IsGreatest(b, names)
        ensures a == b
      {
        GreatestUnique(names, a, b);
      }
    }
    var m :| m in names && IsGreatest(m, names);
    m
  }

  /** `sorted(names, reverse=True)`. */
  function SortedDown(names: set<string>): seq<string>
    decreases |names|
  {
    if names == {} then [] else [Greatest(names)] + SortedDown(names - {Greatest(names)})
  }

  // ---------------------------------------------------------------- the store

  /** A directory of the store counts as a backup unless its metadata is there but unreadable. */
  predicate IsBackup(n: Node) {
    n.Dir? && (META in n.entries ==> n.entries[META].File? && n.entries[META].parsed.Readable?)
  }

  /** Metadata that makes the listing of the store fail altogether. */
  predicate Breaks(n: Node) {
    n.Dir? && META in n.entries && n.entries[META].File? && n.entries[META].parsed.Uncaught?
  }

  predicate Broken(store: Tree) {
    exists id :: id in store && Breaks(store[id])
  }

  function Keep(names: seq<string>, store: Tree): seq<string> {
    if names == [] then []
    else (if names[0] in store && IsBackup(store[names[0]]) then [names[0]] else []) + Keep(names[1..], store)
  }

  /** `list_backups`: the names of the backups, newest first. */
  function Listed(store: Tree): seq<string> {
    Keep(SortedDown(store.Keys), store)
  }

  /** Python's `s[k:]`. */
  function SliceFrom<T>(s: seq<T>, k: int): seq<T> {
    if k >= 0 then (if k <= |s| then s[k..] else []) else if -k <= |s| then s[|s| + k..] else s
  }

  /** The backups that the retention policy removes. */
  function Surplus(store: Tree, retention: int): seq<string> {
    if |Listed(store)| <= retention then [] else SliceFrom(Listed(store), retention)
  }

  function AfterCleanup(store: Tree, retention: int): Tree {
    map id | id in store && id !in Surplus(store, retention) :: store[id]
  }

  /** The directory written for a backup. */
  ghost function BackupDir(igris: Tree, id: string, metaText: string): Node {
    var t := Totals(Filtered(Dir(igris)));
    Dir(Filtered(Dir(igris)).entries[META := File(metaText, Readable(Meta(id, t.bytes, t.files)))])
  }

  function StoreOf(igris: Tree): Tree {
    if STORE in igris && igris[STORE].Dir? then igris[STORE].entries else map[]
  }

  datatype BackupInfo = BackupInfo(backupId: string, sizeBytes: nat, fileCount: nat, ok: bool)

  // ---------------------------------------------------------------- restoring one entry

  /** The entry cannot be written: a file is in the way of a directory, or a directory in the way of the file
      inside. */
  predicate InTheWay(present: Option<Node>, item: Node, name: string) {
    present.Some? &&
    if item.Dir? then present.value.File?
    else present.value.Dir? && name in present.value.entries && present.value.entries[name].Dir?
  }

  /** A directory replaces what was there; a file replaces a file, but goes into a directory of its name. */
  function RestoredEntry(present: Option<Node>, item: Node, name: string): Node {
    if item.File? && present.Some? && present.value.Dir? then Dir(present.value.entries[name := item]) else item
  }

  /** The outcome of restoring `item` over the directory `before`: every entry of the backup is restored, unless
      something was in the way of one; that one stays as it was, and each other one is either restored or as it was.
      Entries that the backup does not have are untouched, and so is any metadata file. */
  ghost predicate Restored(before: Tree, item: Node, after: Tree, ok: bool) {
    if item.File? then !ok && after == before
    else
      var items := item.entries;
      && ok == (forall name :: name in items && name != META ==> !InTheWay(Entry(before, name), items[name], name))
      && (forall name :: name !in items || name == META ==> Entry(after, name) == Entry(before, name))
      && (forall name :: name in items && name != META ==>
            || (&& !InTheWay(Entry(before, name), items[name], name)
                && Entry(after, name) == Some(RestoredEntry(Entry(before, name), items[name], name)))
            || (!ok && Entry(after, name) == Entry(before, name)))
  }

  function Entry(t: Tree, name: string): Option<Node> {
    if name in t then Some(t[name]) else None
  }

  // ---------------------------------------------------------------- what can happen to the directory

  datatype Event = TookBackup(id: string, metaText: string) | TriedRestore(id: string) | CleanedUp | ChangedOutside

  /** One event takes the directory from `before` to `after`. Changes from outside leave the store alone. */
  ghost predicate Happens(e: Event, before: Tree, after: Tree, retention: int) {
    var store := StoreOf(before);
    match e
    case TookBackup(id, metaText) =>
      after == before[STORE := Dir(AfterCleanup(store[id := BackupDir(before, id, metaText)], retention))]
    case TriedRestore(id) =>
      if id in store then exists ok :: Restored(before, store[id], after, ok) else after == before
    case CleanedUp =>
      after == if Broken(store) || Surplus(store, retention) == [] then before else before[STORE := Dir(AfterCleanup(store, retention))]
    case ChangedOutside => StoreOf(after) == store
  }

  /** A directory stands where the metadata file of a backup would be written. */
  predicate MetaBlocked(igris: Tree) {
    META in igris && igris[META].Dir?
  }

  lemma MetaIsCopied()
    ensures !Excluded(META)
  {
    assert META[|META| - 1] == 'n';
  }

  // ---------------------------------------------------------------- the manager

  class BackupManager {
    const retention: int
    var igrisExists: bool
    var igris: Tree

    constructor (retention: int, igrisExists: bool, igris: Tree)
      ensures this.retention == retention && this.igrisExists == igrisExists && this.igris == igris
    {
      this.retention := retention;
      this.igrisExists := igrisExists;
      this.igris := igris;
    }

    /** A missing directory holds nothing, and the store, where there is one, is a directory. */
    predicate Valid()
      reads this
    {
      (!igrisExists ==> igris == map[]) && (STORE in igris ==> igris[STORE].Dir?)
    }

    function Store(): Tree
      reads this
    {
      StoreOf(igris)
    }

    /** `list_backups`; none when it fails. */
    method ListBackups() returns (names: Option<seq<string>>)
      ensures names == if Broken(Store()) then None else Some(Listed(Store()))
    {
      var order := SortedDown(Store().Keys);
      var listed := [];
      assert order[..0] == [];
      for i := 0 to |order|
        invariant listed == Keep(order[..i], Store())
        invariant forall k :: 0 <= k < i && order[k] in Store() ==> !Breaks(Store()[order[k]])
      {
        var name := order[i];
        KeepAppend(order[..i], name, Store());
        assert order[..i + 1] == order[..i] + [name];
        if name in Store() && Store()[name].Dir? {
          var item := Store()[name].entries;
          if META !in item {
            listed := listed + [name];
          } else if item[META].File? {
            if item[META].parsed.Uncaught? {
              return None;
            }
            if item[META].parsed.Readable? {
              listed := listed + [name];
            }
          }
        }
      }
      assert order[..|order|] == order;
      SoundIfListed(Store(), order);
      return Some(listed);
    }

    /** `cleanup`; none when the listing fails. */
    method Cleanup() returns (removed: Option<nat>)
      requires Valid()
      modifies this`igris
      ensures removed == if Broken(old(Store())) then None else Some(|Surplus(old(Store()), retention)|)
      ensures Happens(CleanedUp, old(igris), igris, retention)
      ensures igris == if removed.None? || removed.value == 0 then old(igris)
                       else old(igris)[STORE := Dir(AfterCleanup(old(Store()), retention))]
    {
      hide SortedDown, Keep, IsBackup, Broken;
      var backups := ListBackups();
      if backups.None? {
        return None;
      }
      if |backups.value| <= retention {
        return Some(0);
      }
      var surplus := SliceFrom(backups.value, retention);
      var store := Store();
      var count := 0;
      for i := 0 to |surplus|
        invariant count == i
        invariant store == map id | id in old(Store()) && id !in surplus[..i] :: old(Store())[id]
      {
        assert surplus[..i + 1] == surplus[..i] + [surplus[i]];
        store := store - {surplus[i]};
        count := count + 1;
      }
      assert surplus[..|surplus|] == surplus;
      if count > 0 {
        igris := igris[STORE := Dir(store)];
      }
      return Some(count);
    }

    /** `backup`; the id and the metadata text come from the clock. It fails without a directory, when the metadata
        cannot be written, and when the listing for the cleanup fails; then the store is as it was. */
    method MakeBackup(id: string, metaText: string) returns (info: BackupInfo)
      requires Valid() && id !in Store()
      modifies this`igris
      ensures Valid() && igrisExists == old(igrisExists)
      ensures !igrisExists ==> igris == old(igris) && info == BackupInfo("", 0, 0, false)
      ensures igrisExists && (MetaBlocked(old(igris)) || Broken(old(Store()))) ==>
                igris == old(igris)[STORE := Dir(old(Store()))] && info == BackupInfo(id, 0, 0, false)
      ensures igrisExists && !MetaBlocked(old(igris)) && !Broken(old(Store())) ==>
                && info.ok && info.backupId == id
                && Tally(info.fileCount, info.sizeBytes) == Totals(Filtered(Dir(old(igris))))
                && Happens(TookBackup(id, metaText), old(igris), igris, retention)
      ensures !info.ok ==> Happens(ChangedOutside, old(igris), igris, retention)
    {
      hide SortedDown, Keep, IsBackup, Excluded, Filtered, Totals, Surplus, Broken;
      if !igrisExists {
        return BackupInfo("", 0, 0, false);
      }
      var before := Store();
      var copy, fileCount, totalSize := CopyTree(Dir(igris));
      MetaIsCopied();
      FilteredEntries(Dir(igris));
      if META in copy && copy[META].Dir? {
        igris := igris[STORE := Dir(before)];
        return BackupInfo(id, 0, 0, false);
      }
      copy := copy[META := File(metaText, Readable(Meta(id, totalSize, fileCount)))];
      ghost var store := before[id := BackupDir(igris, id, metaText)];
      igris := igris[STORE := Dir(before[id := Dir(copy)])];
      assert Store() == store;
      NewBreaksNothing(before, id, store[id]);
      var removed := Cleanup();
      if removed.None? {
        igris := igris[STORE := Dir(before)];
        return BackupInfo(id, 0, 0, false);
      }
      NothingSurplus(store, retention);
      info := BackupInfo(id, totalSize, fileCount, true);
    }

    /** `restore`, entry by entry in any order; it stops at the first entry that something is in the way of. */
    method Restore(id: string) returns (ok: bool)
      requires Valid()
      modifies this
      ensures id !in old(Store()) ==> !ok && igris == old(igris) && igrisExists == old(igrisExists)
      ensures id in old(Store()) ==> igrisExists && Restored(old(igris), old(Store())[id], igris, ok)
      ensures Happens(TriedRestore(id), old(igris), igris, retention)
    {
      if id !in Store() {
        return false;
      }
      igrisExists := true;
      if Store()[id].File? {
        assert Restored(igris, Store()[id], igris, false);
        return false;
      }
      var items := Store()[id].entries;
      var rest := items.Keys;
      while rest != {}
        invariant igrisExists && rest <= items.Keys
        invariant forall name :: name !in items || name == META || name in rest ==> Entry(igris, name) == Entry(old(igris), name)
        invariant forall name :: name in items && name != META && name !in rest ==>
                    && !InTheWay(Entry(old(igris), name), items[name], name)
                    && Entry(igris, name) == Some(RestoredEntry(Entry(old(igris), name), items[name], name))
        decreases rest
      {
        var name :| name in rest;
        if name == META {
          rest := rest - {name};
          continue;
        }
        var item := items[name];
        ghost var previous := igris;
        if InTheWay(Entry(igris, name), item, name) {
          assert Restored(old(igris), old(Store())[id], igris, false);
          return false;
        }
        if item.Dir? {
          if name in igris {
            igris := igris - {name};
          }
          igris := igris[name := item];
        } else if name in igris && igris[name].Dir? {
          igris := igris[name := Dir(igris[name].entries[name := item])];
        } else {
          igris := igris[name := item];
        }
        assert forall other :: other != name ==> Entry(igris, other) == Entry(previous, other);
        rest := rest - {name};
      }
      assert Restored(old(igris), old(Store())[id], igris, true);
      return true;
    }
  }

  lemma {:induction false} KeepAppend(names: seq<string>, name: string, store: Tree)
    ensures Keep(names + [name], store) == Keep(names, store) + if name in store && IsBackup(store[name]) then [name] else []
  {
    if names != [] {
      KeepAppend(names[1..], name, store);
      assert (names + [name])[1..] == names[1..] + [name];
    }
  }

  lemma {:induction false} SortedHasAll(names: set<string>, x: string)
    requires x in names
    ensures x in SortedDown(names)
    decreases |names|
  {
    if x != Greatest(names) {
      SortedHasAll(names - {Greatest(names)}, x);
    }
  }

  lemma SoundIfListed(store: Tree, order: seq<string>)
    requires order == SortedDown(store.Keys)
    requires forall k :: 0 <= k < |order| && order[k] in store ==> !Breaks(store[order[k]])
    ensures !Broken(store)
  {
    hide SortedDown, Breaks;
    forall id | id in store
      ensures !Breaks(store[id])
    {
      SortedHasAll(store.Keys, id);
      var k :| 0 <= k < |order| && order[k] == id;
    }
  }

  lemma NewBreaksNothing(store: Tree, id: string, dir: Node)
    requires id !in store && !Breaks(dir)
    ensures Broken(store[id := dir]) <==> Broken(store)
  {
    hide Breaks;
    var more := store[id := dir];
    if x :| x in store && Breaks(store[x]) {
      assert more[x] == store[x];
    }
  }

  lemma NothingSurplus(store: Tree, retention: int)
    ensures |Surplus(store, retention)| == 0 ==> AfterCleanup(store, retention) == store
  {
  }
}
