/** What backup, restore and cleanup guarantee together: the round trip through the store, and the retention queue
    over every run. */
module BackupProofs {
  import opened Text
  import opened Backup

  // ---------------------------------------------------------------- round trip

  /** The recursively filtered directory. */
  function Snapshot(igris: Tree): Tree {
    Filtered(Dir(igris)).entries
  }

  /** Every entry of the snapshot that is still there is still a directory, or still a file. */
  predicate SameKinds(now: Tree, snapshot: Tree) {
    forall name :: name in snapshot && name != META && name in now ==> now[name].Dir? == snapshot[name].Dir?
  }

  /** Every entry of the snapshot is back. */
  predicate BringsBack(after: Tree, snapshot: Tree) {
    forall name :: name in snapshot && name != META ==> Entry(after, name) == Some(snapshot[name])
  }

  lemma BackupHolds(igris: Tree, id: string, metaText: string)
    ensures var d := BackupDir(igris, id, metaText);
            && d.Dir? && IsBackup(d)
            && d.entries.Keys == Snapshot(igris).Keys + {META}
            && forall name :: name in Snapshot(igris) && name != META ==> d.entries[name] == Snapshot(igris)[name]
  {
    hide Filtered;
  }

  /** The backup restores exactly the snapshot taken, whatever happened to the directory in between, if and only
      if every entry kept its kind. Entries outside the snapshot, the store among them, stay as they are. */
  lemma BackupRestoreRoundTrip(taken: Tree, id: string, metaText: string, now: Tree, after: Tree, ok: bool)
    requires Restored(now, BackupDir(taken, id, metaText), after, ok)
    ensures ok && BringsBack(after, Snapshot(taken)) <==> SameKinds(now, Snapshot(taken))
    ensures forall name :: name !in Snapshot(taken) || name == META ==> Entry(after, name) == Entry(now, name)
    ensures Entry(after, STORE) == Entry(now, STORE) && StoreOf(after) == StoreOf(now)
  {
    hide Filtered;
    var snapshot := Snapshot(taken);
    var items := BackupDir(taken, id, metaText).entries;
    BackupHolds(taken, id, metaText);
    StoreNotInSnapshot(taken);
    if SameKinds(now, snapshot) {
      forall name | name in items && name != META
        ensures !InTheWay(Entry(now, name), items[name], name)
        ensures RestoredEntry(Entry(now, name), items[name], name) == snapshot[name]
      {
        assert items[name] == snapshot[name];
      }
    } else {
      var name :| name in snapshot && name != META && name in now && now[name].Dir? != snapshot[name].Dir?;
      KindClash(now, items[name], name);
      assert ok ==> Entry(after, name) == Some(RestoredEntry(Entry(now, name), items[name], name));
    }
  }

  lemma KindClash(now: Tree, item: Node, name: string)
    requires name in now && now[name].Dir? != item.Dir?
    ensures InTheWay(Entry(now, name), item, name) || RestoredEntry(Entry(now, name), item, name) != item
  {
  }

  lemma StoreNotInSnapshot(igris: Tree)
    ensures STORE !in Snapshot(igris)
  {
    hide Filtered;
    FilteredEntries(Dir(igris));
    assert Excluded(STORE);
  }

  /** No entry that a backup would take came up since. */
  predicate NothingNew(now: Tree, taken: Tree) {
    forall name :: name in now && !Excluded(name) ==> name in taken
  }

  /** An entry that changed its kind is not brought back to the kind it had. */
  lemma KindStays(taken: Tree, id: string, metaText: string, now: Tree, after: Tree, ok: bool, name: string)
    requires Restored(now, BackupDir(taken, id, metaText), after, ok)
    requires name in Snapshot(taken) && name != META && name in now && now[name].Dir? != Snapshot(taken)[name].Dir?
    ensures name in after && after[name].Dir? != Snapshot(taken)[name].Dir?
  {
    hide Filtered;
    BackupHolds(taken, id, metaText);
    var items := BackupDir(taken, id, metaText).entries;
    assert items[name] == Snapshot(taken)[name];
    assert InTheWay(Entry(now, name), items[name], name) ==> !ok;
  }

  /** Backing up again after a restore gives the same tree exactly when every entry kept its kind and no new entry
      came up in between. */
  lemma BackupAgain(taken: Tree, id: string, metaText: string, now: Tree, after: Tree, ok: bool)
    requires Restored(now, BackupDir(taken, id, metaText), after, ok) && META !in taken
    ensures Snapshot(after) == Snapshot(taken) <==> SameKinds(now, Snapshot(taken)) && NothingNew(now, taken)
  {
    hide Filtered, Excluded, BringsBack, Restored, BackupDir;
    BackupRestoreRoundTrip(taken, id, metaText, now, after, ok);
    FilteredEntries(Dir(taken));
    FilteredEntries(Dir(after));
    if !SameKinds(now, Snapshot(taken)) {
      var name :| name in Snapshot(taken) && name != META && name in now && now[name].Dir? != Snapshot(taken)[name].Dir?;
      KindStays(taken, id, metaText, now, after, ok, name);
      assert Filtered(after[name]) == Snapshot(after)[name];
    } else if !NothingNew(now, taken) {
      var name :| name in now && !Excluded(name) && name !in taken;
      assert Entry(after, name) == Entry(now, name);
      assert name in Snapshot(after);
    } else {
      SameSnapshot(taken, now, after);
    }
  }

  lemma SameSnapshot(taken: Tree, now: Tree, after: Tree)
    requires BringsBack(after, Snapshot(taken)) && NothingNew(now, taken) && META !in taken
    requires forall name :: name !in Snapshot(taken) || name == META ==> Entry(after, name) == Entry(now, name)
    ensures Snapshot(after) == Snapshot(taken)
  {
    hide Filtered, Excluded;
    FilteredEntries(Dir(taken));
    FilteredEntries(Dir(after));
    forall name
      ensures Entry(Snapshot(after), name) == Entry(Snapshot(taken), name)
    {
      if name in Snapshot(taken) {
        FilteredTwice(taken[name]);
        assert Entry(after, name) == Some(Snapshot(taken)[name]);
      } else {
        assert Entry(after, name) == Entry(now, name);
      }
    }
    SameEntries(Snapshot(after), Snapshot(taken));
  }

  lemma SameEntries(a: Tree, b: Tree)
    requires forall name :: Entry(a, name) == Entry(b, name)
    ensures a == b
  {
    forall name
      ensures name in a <==> name in b
      ensures name in a ==> a[name] == b[name]
    {
      assert Entry(a, name) == Entry(b, name);
    }
  }

  // ---------------------------------------------------------------- names in order

  function Elements(s: seq<string>): set<string> {
    set x | x in s
  }

  /** Strictly increasing names. */
  predicate Increasing(ids: seq<string>) {
    forall i, j :: 0 <= i < j < |ids| ==> Less(ids[i], ids[j])
  }

  function Reverse(s: seq<string>): (r: seq<string>)
    ensures |r| == |s|
  {
    if s == [] then [] else [s[|s| - 1]] + Reverse(s[..|s| - 1])
  }

  lemma {:induction false} ReverseAt(s: seq<string>, i: nat)
    requires i < |s|
    ensures Reverse(s)[i] == s[|s| - 1 - i]
  {
    if i > 0 {
      ReverseAt(s[..|s| - 1], i - 1);
    }
  }

  lemma LastIsGreatest(ids: seq<string>)
    requires ids != [] && Increasing(ids)
    ensures IsGreatest(ids[|ids| - 1], Elements(ids))
    ensures Elements(ids) - {ids[|ids| - 1]} == Elements(ids[..|ids| - 1])
  {
    var init, last := ids[..|ids| - 1], ids[|ids| - 1];
    assert ids == init + [last];
    LessAsymmetric(last, last);
    forall i | 0 <= i < |init|
      ensures init[i] != last
    {
      assert Less(ids[i], ids[|ids| - 1]);
    }
  }

  lemma {:induction false} SortedIncreasing(ids: seq<string>)
    requires Increasing(ids)
    ensures SortedDown(Elements(ids)) == Reverse(ids)
  {
    hide Less;
    if ids != [] {
      var last := ids[|ids| - 1];
      LastIsGreatest(ids);
      GreatestUnique(Elements(ids), last, Greatest(Elements(ids)));
      SortedIncreasing(ids[..|ids| - 1]);
    }
  }

  lemma {:induction false} KeepAll(names: seq<string>, store: Tree)
    requires forall i :: 0 <= i < |names| ==> names[i] in store && IsBackup(store[names[i]])
    ensures Keep(names, store) == names
  {
    hide IsBackup;
    if names != [] {
      KeepAll(names[1..], store);
    }
  }

  // ---------------------------------------------------------------- the retention queue

  function LastOf(ids: seq<string>, n: nat): seq<string> {
    if |ids| <= n then ids else ids[|ids| - n..]
  }

  /** The store holds exactly these backups. */
  predicate Holds(store: Tree, ids: seq<string>) {
    store.Keys == Elements(ids) && forall id :: id in store ==> IsBackup(store[id])
  }

  lemma ListedNewestFirst(store: Tree, ids: seq<string>)
    requires Holds(store, ids) && Increasing(ids)
    ensures Listed(store) == Reverse(ids)
  {
    hide IsBackup, Less, Reverse;
    SortedIncreasing(ids);
    forall i | 0 <= i < |ids|
      ensures Reverse(ids)[i] in store
    {
      ReverseAt(ids, i);
      assert ids[|ids| - 1 - i] in Elements(ids);
    }
    KeepAll(Reverse(ids), store);
  }

  /** Cleaning up keeps the newest backups, as many as the retention allows. */
  lemma CleanupKeepsNewest(store: Tree, ids: seq<string>, retention: int)
    requires Holds(store, ids) && Increasing(ids) && retention >= 0
    ensures Holds(AfterCleanup(store, retention), LastOf(ids, retention))
  {
    hide IsBackup, Less, Listed, Increasing;
    ListedNewestFirst(store, ids);
    var surplus, kept := Surplus(store, retention), LastOf(ids, retention);
    SplitQueue(ids, retention, surplus);
    forall id
      ensures id in AfterCleanup(store, retention) <==> id in kept
    {
      assert id in store <==> id in ids;
    }
  }

  lemma TailMember(s: seq<string>, k: nat, i: nat)
    requires k <= i < |s|
    ensures s[|s| - 1 - i] in s[..|s| - k] && Reverse(s)[i] == s[|s| - 1 - i]
  {
    hide Reverse;
    ReverseAt(s, i);
    assert s[..|s| - k][|s| - 1 - i] == s[|s| - 1 - i];
  }

  lemma HeadMember(s: seq<string>, k: nat, j: nat)
    requires k <= |s| && j < |s| - k
    ensures s[j] in Reverse(s)[k..]
  {
    hide Reverse;
    ReverseAt(s, |s| - 1 - j);
    assert Reverse(s)[k..][|s| - 1 - j - k] == s[j];
  }

  /** What comes last in the reversed list came first in the list. */
  lemma ReverseTail(s: seq<string>, k: nat, x: string)
    requires k <= |s|
    ensures x in Reverse(s)[k..] <==> x in s[..|s| - k]
  {
    hide Reverse;
    if x in Reverse(s)[k..] {
      var i :| k <= i < |s| && Reverse(s)[i] == x;
      TailMember(s, k, i);
    }
    if x in s[..|s| - k] {
      var j :| 0 <= j < |s| - k && s[j] == x;
      HeadMember(s, k, j);
    }
  }

  lemma IncreasingApart(a: seq<string>, b: seq<string>, x: string)
    requires Increasing(a + b)
    ensures !(x in a && x in b)
  {
    hide Less;
    if x in a && x in b {
      var i :| 0 <= i < |a| && a[i] == x;
      var j :| 0 <= j < |b| && b[j] == x;
      var s := a + b;
      assert s[i] == x && s[|a| + j] == x;
      LessAsymmetric(s[i], s[|a| + j]);
    }
  }

  /** The surplus and the kept ids share out the queue. */
  lemma SplitQueue(ids: seq<string>, retention: int, surplus: seq<string>)
    requires Increasing(ids) && retention >= 0
    requires surplus == if |Reverse(ids)| <= retention then [] else SliceFrom(Reverse(ids), retention)
    ensures forall id :: id in LastOf(ids, retention) <==> id in ids && id !in surplus
  {
    hide Less, Increasing, Reverse;
    var kept := LastOf(ids, retention);
    var dropped := ids[..|ids| - |kept|];
    assert ids == dropped + kept;
    forall id
      ensures id in kept <==> id in ids && id !in surplus
    {
      if |ids| > retention {
        ReverseTail(ids, retention, id);
      }
      IncreasingApart(dropped, kept, id);
    }
  }

  /** Operations as the store sees them: a restore, and any change outside the store, leave it alone. */
  datatype Op = TakeBackup(id: string, dir: Node) | CleanUp | OutsideStore

  function Ids(ops: seq<Op>): seq<string> {
    if ops == [] then []
    else Ids(ops[..|ops| - 1]) + if ops[|ops| - 1].TakeBackup? then [ops[|ops| - 1].id] else []
  }

  function StoreAfter(store: Tree, op: Op, retention: int): Tree {
    match op
    case TakeBackup(id, dir) => AfterCleanup(store[id := dir], retention)
    case CleanUp => AfterCleanup(store, retention)
    case OutsideStore => store
  }

  function RunStore(ops: seq<Op>, retention: int): Tree {
    if ops == [] then map[] else StoreAfter(RunStore(ops[..|ops| - 1], retention), ops[|ops| - 1], retention)
  }

  lemma LastOfLonger(ids: seq<string>, id: string, n: nat)
    requires n >= 1
    ensures LastOf(LastOf(ids, n) + [id], n) == LastOf(ids + [id], n)
    ensures LastOf(LastOf(ids, n), n) == LastOf(ids, n)
  {
  }

  lemma IncreasingPart(ids: seq<string>, n: nat)
    requires Increasing(ids)
    ensures Increasing(LastOf(ids, n))
  {
  }

  lemma QueueStep(store: Tree, ids: seq<string>, retention: int, id: string, dir: Node)
    requires retention >= 1 && Holds(store, LastOf(ids, retention)) && Increasing(ids + [id]) && IsBackup(dir)
    ensures Holds(AfterCleanup(store[id := dir], retention), LastOf(ids + [id], retention))
  {
    hide IsBackup, Less, AfterCleanup, Increasing, LastOf;
    var queue := LastOf(ids, retention);
    LastOfLonger(ids, id, retention);
    NewInQueue(ids, id, retention);
    assert Elements(queue + [id]) == Elements(queue) + {id};
    CleanupKeepsNewest(store[id := dir], queue + [id], retention);
  }

  lemma IdsPrefix(ops: seq<Op>)
    requires ops != [] && Increasing(Ids(ops))
    ensures Increasing(Ids(ops[..|ops| - 1]))
  {
    hide Less;
    var ids := Ids(ops[..|ops| - 1]);
    assert forall i :: 0 <= i < |ids| ==> Ids(ops)[i] == ids[i];
  }

  /** After every run of backups with increasing ids, restores, cleanups and other changes, the store holds
      exactly the last backups, as many as the retention says. */
  lemma {:induction false} RetentionQueue(ops: seq<Op>, retention: int)
    requires retention >= 1 && Increasing(Ids(ops))
    requires forall i :: 0 <= i < |ops| && ops[i].TakeBackup? ==> IsBackup(ops[i].dir)
    ensures Holds(RunStore(ops, retention), LastOf(Ids(ops), retention))
    decreases |ops|
  {
    hide IsBackup, AfterCleanup, Increasing, LastOf;
    if ops == [] {
      NothingYet(retention);
    } else {
      var init, op := ops[..|ops| - 1], ops[|ops| - 1];
      var store, ids := RunStore(init, retention), Ids(init);
      IdsPrefix(ops);
      RetentionQueue(init, retention);
      IncreasingPart(ids, retention);
      LastOfLonger(ids, "", retention);
      match op {
        case TakeBackup(id, dir) =>
          assert Ids(ops) == ids + [id];
          QueueStep(store, ids, retention, id, dir);
        case CleanUp =>
          assert Ids(ops) == ids + [] == ids;
          CleanupKeepsNewest(store, LastOf(ids, retention), retention);
        case OutsideStore =>
          assert Ids(ops) == ids + [] == ids;
      }
    }
  }

  lemma NothingYet(retention: int)
    requires retention >= 0
    ensures Holds(map[], LastOf([], retention))
  {
  }

  lemma NewInQueue(ids: seq<string>, id: string, n: nat)
    requires Increasing(ids + [id])
    ensures Increasing(LastOf(ids, n) + [id])
  {
    hide Less;
    var all, part := ids + [id], LastOf(ids, n) + [id];
    assert forall i :: 0 <= i < |part| ==> part[i] == all[i + |all| - |part|];
  }

  /** What a backup put into the store is what stays there. */
  lemma {:induction false} RetainedUnchanged(ops: seq<Op>, retention: int, id: string)
    requires id in RunStore(ops, retention)
    ensures exists i :: 0 <= i < |ops| && ops[i] == TakeBackup(id, RunStore(ops, retention)[id])
    decreases |ops|
  {
    hide Surplus;
    var init, op := ops[..|ops| - 1], ops[|ops| - 1];
    if op.TakeBackup? && op.id == id {
      assert ops[|ops| - 1] == TakeBackup(id, RunStore(ops, retention)[id]);
    } else {
      RetainedUnchanged(init, retention, id);
      var i :| 0 <= i < |init| && init[i] == TakeBackup(id, RunStore(init, retention)[id]);
      assert ops[i] == init[i];
    }
  }

  /** Number of backups taken in a run. */
  function Taken(ops: seq<Op>): nat {
    |Ids(ops)|
  }

  lemma {:induction false} IdAt(ops: seq<Op>, i: nat)
    requires i < |ops| && ops[i].TakeBackup?
    ensures Taken(ops[..i]) < Taken(ops) && Ids(ops)[Taken(ops[..i])] == ops[i].id
    decreases |ops|
  {
    if i < |ops| - 1 {
      IdAt(ops[..|ops| - 1], i);
      assert ops[..|ops| - 1][..i] == ops[..i];
    }
  }

  lemma {:induction false} TakenGrows(ops: seq<Op>, i: nat, j: nat)
    requires i < j <= |ops| && ops[i].TakeBackup?
    ensures Taken(ops[..i]) < Taken(ops[..j])
  {
    IdAt(ops[..j], i);
    assert ops[..j][..i] == ops[..i];
  }

  /** With increasing ids every backup of a run has its own id. */
  lemma OneBackupPerId(ops: seq<Op>, i: nat, j: nat)
    requires Increasing(Ids(ops)) && i < j < |ops| && ops[i].TakeBackup? && ops[j].TakeBackup?
    ensures ops[i].id != ops[j].id
  {
    hide Less;
    IdAt(ops, i);
    IdAt(ops, j);
    TakenGrows(ops, i, j);
    var ids := Ids(ops);
    assert Less(ids[Taken(ops[..i])], ids[Taken(ops[..j])]);
    LessAsymmetric(ops[i].id, ops[j].id);
  }

  // ---------------------------------------------------------------- runs of the manager

  /** The directory before every event of a run and after the last one. */
  ghost predicate IsRun(states: seq<Tree>, events: seq<Event>, retention: int) {
    && |states| == |events| + 1
    && StoreOf(states[0]) == map[]
    && forall i :: 0 <= i < |events| ==> Happens(events[i], states[i], states[i + 1], retention)
  }

  /** An event as the store sees it. */
  ghost function OpOf(e: Event, before: Tree): Op {
    match e
    case TookBackup(id, metaText) => TakeBackup(id, BackupDir(before, id, metaText))
    case CleanedUp => CleanUp
    case _ => OutsideStore
  }

  ghost function OpsOf(states: seq<Tree>, events: seq<Event>): (ops: seq<Op>)
    requires |states| >= |events|
    ensures |ops| == |events|
    ensures forall i :: 0 <= i < |events| ==> ops[i] == OpOf(events[i], states[i])
  {
    if events == [] then []
    else OpsOf(states, events[..|events| - 1]) + [OpOf(events[|events| - 1], states[|events| - 1])]
  }

  /** The ids of the backups of a run, in order. */
  function BackupIds(events: seq<Event>): seq<string> {
    if events == [] then []
    else
      BackupIds(events[..|events| - 1])
      + if events[|events| - 1].TookBackup? then [events[|events| - 1].id] else []
  }

  lemma {:induction false} IdsOfRun(states: seq<Tree>, events: seq<Event>)
    requires |states| >= |events|
    ensures Ids(OpsOf(states, events)) == BackupIds(events)
    decreases |events|
  {
    hide OpOf;
    if events != [] {
      var ops := OpsOf(states, events);
      IdsOfRun(states, events[..|events| - 1]);
      assert ops[..|ops| - 1] == OpsOf(states, events[..|events| - 1]);
      KindOfOp(events[|events| - 1], states[|events| - 1]);
    }
  }

  lemma KindOfOp(e: Event, before: Tree)
    ensures OpOf(e, before).TakeBackup? <==> e.TookBackup?
    ensures e.TookBackup? ==> OpOf(e, before).id == e.id && IsBackup(OpOf(e, before).dir)
    ensures e.TookBackup? ==> !Breaks(OpOf(e, before).dir)
    ensures e.TookBackup? ==> OpOf(e, before).dir.Dir? && STORE !in OpOf(e, before).dir.entries
  {
    hide Snapshot, IsBackup, BackupDir;
    if e.TookBackup? {
      BackupHolds(before, e.id, e.metaText);
      BackupIsSound(BackupDir(before, e.id, e.metaText));
      StoreNotInSnapshot(before);
      assert STORE != META;
    }
  }

  lemma BackupIsSound(n: Node)
    requires IsBackup(n)
    ensures !Breaks(n)
  {
  }

  /** Every backup in the store can be listed, and none holds a store itself. */
  predicate SoundStore(store: Tree) {
    forall id :: id in store ==> !Breaks(store[id]) && (store[id].Dir? ==> STORE !in store[id].entries)
  }

  /** So it is with a store that holds only what a run's backups put there. */
  lemma OwnStoreIsSound(states: seq<Tree>, events: seq<Event>, retention: int)
    requires |states| >= |events|
    ensures SoundStore(RunStore(OpsOf(states, events), retention))
  {
    hide OpOf, Breaks, RunStore;
    var ops := OpsOf(states, events);
    var store := RunStore(ops, retention);
    forall id | id in store
      ensures !Breaks(store[id]) && (store[id].Dir? ==> STORE !in store[id].entries)
    {
      RetainedUnchanged(ops, retention, id);
      var i :| 0 <= i < |ops| && ops[i] == TakeBackup(id, store[id]);
      KindOfOp(events[i], states[i]);
    }
  }

  lemma RestoreKeepsStore(before: Tree, item: Node, after: Tree, ok: bool)
    requires Restored(before, item, after, ok) && (item.Dir? ==> STORE !in item.entries)
    ensures StoreOf(after) == StoreOf(before)
  {
    if item.Dir? {
      assert Entry(after, STORE) == Entry(before, STORE);
    }
  }

  lemma NothingToClean(store: Tree, retention: int)
    requires Surplus(store, retention) == []
    ensures AfterCleanup(store, retention) == store
  {
    hide Surplus;
  }

  lemma CleanupStep(before: Tree, after: Tree, retention: int)
    requires Happens(CleanedUp, before, after, retention) && !Broken(StoreOf(before))
    ensures StoreOf(after) == AfterCleanup(StoreOf(before), retention)
  {
    hide AfterCleanup, Surplus, StoreOf, Broken;
    var store := StoreOf(before);
    StoreUpdated(before, AfterCleanup(store, retention));
    if Surplus(store, retention) == [] {
      NothingToClean(store, retention);
    }
  }

  lemma RestoreStep(id: string, before: Tree, after: Tree, retention: int)
    requires Happens(TriedRestore(id), before, after, retention) && SoundStore(StoreOf(before))
    ensures StoreOf(after) == StoreOf(before)
  {
    hide Restored, StoreOf, Breaks;
    var store := StoreOf(before);
    if id in store {
      var ok :| Restored(before, store[id], after, ok);
      RestoreKeepsStore(before, store[id], after, ok);
    }
  }

  lemma SoundIsNotBroken(store: Tree)
    requires SoundStore(store)
    ensures !Broken(store)
  {
    hide Breaks;
  }

  /** One event changes the store as its operation says; a restore does not touch it. */
  lemma StoreStep(e: Event, before: Tree, after: Tree, retention: int)
    requires Happens(e, before, after, retention) && SoundStore(StoreOf(before))
    ensures StoreOf(after) == StoreAfter(StoreOf(before), OpOf(e, before), retention)
  {
    hide AfterCleanup, BackupDir, StoreOf, SoundStore;
    match e {
      case TookBackup(id, metaText) =>
        StoreUpdated(before, AfterCleanup(StoreOf(before)[id := BackupDir(before, id, metaText)], retention));
      case CleanedUp =>
        SoundIsNotBroken(StoreOf(before));
        CleanupStep(before, after, retention);
      case ChangedOutside =>
      case TriedRestore(id) =>
        RestoreStep(id, before, after, retention);
    }
  }

  /** The store follows the queue: restores do not touch it, because no backup holds the store. */
  lemma {:induction false} StoreOfRun(states: seq<Tree>, events: seq<Event>, retention: int)
    requires IsRun(states, events, retention)
    ensures StoreOf(states[|events|]) == RunStore(OpsOf(states, events), retention)
    decreases |events|
  {
    hide StoreAfter, OpOf, StoreOf, Happens, SoundStore;
    if events != [] {
      var n := |events| - 1;
      var ops := OpsOf(states, events);
      assert ops[..n] == OpsOf(states, events[..n]);
      SameOps(states[..n + 1], states, events[..n]);
      StoreOfRun(states[..n + 1], events[..n], retention);
      OwnStoreIsSound(states, events[..n], retention);
      StoreStep(events[n], states[n], states[n + 1], retention);
    }
  }

  lemma StoreUpdated(igris: Tree, store: Tree)
    ensures StoreOf(igris[STORE := Dir(store)]) == store
  {
  }

  lemma {:induction false} SameOps(a: seq<Tree>, b: seq<Tree>, events: seq<Event>)
    requires |a| >= |events| && |b| >= |events| && a[..|events|] == b[..|events|]
    ensures OpsOf(a, events) == OpsOf(b, events)
  {
    hide OpOf;
    forall i | 0 <= i < |events|
      ensures OpsOf(a, events)[i] == OpsOf(b, events)[i]
    {
      assert a[..|events|][i] == b[..|events|][i];
    }
  }

  lemma RunTakesBackups(states: seq<Tree>, events: seq<Event>)
    requires |states| >= |events|
    ensures forall i :: 0 <= i < |events| && OpsOf(states, events)[i].TakeBackup? ==> IsBackup(OpsOf(states, events)[i].dir)
  {
    hide OpOf, IsBackup;
    forall i | 0 <= i < |events| && OpsOf(states, events)[i].TakeBackup?
      ensures IsBackup(OpsOf(states, events)[i].dir)
    {
      KindOfOp(events[i], states[i]);
    }
  }

  /** After every run of the manager from an empty store - backups with increasing ids, restores, cleanups and changes
      outside the store - the store holds exactly the last backups, as many as the retention says. */
  lemma RunKeepsNewest(states: seq<Tree>, events: seq<Event>, retention: int)
    requires IsRun(states, events, retention) && retention >= 1 && Increasing(BackupIds(events))
    ensures Holds(StoreOf(states[|events|]), LastOf(BackupIds(events), retention))
  {
    hide IsRun, Holds, Increasing, LastOf, IsBackup, StoreOf;
    assert |states| == |events| + 1 by {
      RunLength(states, events, retention);
    }
    StoreOfRun(states, events, retention);
    IdsOfRun(states, events);
    RunTakesBackups(states, events);
    RetentionQueue(OpsOf(states, events), retention);
  }

  lemma RunLength(states: seq<Tree>, events: seq<Event>, retention: int)
    requires IsRun(states, events, retention)
    ensures |states| == |events| + 1
  {
  }

  /** What the store holds under an id is the snapshot that the backup of that id took. */
  lemma StoredDir(ops: seq<Op>, retention: int, i: nat)
    requires retention >= 1 && Increasing(Ids(ops)) && i < |ops| && ops[i].TakeBackup?
    requires forall k :: 0 <= k < |ops| && ops[k].TakeBackup? ==> IsBackup(ops[k].dir)
    requires Taken(ops[..i]) + retention >= Taken(ops)
    ensures ops[i].id in RunStore(ops, retention) && RunStore(ops, retention)[ops[i].id] == ops[i].dir
  {
    hide IsBackup, Increasing, Less, RunStore;
    var id, store := ops[i].id, RunStore(ops, retention);
    RetentionQueue(ops, retention);
    IdAt(ops, i);
    var kept := LastOf(Ids(ops), retention);
    assert kept[Taken(ops[..i]) - (Taken(ops) - |kept|)] == id;
    assert id in Elements(kept);
    RetainedUnchanged(ops, retention, id);
    var j :| 0 <= j < |ops| && ops[j] == TakeBackup(id, store[id]);
    if i < j {
      OneBackupPerId(ops, i, j);
    }
    if j < i {
      OneBackupPerId(ops, j, i);
    }
  }

  /** The round trip over a whole run of the manager: any of the last backups, as many as the retention says, is still
      in the store, and restoring it brings back exactly the snapshot of the directory as it was when that backup was
      taken, if and only if every entry of that snapshot has kept its kind. */
  lemma RestoreAfterRun(states: seq<Tree>, events: seq<Event>, retention: int, i: nat, after: Tree, ok: bool)
    requires IsRun(states, events, retention) && retention >= 1 && Increasing(BackupIds(events))
    requires i < |events| && events[i].TookBackup?
    requires |BackupIds(events[..i])| + retention >= |BackupIds(events)|
    ensures var now, taken, id := states[|events|], states[i], events[i].id;
            && id in StoreOf(now)
            && (Restored(now, StoreOf(now)[id], after, ok) ==>
                  (ok && BringsBack(after, Snapshot(taken)) <==> SameKinds(now, Snapshot(taken))))
  {
    hide IsRun, Increasing, LastOf, IsBackup, StoreOf, Restored, BringsBack, SameKinds, Snapshot, RunStore, BackupDir;
    RunLength(states, events, retention);
    var ops, now, id := OpsOf(states, events), states[|events|], events[i].id;
    StoreOfRun(states, events, retention);
    IdsOfRun(states, events);
    IdsOfRun(states, events[..i]);
    assert ops[..i] == OpsOf(states, events[..i]);
    RunTakesBackups(states, events);
    StoredDir(ops, retention, i);
    if Restored(now, StoreOf(now)[id], after, ok) {
      BackupRestoreRoundTrip(states[i], id, events[i].metaText, now, after, ok);
    }
  }

  // ---------------------------------------------------------------- a backup and its own cleanup

  lemma {:induction false} SortedMembers(names: set<string>, x: string)
    ensures x in SortedDown(names) <==> x in names
    decreases |names|
  {
    if names != {} {
      SortedMembers(names - {Greatest(names)}, x);
    }
  }

  lemma {:induction false} KeepMembers(names: seq<string>, store: Tree, x: string)
    requires x in Keep(names, store)
    ensures x in names
  {
    hide IsBackup;
    if x in Keep(names[1..], store) {
      KeepMembers(names[1..], store, x);
    }
  }

  /** The newest backup is listed first and only once. */
  lemma NewestListedFirst(store: Tree, id: string)
    requires IsGreatest(id, store.Keys) && IsBackup(store[id])
    ensures Listed(store) != [] && Listed(store)[0] == id && id !in Listed(store)[1..]
  {
    hide IsBackup, Less;
    GreatestUnique(store.Keys, id, Greatest(store.Keys));
    var rest := SortedDown(store.Keys - {id});
    assert SortedDown(store.Keys) == [id] + rest;
    assert Keep([id] + rest, store) == [id] + Keep(rest, store) by { assert ([id] + rest)[1..] == rest; }
    SortedMembers(store.Keys - {id}, id);
    if id in Keep(rest, store) {
      KeepMembers(rest, store, id);
    }
  }

  /** A new backup survives its own cleanup exactly when the retention is positive, or negative with more backups
      present than its amount; a retention of zero removes it at once. */
  lemma NewBackupSurvives(store: Tree, id: string, retention: int)
    requires IsGreatest(id, store.Keys) && IsBackup(store[id])
    ensures id in AfterCleanup(store, retention) <==> retention >= 1 || (retention < 0 && -retention < |Listed(store)|)
  {
    hide IsBackup, Less, Listed;
    NewestListedFirst(store, id);
    var listed := Listed(store);
    assert listed == [id] + listed[1..];
    assert forall k :: 0 < k <= |listed| ==> listed[k..] == listed[1..][k - 1..];
  }
}
