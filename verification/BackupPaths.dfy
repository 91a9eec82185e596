/** Backups and restores in terms of the paths of the directory tree: which files a copy has, which ones a restore brings
    back and which ones it loses, and what the listing of the store reads. */
module BackupPaths {
  import opened Text
  import opened Backup
  import opened BackupProofs

  // ---------------------------------------------------------------- copies

  lemma AtBelow(d: Node, name: string, path: seq<string>)
    requires d.Dir? && name in d.entries
    ensures At(d, [name] + path) == At(d.entries[name], path)
  {
    assert ([name] + path)[0] == name && ([name] + path)[1..] == path;
  }

  lemma AtEntry(d: Node, name: string)
    requires d.Dir?
    ensures At(d, [name]) == if name in d.entries then Some(d.entries[name]) else None
  {
    assert [name][1..] == [];
  }

  lemma CopiesBelow(src: Node, copy: Node, name: string)
    requires Copies(src, copy) && src.Dir? && copy.Dir? && name in src.entries && name in copy.entries
    ensures Copies(src.entries[name], copy.entries[name])
  {
    hide Clean;
    assert CopiedAt(src, copy, [name]);
    AtEntry(copy, name);
    forall path: seq<string>
      ensures CopiedAt(src.entries[name], copy.entries[name], path)
    {
      assert CopiedAt(src, copy, [name] + path);
      AtBelow(src, name, path);
      AtBelow(copy, name, path);
      CleanBelow(name, path);
    }
  }

  lemma CleanBelow(name: string, path: seq<string>)
    ensures Clean([name] + path) <==> Clean([name]) && Clean(path)
  {
    hide EndsWith;
    assert forall i :: 0 <= i < |path| ==> path[i] == ([name] + path)[i + 1];
    assert ([name] + path)[0] == name == [name][0];
  }

  /** There is only one copy: what stands at its paths leaves no choice. */
  lemma {:induction false} CopiesUnique(src: Node, a: Node, b: Node)
    requires Copies(src, a) && Copies(src, b)
    ensures a == b
    decreases a
  {
    hide Clean, Copies;
    CopyOfRoot(src, a);
    CopyOfRoot(src, b);
    if src.Dir? {
      forall name
        ensures Entry(a.entries, name) == Entry(b.entries, name)
      {
        SameNames(src, a, b, name);
        if name in a.entries {
          CopiesBelow(src, a, name);
          CopiesBelow(src, b, name);
          CopiesUnique(src.entries[name], a.entries[name], b.entries[name]);
        }
      }
      SameEntries(a.entries, b.entries);
    }
  }

  lemma CopyOfRoot(src: Node, copy: Node)
    requires Copies(src, copy)
    ensures if src.File? then copy == src else copy.Dir?
  {
    assert CopiedAt(src, copy, []);
  }

  lemma SameNames(src: Node, a: Node, b: Node, name: string)
    requires src.Dir? && a.Dir? && b.Dir? && Copies(src, a) && Copies(src, b)
    ensures (name in a.entries <==> name in b.entries) && (name in a.entries ==> name in src.entries)
  {
    hide Clean;
    assert CopiedAt(src, a, [name]) && CopiedAt(src, b, [name]);
    AtEntry(src, name);
    AtEntry(a, name);
    AtEntry(b, name);
  }

  /** A file is in the snapshot, with its content, exactly when it is in the directory and no name on its path is left
      out. */
  lemma SnapshotFiles(igris: Tree, path: seq<string>, f: Node)
    requires f.File?
    ensures At(Dir(Snapshot(igris)), path) == Some(f) <==>
            && At(Dir(igris), path) == Some(f)
            && forall i :: 0 <= i < |path| ==>
                 && path[i] != "__pycache__" && path[i] != ".tmp" && path[i] != "checkpoints" && path[i] != "backups"
                 && !EndsWith(path[i], ".lock") && !EndsWith(path[i], ".log") && !EndsWith(path[i], ".pid")
  {
    hide At, EndsWith;
    FilteredAt(Dir(igris), path);
    assert Dir(Snapshot(igris)) == Filtered(Dir(igris));
  }

  // ---------------------------------------------------------------- restores

  lemma EntryAt(t: Tree, path: seq<string>)
    requires path != []
    ensures At(Dir(t), path) == if Entry(t, path[0]).Some? then At(Entry(t, path[0]).value, path[1..]) else None
  {
  }

  /** When every entry of the snapshot is back, every file that stood at a clean path is back with its content; and below
      a directory that is back, there is nothing else. */
  lemma PathsAreBack(taken: Tree, after: Tree, path: seq<string>)
    requires BringsBack(after, Snapshot(taken)) && path != [] && path[0] != "_backup_meta.json"
    ensures Clean(path) && At(Dir(taken), path).Some? && At(Dir(taken), path).value.File? ==>
              At(Dir(after), path) == At(Dir(taken), path)
    ensures At(Dir(after), path).Some? && path[0] in Snapshot(taken) ==> Clean(path) && At(Dir(taken), path).Some?
  {
    hide At, Clean, Filtered;
    var all := Filtered(Dir(taken));
    assert Dir(Snapshot(taken)) == all;
    FilteredAt(Dir(taken), path);
    EntryAt(after, path);
    EntryAt(Snapshot(taken), path);
    assert path[0] in Snapshot(taken) ==> Entry(after, path[0]) == Entry(Snapshot(taken), path[0]);
  }

  /** Over every run of the manager: restoring one of the last backups over a directory whose entries kept their kinds
      brings back every file that stood at a clean path when the backup was taken, with its content then, and leaves
      nothing else below the directories it restores; a log, a lock or a pid file there is lost. */
  lemma FilesAfterRun(states: seq<Tree>, events: seq<Event>, retention: int, i: nat, after: Tree, ok: bool,
                      path: seq<string>)
    requires IsRun(states, events, retention) && retention >= 1 && Increasing(BackupIds(events))
    requires i < |events| && events[i].TookBackup?
    requires |BackupIds(events[..i])| + retention >= |BackupIds(events)|
    requires path != [] && path[0] != "_backup_meta.json" && SameKinds(states[|events|], Snapshot(states[i]))
    ensures var now, taken, id := states[|events|], states[i], events[i].id;
            && id in StoreOf(now)
            && (Restored(now, StoreOf(now)[id], after, ok) ==>
                  && ok
                  && (Clean(path) && At(Dir(taken), path).Some? && At(Dir(taken), path).value.File? ==>
                        At(Dir(after), path) == At(Dir(taken), path))
                  && (At(Dir(after), path).Some? && path[0] in Snapshot(taken) ==>
                        Clean(path) && At(Dir(taken), path).Some?))
  {
    hide IsRun, Increasing, StoreOf, Restored, BringsBack, SameKinds, Snapshot, At, Clean, BackupIds;
    RunLength(states, events, retention);
    RestoreAfterRun(states, events, retention, i, after, ok);
    if Restored(states[|events|], StoreOf(states[|events|])[events[i].id], after, ok) {
      PathsAreBack(states[i], after, path);
    }
  }

  // ---------------------------------------------------------------- names, metadata and the listing

  /** The order of the listing is the lexicographic one: at the first place where two names differ the smaller
      character decides, and a name comes before its continuations. */
  lemma {:induction false} LessMeans(a: string, b: string)
    ensures Less(a, b) <==> exists k :: 0 <= k <= |a| && k < |b| && a[..k] == b[..k] && (k == |a| || a[k] < b[k])
  {
    if Less(a, b) && a != "" && a[0] == b[0] {
      LessMeans(a[1..], b[1..]);
      var k :| 0 <= k <= |a[1..]| && k < |b[1..]| && a[1..][..k] == b[1..][..k] && (k == |a[1..]| || a[1..][k] < b[1..][k]);
      assert a[..k + 1] == [a[0]] + a[1..][..k] && b[..k + 1] == [b[0]] + b[1..][..k];
      assert 0 <= k + 1 <= |a|;
    } else if Less(a, b) {
      assert a[..0] == b[..0];
    }
    if k :| 0 <= k <= |a| && k < |b| && a[..k] == b[..k] && (k == |a| || a[k] < b[k]) {
      if k > 0 {
        LessMeans(a[1..], b[1..]);
        assert a[..k][0] == a[0] && b[..k][0] == b[0];
        assert a[..k][1..] == a[1..][..k - 1] && b[..k][1..] == b[1..][..k - 1];
        assert 0 <= k - 1 <= |a[1..]|;
      }
    }
  }

  lemma {:induction false} KeepMeans(names: seq<string>, store: Tree, x: string)
    ensures x in Keep(names, store) <==> x in names && x in store && IsBackup(store[x])
  {
    hide IsBackup;
    if names != [] {
      KeepMeans(names[1..], store, x);
    }
  }

  /** Listed are the directories of the store whose metadata, if there is any, can be read. */
  lemma ListedMeans(store: Tree, id: string)
    ensures id in Listed(store) <==>
            && id in store && store[id].Dir?
            && ("_backup_meta.json" in store[id].entries ==>
                  && store[id].entries["_backup_meta.json"].File?
                  && store[id].entries["_backup_meta.json"].parsed.Readable?)
  {
    hide SortedDown, Keep;
    SortedMembers(store.Keys, id);
    KeepMeans(SortedDown(store.Keys), store, id);
  }

  /** A backup holds the snapshot and, beside it, its id and the totals of the files and their sizes. */
  lemma BackupMetadata(igris: Tree, id: string, metaText: string)
    ensures var d, t := BackupDir(igris, id, metaText), Totals(Dir(Snapshot(igris)));
            && d.Dir? && "_backup_meta.json" in d.entries
            && d.entries["_backup_meta.json"] == File(metaText, Readable(Meta(id, t.bytes, t.files)))
            && forall name :: name != "_backup_meta.json" ==> Entry(d.entries, name) == Entry(Snapshot(igris), name)
  {
    hide Totals;
    assert Dir(Snapshot(igris)) == Filtered(Dir(igris));
  }
}
