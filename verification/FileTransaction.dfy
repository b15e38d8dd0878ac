/** Replacing files one after the other, with a log that can take every replacement back. */
module FileTransaction {
  import opened Base

  datatype File = File(regular: bool, data: string, mode: nat, owner: int)

  type Files = map<string, File>

  /** A file to be put in place. */
  datatype Item = Item(path: string, data: string, mode: nat)

  /** Who owns what is installed (no one in particular if negative), who runs the installer, and its backup suffix. */
  datatype Owner = Owner(uid: int, installer: int, suffix: string)

  datatype Replacement = Replacement(path: string, backup: string, hadBackup: bool)

  // ---- What a replacement amounts to -----------------------------------------------------------------------------

  function BackupOf(path: string, o: Owner): string {
    path + o.suffix
  }

  /** Nothing has to be done for an item. */
  predicate Matches(files: Files, item: Item, o: Owner) {
    && item.path in files && files[item.path].regular && files[item.path].data == item.data
    && files[item.path].mode == item.mode && (o.uid < 0 || files[item.path].owner == o.uid)
  }

  /** The file an item becomes. */
  function FileOf(item: Item, o: Owner): File {
    File(true, item.data, item.mode, if o.uid < 0 then o.installer else o.uid)
  }

  function ReplacementOf(files: Files, item: Item, o: Owner): Replacement {
    if item.path in files then Replacement(item.path, BackupOf(item.path, o), true)
    else Replacement(item.path, "", false)
  }

  /** The files after a replacement, the backup included. */
  function Replaced(files: Files, item: Item, o: Owner): Files {
    if item.path in files then files[BackupOf(item.path, o) := files[item.path]][item.path := FileOf(item, o)]
    else files[item.path := FileOf(item, o)]
  }

  /** A replacement is out of the question: something else stands there, or a backup of the name already exists. */
  predicate Refused(files: Files, item: Item, o: Owner) {
    && !Matches(files, item, o) && item.path in files
    && (!files[item.path].regular || BackupOf(item.path, o) in files)
  }

  function UndoOne(files: Files, r: Replacement): Files {
    var cleared := files - {r.path};
    if r.hadBackup && r.backup in cleared then (cleared - {r.backup})[r.path := cleared[r.backup]] else cleared
  }

  /** Taking back a log, the last replacement first. */
  function UndoAll(files: Files, log: seq<Replacement>): Files
    decreases |log|
  {
    if log == [] then files else UndoAll(UndoOne(files, log[|log| - 1]), log[..|log| - 1])
  }

  /** Undoing a replacement brings back exactly the files before it. */
  lemma UndoRestores(files: Files, item: Item, o: Owner)
    requires o.suffix != "" && (item.path in files ==> BackupOf(item.path, o) !in files)
    ensures UndoOne(Replaced(files, item, o), ReplacementOf(files, item, o)) == files
  {
    assert |BackupOf(item.path, o)| > |item.path|;
  }

  /** Undoing a longer log first takes back its last step. */
  lemma LastIsUndoneFirst(files: Files, log: seq<Replacement>, r: Replacement)
    ensures UndoAll(files, log + [r]) == UndoAll(UndoOne(files, r), log)
  {
    assert (log + [r])[..|log|] == log;
  }

  // ---- The machine's files ---------------------------------------------------------------------------------------

  /**
   The files of the machine. If `cleansUp`, the calls that take something back do not fail; if `reliable`, no call
   fails but for a reason that the files show.
   */
  class Disk {
    var files: Files
    const cleansUp: bool
    const reliable: bool

    constructor (files: Files, cleansUp: bool, reliable: bool)
      ensures this.files == files && this.cleansUp == cleansUp && this.reliable == reliable
    {
      this.files, this.cleansUp, this.reliable := files, cleansUp, reliable;
    }

    method Remove(path: string, cleanup: bool) returns (ok: bool)
      modifies this
      ensures files == if ok then old(files) - {path} else old(files)
      ensures ok ==> path in old(files)
      ensures (reliable || (cleanup && cleansUp)) && path in old(files) ==> ok
    {
      ok := *;
      ok := path in files && (ok || reliable || (cleanup && cleansUp));
      if ok {
        files := files - {path};
      }
    }

    method Rename(path: string, target: string, cleanup: bool) returns (ok: bool)
      requires path != target
      modifies this
      ensures ok ==> path in old(files) && files == (old(files) - {path})[target := old(files)[path]]
      ensures !ok ==> files == old(files)
      ensures (reliable || (cleanup && cleansUp)) && path in old(files) ==> ok
    {
      ok := *;
      ok := path in files && (ok || reliable || (cleanup && cleansUp));
      if ok {
        files := (files - {path})[target := files[path]];
      }
    }
  }

  // ---- The transaction -------------------------------------------------------------------------------------------

  class Transaction {
    const disk: Disk
    const owner: Owner
    var replacements: seq<Replacement>
    var changedFiles: seq<string>

    constructor (disk: Disk, owner: Owner)
      ensures this.disk == disk && this.owner == owner && replacements == [] && changedFiles == []
    {
      this.disk, this.owner := disk, owner;
      replacements, changedFiles := [], [];
    }

    /** Writes the new file beside its place. On failure it leaves nothing behind if cleaning up works. */
    method WriteTemporary(item: Item) returns (temporary: Option<string>)
      modifies disk
      ensures temporary.Some? ==>
                && temporary.value !in old(disk.files)
                && temporary.value != item.path && temporary.value != BackupOf(item.path, owner)
                && disk.files == old(disk.files)[temporary.value := FileOf(item, owner)]
      ensures temporary.None? && disk.cleansUp ==> disk.files == old(disk.files)
      ensures disk.reliable ==> temporary.Some?
    {
      var name: string, written: bool, owned: bool, chmoded: bool, synced: bool := *, *, *, *, *;
      if disk.reliable {
        name := LongName(disk.files.Keys + {item.path, BackupOf(item.path, owner)});
        written, owned, chmoded, synced := true, true, true, true;
      }
      if name in disk.files || name == item.path || name == BackupOf(item.path, owner) {
        return None;
      }
      disk.files := disk.files[name := File(true, "", 0, owner.installer)];
      if !written {
        var _ := disk.Remove(name, true);
        assert disk.cleansUp ==> disk.files == old(disk.files);
        return None;
      }
      disk.files := disk.files[name := disk.files[name].(data := item.data)];
      if owner.uid >= 0 && owner.uid != owner.installer {
        if !owned {
          var _ := disk.Remove(name, true);
          assert disk.cleansUp ==> disk.files == old(disk.files);
          return None;
        }
        disk.files := disk.files[name := disk.files[name].(owner := owner.uid)];
      }
      if !chmoded || !synced {
        var _ := disk.Remove(name, true);
        assert disk.cleansUp ==> disk.files == old(disk.files);
        return None;
      }
      disk.files := disk.files[name := disk.files[name].(mode := item.mode)];
      assert disk.files == old(disk.files)[name := FileOf(item, owner)];
      temporary := Some(name);
    }

    /** Either the whole replacement happens and is logged, or (if cleaning up works) no file changes. */
    method Replace(item: Item) returns (changed: bool, ok: bool)
      requires owner.suffix != ""
      modifies this`replacements, disk
      ensures changed ==>
                && ok && !Matches(old(disk.files), item, owner) && !Refused(old(disk.files), item, owner)
                && disk.files == Replaced(old(disk.files), item, owner)
                && replacements == old(replacements) + [ReplacementOf(old(disk.files), item, owner)]
      ensures !changed ==> replacements == old(replacements) && (disk.cleansUp ==> disk.files == old(disk.files))
      ensures !changed && ok ==> Matches(old(disk.files), item, owner) && disk.files == old(disk.files)
      ensures disk.reliable && !Refused(old(disk.files), item, owner) ==> ok
    {
      var seen: bool, read: bool, looked: bool, checked: bool := *, *, *, *;
      if disk.reliable {
        seen, read, looked, checked := true, true, true, true;
      }
      if !seen {
        return false, false;
      }
      if item.path in disk.files {
        if !disk.files[item.path].regular || !read {
          return false, false;
        }
        if Matches(disk.files, item, owner) {
          return false, true;
        }
      }
      var temporary := WriteTemporary(item);
      if temporary.None? {
        return false, false;
      }
      changed, ok := MoveIn(item, temporary.value, old(disk.files), looked, checked);
    }

    /** Moves what stands at the place aside and the new file in. */
    method MoveIn(item: Item, temporary: string, ghost before: Files, looked: bool, checked: bool)
      returns (changed: bool, ok: bool)
      requires owner.suffix != "" && !Matches(before, item, owner)
      requires item.path in before ==> before[item.path].regular
      requires temporary !in before && temporary != item.path && temporary != BackupOf(item.path, owner)
      requires disk.files == before[temporary := FileOf(item, owner)]
      modifies this`replacements, disk
      ensures changed ==>
                && ok && !Refused(before, item, owner) && disk.files == Replaced(before, item, owner)
                && replacements == old(replacements) + [ReplacementOf(before, item, owner)]
      ensures !changed ==> !ok && replacements == old(replacements) && (disk.cleansUp ==> disk.files == before)
      ensures disk.reliable && looked && checked && !Refused(before, item, owner) ==> ok
    {
      var backup := BackupOf(item.path, owner);
      assert |backup| > |item.path|;
      var replacement := Replacement(item.path, "", false);
      if !looked {
        var _ := disk.Remove(temporary, true);
        assert disk.cleansUp ==> disk.files == before;
        return false, false;
      }
      if item.path in disk.files {
        if backup in disk.files || !checked {
          var _ := disk.Remove(temporary, true);
          assert disk.cleansUp ==> disk.files == before;
          return false, false;
        }
        var moved := disk.Rename(item.path, backup, false);
        if !moved {
          var _ := disk.Remove(temporary, true);
          assert disk.cleansUp ==> disk.files == before;
          return false, false;
        }
        replacement := Replacement(item.path, backup, true);
      }
      var placed := disk.Rename(temporary, item.path, false);
      if !placed {
        if replacement.hadBackup {
          var _ := disk.Rename(backup, item.path, true);
        }
        var _ := disk.Remove(temporary, true);
        assert disk.cleansUp ==> disk.files == before;
        return false, false;
      }
      assert disk.files == Replaced(before, item, owner);
      replacements := replacements + [replacement];
      return true, true;
    }

    /** Takes back the whole log, the last replacement first. */
    method Rollback()
      requires forall i :: 0 <= i < |replacements| ==>
                             replacements[i].hadBackup ==> replacements[i].backup != replacements[i].path
      modifies disk
      ensures disk.cleansUp ==> disk.files == UndoAll(old(disk.files), replacements)
    {
      var index := |replacements|;
      assert replacements[..index] == replacements;
      while index > 0
        invariant 0 <= index <= |replacements|
        invariant disk.cleansUp ==>
                    UndoAll(disk.files, replacements[..index]) == UndoAll(old(disk.files), replacements)
      {
        index := index - 1;
        var replacement := replacements[index];
        ghost var before := disk.files;
        assert replacements[..index + 1] == replacements[..index] + [replacement];
        LastIsUndoneFirst(before, replacements[..index], replacement);
        var _ := disk.Remove(replacement.path, true);
        if replacement.hadBackup {
          var _ := disk.Rename(replacement.backup, replacement.path, true);
        }
        assert disk.cleansUp ==> disk.files == UndoOne(before, replacement);
      }
    }

    /** Drops the backups. */
    method Commit() returns (ok: bool)
      modifies disk
      ensures ok ==> disk.files == old(disk.files) - Backups(replacements)
      ensures forall p :: p in old(disk.files) && p !in Backups(replacements) ==>
                            p in disk.files && disk.files[p] == old(disk.files)[p]
      ensures disk.reliable ==> ok
    {
      ok := true;
      var i := 0;
      while i < |replacements|
        invariant i <= |replacements| && (disk.reliable ==> ok)
        invariant ok ==> disk.files == old(disk.files) - Backups(replacements[..i])
        invariant forall p :: p in old(disk.files) && p !in Backups(replacements) ==>
                                p in disk.files && disk.files[p] == old(disk.files)[p]
      {
        var replacement := replacements[i];
        BackupsGrow(replacements, i);
        ghost var before := disk.files;
        if replacement.hadBackup {
          if replacement.backup in disk.files {
            var removed := disk.Remove(replacement.backup, false);
            ok := ok && removed;
          }
        }
        i := i + 1;
        assert ok ==> disk.files == old(disk.files) - Backups(replacements[..i]);
      }
      assert replacements[..i] == replacements;
    }
  }

  /** A name longer than all that are in use. */
  method LongName(names: set<string>) returns (name: string)
    ensures name !in names
  {
    var longest: nat := 0;
    var pending := names;
    while pending != {}
      invariant pending <= names && forall n :: n in names - pending ==> |n| <= longest
      decreases |pending|
    {
      var n :| n in pending;
      if |n| > longest {
        longest := |n|;
      }
      pending := pending - {n};
    }
    name := seq(longest + 1, _ => 'x');
    assert name in names ==> name in names - pending;
  }

  function Backups(log: seq<Replacement>): set<string> {
    set r | r in log && r.hadBackup :: r.backup
  }

  lemma BackupsGrow(log: seq<Replacement>, i: nat)
    requires i < |log|
    ensures Backups(log[..i + 1]) == Backups(log[..i]) + (if log[i].hadBackup then {log[i].backup} else {})
    ensures log[i].hadBackup ==> log[i].backup in Backups(log)
  {
    assert log[..i + 1] == log[..i] + [log[i]];
  }
}
