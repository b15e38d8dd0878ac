/** Installing Fleetty as a service: a transaction over files inside a small protocol with the service manager. */
module Install {
  import opened Base
  import opened FileTransaction

  // ---- A run over all files --------------------------------------------------------------------------------------

  /** The files and the log after some items were put in place. */
  datatype Progress = Progress(files: Files, log: seq<Replacement>)

  function PutOne(p: Progress, item: Item, o: Owner): Option<Progress> {
    if Matches(p.files, item, o) then Some(p)
    else if Refused(p.files, item, o) then None
    else Some(Progress(Replaced(p.files, item, o), p.log + [ReplacementOf(p.files, item, o)]))
  }

  /** Putting the items in place one after the other, when no call fails. */
  function PutAll(files: Files, items: seq<Item>, o: Owner): Option<Progress>
    decreases |items|
  {
    if items == [] then Some(Progress(files, []))
    else
      var before := PutAll(files, items[..|items| - 1], o);
      if before.None? then None else PutOne(before.value, items[|items| - 1], o)
  }

  predicate InPlace(files: Files, items: seq<Item>, o: Owner) {
    forall i :: 0 <= i < |items| ==> Matches(files, items[i], o)
  }

  predicate DistinctPaths(items: seq<Item>) {
    forall i, j :: 0 <= i < j < |items| ==> items[i].path != items[j].path
  }

  /** Taking back the log of any run, repeated paths included, gives the files of the start. */
  lemma {:induction false} RunIsUndone(files: Files, items: seq<Item>, o: Owner)
    requires o.suffix != "" && PutAll(files, items, o).Some?
    ensures UndoAll(PutAll(files, items, o).value.files, PutAll(files, items, o).value.log) == files
    ensures forall r :: r in PutAll(files, items, o).value.log ==> r.hadBackup ==> r.backup != r.path
    decreases |items|
  {
    if items != [] {
      var item := items[|items| - 1];
      var before := PutAll(files, items[..|items| - 1], o).value;
      RunIsUndone(files, items[..|items| - 1], o);
      assert |BackupOf(item.path, o)| > |item.path|;
      if !Matches(before.files, item, o) {
        UndoRestores(before.files, item, o);
        LastIsUndoneFirst(Replaced(before.files, item, o), before.log, ReplacementOf(before.files, item, o));
      }
    }
  }

  /** Files in place are not written again. */
  lemma {:induction false} InPlaceIsLeftAlone(files: Files, items: seq<Item>, o: Owner)
    requires InPlace(files, items, o)
    ensures PutAll(files, items, o) == Some(Progress(files, []))
    decreases |items|
  {
    if items != [] {
      InPlaceIsLeftAlone(files, items[..|items| - 1], o);
    }
  }

  // ---- Backups that are themselves installed ---------------------------------------------------------------------

  /** Up to a point a run is the run over fewer items. */
  lemma {:induction false} ShorterRun(files: Files, items: seq<Item>, o: Owner, n: nat)
    requires PutAll(files, items, o).Some? && n <= |items|
    ensures PutAll(files, items[..n], o).Some?
    ensures Backups(PutAll(files, items[..n], o).value.log) <= Backups(PutAll(files, items, o).value.log)
    decreases |items|
  {
    if n < |items| {
      ShorterRun(files, items[..|items| - 1], o, n);
      assert items[..|items| - 1][..n] == items[..n];
    } else {
      assert items[..n] == items;
    }
  }

  /** What a run leaves of a path: files do not vanish, and only what is installed or kept as a backup is new. */
  lemma {:induction false} RunKeeps(files: Files, items: seq<Item>, o: Owner, q: string)
    requires PutAll(files, items, o).Some?
    ensures var p := PutAll(files, items, o).value;
            && (q in files ==> q in p.files && q !in Backups(p.log))
            && (q in files && (forall i :: 0 <= i < |items| ==> items[i].path != q) ==> p.files[q] == files[q])
            && (q in p.files && q !in files ==> q in Backups(p.log) || exists i :: 0 <= i < |items| && items[i].path == q)
    decreases |items|
  {
    if items != [] {
      var shorter, item := items[..|items| - 1], items[|items| - 1];
      var before := PutAll(files, shorter, o).value;
      RunKeeps(files, shorter, o, q);
      assert forall i :: 0 <= i < |shorter| ==> shorter[i].path == items[i].path;
      assert items[|items| - 1].path == item.path;
      if !Matches(before.files, item, o) {
        var r := ReplacementOf(before.files, item, o);
        assert Backups(before.log + [r]) == Backups(before.log) + (if r.hadBackup then {r.backup} else {});
      }
    }
  }

  /** After a run every item stands in its place. */
  lemma {:induction false} RunPlaces(files: Files, items: seq<Item>, o: Owner)
    requires PutAll(files, items, o).Some? && DistinctPaths(items) && o.suffix != ""
    ensures InPlace(PutAll(files, items, o).value.files, items, o)
    decreases |items|
  {
    if items != [] {
      var shorter, item := items[..|items| - 1], items[|items| - 1];
      RunPlaces(files, shorter, o);
      assert |BackupOf(item.path, o)| > |item.path|;
      forall i | 0 <= i < |items|
        ensures Matches(PutAll(files, items, o).value.files, items[i], o)
      {
        if i < |shorter| {
          assert shorter[i] == items[i] && items[i].path != item.path;
        }
      }
    }
  }

  /** A backup was made of an item's place at the time that item was put there, and no earlier item stands at its path. */
  lemma {:induction false} BackupComesFrom(files: Files, items: seq<Item>, o: Owner, q: string) returns (j: nat)
    requires PutAll(files, items, o).Some? && DistinctPaths(items) && o.suffix != ""
    requires q in Backups(PutAll(files, items, o).value.log)
    ensures j < |items| && q == BackupOf(items[j].path, o) && PutAll(files, items[..j], o).Some?
    ensures var before := PutAll(files, items[..j], o).value;
            items[j].path in before.files && !Matches(before.files, items[j], o)
    ensures forall i :: 0 <= i < j ==> items[i].path != q
    decreases |items|
  {
    var shorter, item := items[..|items| - 1], items[|items| - 1];
    var before := PutAll(files, shorter, o).value;
    if q in Backups(before.log) {
      j := BackupComesFrom(files, shorter, o, q);
      assert shorter[..j] == items[..j];
      assert forall i :: 0 <= i <= j ==> shorter[i] == items[i];
    } else {
      j := |items| - 1;
      var r := ReplacementOf(before.files, item, o);
      assert Backups(before.log + [r]) == Backups(before.log) + (if r.hadBackup then {r.backup} else {});
      RunPlaces(files, shorter, o);
      forall i | 0 <= i < j
        ensures items[i].path != q
      {
        assert Matches(before.files, shorter[i], o);
      }
    }
  }

  /** An item is installed at the path that serves as backup for an earlier item, whose place holds something else. */
  predicate Clashes(files: Files, items: seq<Item>, o: Owner, j: nat, i: nat)
    requires j < i < |items|
  {
    items[i].path == BackupOf(items[j].path, o) && items[j].path in files && !Matches(files, items[j], o)
  }

  lemma ClashIsLogged(files: Files, items: seq<Item>, o: Owner, j: nat, i: nat)
    requires PutAll(files, items, o).Some? && DistinctPaths(items) && o.suffix != ""
    requires j < i < |items| && Clashes(files, items, o, j, i)
    ensures items[i].path in Backups(PutAll(files, items, o).value.log)
  {
    ShorterRun(files, items, o, j);
    ShorterRun(files, items, o, j + 1);
    assert items[..j + 1][..j] == items[..j];
    var before := PutAll(files, items[..j], o).value;
    RunKeeps(files, items[..j], o, items[j].path);
    var r := ReplacementOf(before.files, items[j], o);
    assert r in before.log + [r];
    assert r.backup in Backups(before.log + [r]);
  }

  lemma {:induction false} LoggedIsClash(files: Files, items: seq<Item>, o: Owner, i: nat)
    requires PutAll(files, items, o).Some? && DistinctPaths(items) && o.suffix != "" && i < |items|
    requires items[i].path in Backups(PutAll(files, items, o).value.log)
    ensures exists j, k :: 0 <= j < k <= i && Clashes(files, items, o, j, k)
    decreases i
  {
    var j := BackupComesFrom(files, items, o, items[i].path);
    assert |BackupOf(items[j].path, o)| > |items[j].path|;
    assert j < i;
    var before := PutAll(files, items[..j], o).value;
    RunKeeps(files, items[..j], o, items[j].path);
    if items[j].path in files {
      assert Clashes(files, items, o, j, i);
    } else {
      ShorterRun(files, items, o, j);
      LoggedIsClash(files, items, o, j);
    }
  }

  /**
   * A finished run, its backups dropped, leaves every item in place exactly if no item stands at the path that serves
   * as the backup of an earlier one.
   */
  lemma InstalledExactly(files: Files, items: seq<Item>, o: Owner)
    requires PutAll(files, items, o).Some? && DistinctPaths(items) && o.suffix != ""
    ensures var p := PutAll(files, items, o).value;
            InPlace(p.files - Backups(p.log), items, o)
            <==> !exists j, i :: 0 <= j < i < |items| && Clashes(files, items, o, j, i)
  {
    var p := PutAll(files, items, o).value;
    RunPlaces(files, items, o);
    if InPlace(p.files - Backups(p.log), items, o) {
      forall j, i | 0 <= j < i < |items|
        ensures !Clashes(files, items, o, j, i)
      {
        assert Matches(p.files - Backups(p.log), items[i], o);
        if Clashes(files, items, o, j, i) {
          ClashIsLogged(files, items, o, j, i);
        }
      }
    } else {
      var i :| 0 <= i < |items| && !Matches(p.files - Backups(p.log), items[i], o);
      assert Matches(p.files, items[i], o);
      LoggedIsClash(files, items, o, i);
    }
  }

  /** Two configuration files are enough: the second is installed at the backup of the first, and dropped with it. */
  lemma ClashExample()
    ensures var o, items := Owner(-1, 0, ".old"), [Item("app", "new", 0), Item("app.old", "kept", 0)];
            var files: Files := map["app" := File(true, "previous", 0, 0)];
            && PutAll(files, items, o).Some?
            && var p := PutAll(files, items, o).value;
               p.files["app.old"].data == "kept" && "app.old" !in p.files - Backups(p.log)
  {
    var o, first, second := Owner(-1, 0, ".old"), Item("app", "new", 0), Item("app.old", "kept", 0);
    var items, files: Files := [first, second], map["app" := File(true, "previous", 0, 0)];
    assert items[..1] == [first] && [first][..0] == [];
    assert PutAll(files, [], o) == Some(Progress(files, []));
    assert BackupOf("app", o) == "app.old" && |BackupOf("app.old", o)| == 11;
    var one := PutAll(files, [first], o).value;
    assert one.files == Replaced(files, first, o) && one.log == [Replacement("app", "app.old", true)];
    assert one.files["app.old"].data == "previous";
    assert !Matches(one.files, second, o) && BackupOf("app.old", o) !in one.files;
    var two := PutAll(files, items, o).value;
    assert two == PutOne(one, second, o).value;
    assert one.log[0] == Replacement("app", "app.old", true) && two.log[0] == one.log[0];
    assert two.log[0] in two.log;
    assert "app.old" in Backups(two.log);
  }

  /** Installing the same items once more, by another process with its own backup suffix, finds nothing to do. */
  lemma SecondRunIsIdle(files: Files, items: seq<Item>, o: Owner, again: Owner)
    requires PutAll(files, items, o).Some? && DistinctPaths(items) && o.suffix != ""
    requires forall j, i :: 0 <= j < i < |items| ==> !Clashes(files, items, o, j, i)
    requires again.uid == o.uid
    ensures var p := PutAll(files, items, o).value;
            var done := p.files - Backups(p.log);
            PutAll(done, items, again) == Some(Progress(done, []))
  {
    InstalledExactly(files, items, o);
    var p := PutAll(files, items, o).value;
    var done := p.files - Backups(p.log);
    assert forall i :: 0 <= i < |items| ==> Matches(done, items[i], o) && Matches(done, items[i], again);
    InPlaceIsLeftAlone(done, items, again);
  }

  /** Nothing is replaced exactly if everything was in place before. */
  lemma {:induction false} IdleExactly(files: Files, items: seq<Item>, o: Owner)
    requires PutAll(files, items, o).Some?
    ensures PutAll(files, items, o).value.log == [] <==> InPlace(files, items, o)
    ensures PutAll(files, items, o).value.log == [] ==> PutAll(files, items, o).value.files == files
    decreases |items|
  {
    if items != [] {
      var shorter := items[..|items| - 1];
      IdleExactly(files, shorter, o);
      assert InPlace(files, items, o) <==> InPlace(files, shorter, o) && Matches(files, items[|items| - 1], o);
    }
  }

  // ---- The service manager ---------------------------------------------------------------------------------------

  /** What a service runs: the unit files as they were last loaded, and the files it was started from. */
  datatype Image = Image(units: Files, files: Files)

  /**
   * The service on the machine. If `steady`, its queries answer truthfully and the commands that restore it work.
   * Any other command may fail and then leave the service in any state, and a started service may end at once, unless
   * the service is `reliable`.
   */
  class Service {
    const disk: Disk
    const steady: bool
    const reliable: bool
    var active: bool
    var enabled: bool
    var loaded: Files
    var running: Image

    constructor (disk: Disk, steady: bool, reliable: bool, active: bool, enabled: bool, loaded: Files, running: Image)
      ensures this.disk == disk && this.steady == steady && this.reliable == reliable
      ensures this.active == active && this.enabled == enabled && this.loaded == loaded && this.running == running
    {
      this.disk, this.steady, this.active, this.enabled := disk, steady, active, enabled;
      this.reliable, this.loaded, this.running := reliable, loaded, running;
    }

    method IsActive() returns (yes: bool)
      ensures yes ==> active
      ensures steady ==> yes == active
    {
      yes := *;
      yes := active && (yes || steady);
    }

    method IsEnabled() returns (yes: bool)
      ensures yes ==> enabled
      ensures steady ==> yes == enabled
    {
      yes := *;
      yes := enabled && (yes || steady);
    }

    method DaemonReload(cleanup: bool) returns (ok: bool)
      modifies this`loaded
      ensures ok ==> loaded == disk.files
      ensures reliable || (cleanup && steady) ==> ok
    {
      ok := *;
      ok := ok || reliable || (cleanup && steady);
      loaded := *;
      if ok {
        loaded := disk.files;
      }
    }

    method SetEnabled(on: bool, cleanup: bool) returns (ok: bool)
      modifies this`enabled
      ensures ok ==> enabled == on
      ensures reliable || (cleanup && steady) ==> ok
    {
      ok := *;
      ok := ok || reliable || (cleanup && steady);
      enabled := *;
      if ok {
        enabled := on;
      }
    }

    /** Starting an active service does nothing. */
    method Start() returns (ok: bool)
      modifies this`active, this`running
      ensures ok && old(active) ==> active && running == old(running)
      ensures ok && !old(active) ==> running == Image(loaded, disk.files)
      ensures reliable ==> ok && active
    {
      ok := *;
      ok := ok || reliable;
      if ok {
        if !active {
          active, running := *, Image(loaded, disk.files);
          active := active || reliable;
        }
      } else {
        active, running := *, *;
      }
    }

    method Restart(cleanup: bool) returns (ok: bool)
      modifies this`active, this`running
      ensures ok ==> running == Image(loaded, disk.files)
      ensures reliable || (cleanup && steady) ==> ok && active
    {
      ok := *;
      ok := ok || reliable || (cleanup && steady);
      active, running := *, *;
      if ok {
        active, running := active || reliable || (cleanup && steady), Image(loaded, disk.files);
      }
    }

    method Stop(cleanup: bool) returns (ok: bool)
      modifies this`active
      ensures ok ==> !active
      ensures reliable || (cleanup && steady) ==> ok
    {
      ok := *;
      ok := ok || reliable || (cleanup && steady);
      active := *;
      if ok {
        active := false;
      }
    }
  }

  // ---- The installation ------------------------------------------------------------------------------------------

  datatype Problem = NotReplaced | NotReloaded | NotEnabled | NotStarted | NotActive | NotCommitted

  datatype Installed = Installed(changed: bool, changedFiles: seq<string>)

  function Items(binary: Item, unit: Item, dropIn: Option<Item>, configs: seq<Item>): seq<Item> {
    [binary, unit] + (if dropIn.Some? then [dropIn.value] else []) + configs
  }

  function LoggedPaths(log: seq<Replacement>): seq<string> {
    seq(|log|, i requires 0 <= i < |log| => log[i].path)
  }

  /** The files and the log are those of a run over the given items. */
  ghost predicate Reached(t: Transaction, start: Files, items: seq<Item>)
    reads t, t.disk
  {
    && t.owner.suffix != ""
    && PutAll(start, items, t.owner) == Some(Progress(t.disk.files, t.replacements))
    && t.changedFiles == LoggedPaths(t.replacements)
  }

  /** Replaces one more file, or takes back all of them. */
  method ReplaceNext(t: Transaction, item: Item, ghost start: Files, ghost done: seq<Item>) returns (ok: bool)
    requires Reached(t, start, done)
    modifies t, t.disk
    ensures ok ==> Reached(t, start, done + [item])
    ensures !ok && t.disk.cleansUp ==> t.disk.files == start
    ensures t.disk.reliable && !ok ==> PutAll(start, done + [item], t.owner).None?
  {
    assert (done + [item])[..|done + [item]| - 1] == done;
    RunIsUndone(start, done, t.owner);
    var changed;
    changed, ok := t.Replace(item);
    if changed {
      t.changedFiles := t.changedFiles + [item.path];
      assert LoggedPaths(t.replacements) == t.changedFiles;
    }
    if !ok {
      t.Rollback();
    }
  }

  lemma NothingReached(t: Transaction)
    requires t.owner.suffix != "" && t.replacements == [] && t.changedFiles == []
    ensures Reached(t, t.disk.files, [])
  {
    assert LoggedPaths([]) == [];
  }

  method GiveUp(t: Transaction, ghost start: Files, ghost done: seq<Item>)
    requires Reached(t, start, done)
    modifies t.disk
    ensures t.disk.cleansUp ==> t.disk.files == start
  {
    RunIsUndone(start, done, t.owner);
    t.Rollback();
  }

  /** A run that cannot get past some items cannot get past more. */
  lemma FailureStays(files: Files, items: seq<Item>, o: Owner, n: nat)
    requires n <= |items| && PutAll(files, items[..n], o).None?
    ensures PutAll(files, items, o).None?
  {
    if PutAll(files, items, o).Some? {
      ShorterRun(files, items, o, n);
    }
  }

  /** All files of an installation, in their order. */
  method ReplaceAll(t: Transaction, binary: Item, unit: Item, dropIn: Option<Item>, configs: seq<Item>) returns (ok: bool)
    requires t.owner.suffix != "" && t.replacements == [] && t.changedFiles == []
    modifies t, t.disk
    ensures ok ==> Reached(t, old(t.disk.files), Items(binary, unit, dropIn, configs))
    ensures !ok && t.disk.cleansUp ==> t.disk.files == old(t.disk.files)
    ensures t.disk.reliable && !ok ==> PutAll(old(t.disk.files), Items(binary, unit, dropIn, configs), t.owner).None?
  {
    hide Reached, PutAll;
    ghost var start, all := t.disk.files, Items(binary, unit, dropIn, configs);
    forall n: nat | n <= |all| && PutAll(start, all[..n], t.owner).None? ensures PutAll(start, all, t.owner).None? {
      FailureStays(start, all, t.owner, n);
    }
    NothingReached(t);
    ok := ReplaceNext(t, binary, start, []);
    assert [] + [binary] == [binary] == all[..1];
    if !ok {
      return;
    }
    ok := ReplaceNext(t, unit, start, [binary]);
    ghost var done := [binary] + [unit];
    assert done == all[..2];
    if !ok {
      return;
    }
    if dropIn.Some? {
      var made: bool := *;
      if !made && !t.disk.reliable {
        GiveUp(t, start, done);
        return false;
      }
      ok := ReplaceNext(t, dropIn.value, start, done);
      done := done + [dropIn.value];
      assert done == all[..3];
      if !ok {
        return;
      }
    }
    ghost var first := done;
    assert first + configs == Items(binary, unit, dropIn, configs);
    assert first + configs[..0] == first;
    for i := 0 to |configs|
      invariant Reached(t, start, first + configs[..i])
    {
      ok := ReplaceNext(t, configs[i], start, first + configs[..i]);
      assert first + configs[..i] + [configs[i]] == first + configs[..i + 1] == all[..|first| + i + 1];
      if !ok {
        return;
      }
    }
    assert configs[..|configs|] == configs;
    ok := true;
  }

  /** Brings the files and the service back to what was observed. */
  method Restore(t: Transaction, s: Service, wasActive: bool, wasEnabled: bool, ghost start: Files, ghost items: seq<Item>)
    requires s.disk == t.disk && Reached(t, start, items)
    modifies t.disk, s
    ensures t.disk.cleansUp ==> t.disk.files == start
    ensures s.steady ==> s.enabled == wasEnabled && s.active == wasActive
    ensures s.steady ==> s.loaded == t.disk.files
    ensures s.steady && wasActive ==> s.running == Image(t.disk.files, t.disk.files)
  {
    GiveUp(t, start, items);
    var _ := s.DaemonReload(true);
    var _ := s.SetEnabled(wasEnabled, true);
    if wasActive {
      var _ := s.Restart(true);
    } else {
      var _ := s.Stop(true);
    }
  }

  /** The service as it was before: running from the old files, if it ran. */
  twostate predicate ServiceIsBack(s: Service)
    reads s, s.disk
  {
    && s.enabled == old(s.enabled) && s.active == old(s.active)
    && (s.active ==> s.running == old(s.running) || s.running == Image(s.disk.files, s.disk.files))
  }

  method InstallFleetty(s: Service, owner: Owner, binary: Item, unit: Item, dropIn: Option<Item>, configs: seq<Item>)
    returns (r: Result<Installed, Problem>)
    requires owner.suffix != ""
    modifies s, s.disk
    // Success: every file was dealt with, the service is enabled and active, and it runs what was installed if
    // anything had to be changed or it was not running before.
    ensures r.Ok? ==>
              && PutAll(old(s.disk.files), Items(binary, unit, dropIn, configs), owner).Some?
              && s.enabled && s.active
    ensures r.Ok? ==>
              var p := PutAll(old(s.disk.files), Items(binary, unit, dropIn, configs), owner).value;
              && s.disk.files == p.files - Backups(p.log)
              && r.value.changedFiles == LoggedPaths(p.log)
              && (s.steady ==> r.value.changed == (p.log != [] || !old(s.active) || !old(s.enabled)))
              && (s.steady && (p.log != [] || !old(s.active)) ==> s.running == Image(p.files, p.files))
              && (s.steady && p.log == [] && old(s.active) ==> s.running == old(s.running))
    // Failure before the end: nothing has changed.
    ensures r.Err? && r.error != NotCommitted && s.disk.cleansUp ==> s.disk.files == old(s.disk.files)
    ensures r.Err? && r.error != NotCommitted && s.disk.cleansUp && s.steady ==> ServiceIsBack(s)
    // When no call fails for a reason of its own, only an item that cannot be put in place prevents success.
    ensures s.disk.reliable && s.reliable && s.steady ==>
              (r.Ok? <==> PutAll(old(s.disk.files), Items(binary, unit, dropIn, configs), owner).Some?)
    // Failure to drop the backups: everything else is done.
    ensures r == Err(NotCommitted) ==>
              && s.enabled && s.active
              && PutAll(old(s.disk.files), Items(binary, unit, dropIn, configs), owner).Some?
              && var p := PutAll(old(s.disk.files), Items(binary, unit, dropIn, configs), owner).value;
                 forall q :: q in p.files && q !in Backups(p.log) ==> q in s.disk.files && s.disk.files[q] == p.files[q]
  {
    var t := new Transaction(s.disk, owner);
    ghost var start, items := s.disk.files, Items(binary, unit, dropIn, configs);
    var replaced := ReplaceAll(t, binary, unit, dropIn, configs);
    if !replaced {
      return Err(NotReplaced);
    }
    var wasActive := s.IsActive();
    var wasEnabled := s.IsEnabled();
    var reloaded := s.DaemonReload(false);
    if !reloaded {
      Restore(t, s, wasActive, wasEnabled, start, items);
      return Err(NotReloaded);
    }
    var nowEnabled := s.SetEnabled(true, false);
    if !nowEnabled {
      Restore(t, s, wasActive, wasEnabled, start, items);
      return Err(NotEnabled);
    }
    var filesChanged := |t.changedFiles| > 0;
    var acted := true;
    if !wasActive {
      acted := s.Start();
    } else if filesChanged {
      acted := s.Restart(false);
    }
    if !acted {
      Restore(t, s, wasActive, wasEnabled, start, items);
      return Err(NotStarted);
    }
    var isActive := s.IsActive();
    if !isActive {
      Restore(t, s, wasActive, wasEnabled, start, items);
      return Err(NotActive);
    }
    var committed := t.Commit();
    if !committed {
      return Err(NotCommitted);
    }
    r := Ok(Installed(filesChanged || !wasActive || !wasEnabled, t.changedFiles));
  }
}
