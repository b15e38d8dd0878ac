/**
 Writes that reach an isolated source through descriptors that were open before. The archiver does not look at the source
 again after it was packed, so such a write is deleted with it. Its stamp would tell.
 */
module LateWrites {
  import opened Base
  import opened SharedDisk
  import opened FileCalls
  import A = StorageActions

  /** The edit writes to the object. */
  predicate Hits(s: State, e: Edit, d: nat) {
    e.Write? && Names(s, e.path, d) && d in s.inodes && s.inodes[d].kind.Regular? && !s.inodes[d].held
  }

  /** What was written to the object last. */
  function LastWrite(s: State, edits: seq<Edit>, sealed: set<Path>, d: nat): Option<Content>
    requires WellFormed(s)
    decreases |edits|
  {
    if edits == [] then None
    else
      ApplyEditInterferes(s, edits[0], sealed);
      var later := LastWrite(ApplyEdit(s, edits[0], sealed), edits[1..], sealed, d);
      if later.None? && Hits(s, edits[0], d) then Some(edits[0].content) else later
  }

  lemma OneEdit(s: State, e: Edit, sealed: set<Path>, d: nat)
    requires WellFormed(s) && d in s.inodes
    ensures var t := ApplyEdit(s, e, sealed);
            && WellFormed(t) && d in t.inodes && s.clock <= t.clock
            && (if Hits(s, e, d) then t.inodes[d].stamp == s.clock && t.inodes[d].content == e.content
                else t.inodes[d].stamp == s.inodes[d].stamp && t.inodes[d].content == s.inodes[d].content)
  {
    ApplyEditInterferes(s, e, sealed);
  }

  /**
   After any edits of other processes, an object has a new stamp if and only if some write reached it, and its contents
   are what was written last.
   */
  lemma {:induction false} StampTells(s: State, edits: seq<Edit>, sealed: set<Path>, d: nat)
    requires WellFormed(s) && d in s.inodes
    ensures var t, written := ApplyEdits(s, edits, sealed), LastWrite(s, edits, sealed, d);
            && d in t.inodes
            && (t.inodes[d].stamp != s.inodes[d].stamp <==> written.Some?)
            && (t.inodes[d].stamp == s.inodes[d].stamp || t.inodes[d].stamp >= s.clock)
            && t.inodes[d].content == if written.Some? then written.value else s.inodes[d].content
    decreases |edits|
  {
    hide Hits, ApplyEdit;
    if edits != [] {
      OneEdit(s, edits[0], sealed, d);
      StampTells(ApplyEdit(s, edits[0], sealed), edits[1..], sealed, d);
    }
  }

  /** What is deleted after such edits is what was packed exactly if no write reached it or the last one wrote the same. */
  lemma PackedExactly(packed: State, edits: seq<Edit>, sealed: set<Path>, d: nat)
    requires WellFormed(packed) && d in packed.inodes
    ensures var written := LastWrite(packed, edits, sealed, d);
            && d in ApplyEdits(packed, edits, sealed).inodes
            && (ApplyEdits(packed, edits, sealed).inodes[d].content == packed.inodes[d].content
                <==> written.None? || written.value == packed.inodes[d].content)
  {
    StampTells(packed, edits, sealed, d);
  }

  // ---- A record of a lost write ----------------------------------------------------------------------------------

  function Workspace(): Path { ["w"] }

  function Staged(): Path { A.StagedSource(["w"], ["s"]) }

  function Final(): Path { A.ArchiveName(["s"], 0) }

  /** The isolated source. */
  function Isolated(): State {
    State(map[Staged() := 0], map[0 := Inode(Regular, 0, Plain("a"), [], Meta(0, 0, 0), map[], false)], 1)
  }

  lemma IsolatedIsSound()
    ensures WellFormed(Isolated())
  {
  }

  function Packed(): State {
    IsolatedIsSound();
    WithFile(Isolated(), A.TempArchive(Workspace()), Archive(Plain("a"), true, 1))
  }

  function Linked(): State {
    var s := Packed();
    s.(names := s.names[Final() := 1])
  }

  function Written(): State {
    LinkedIsSound();
    ApplyEdit(Linked(), Write(Staged(), Plain("b")), {Workspace()})
  }

  function Dropped(): State {
    WrittenIsSound();
    Removed(Written(), {Staged()})
  }

  /** Packed at 0, tested at 1, linked at 2, written to at 3 and removed after that. */
  function Record(): seq<State> { [Isolated(), Packed(), Linked(), Written(), Dropped()] }

  lemma NamesDiffer()
    ensures Staged() != Final() && Staged() != A.TempArchive(Workspace()) && Final() != A.TempArchive(Workspace())
    ensures Workspace() <= Staged()
  {
    assert |Staged()| == 3 && |Final()| == 1 && |A.TempArchive(Workspace())| == 2;
  }

  lemma LinkedIsSound()
    ensures WellFormed(Linked()) && Names(Linked(), Final(), 1) && 1 in Linked().inodes
    ensures Names(Linked(), Staged(), 0) && Linked().inodes[0] == Isolated().inodes[0]
    ensures Linked().inodes[1].content == Archive(Plain("a"), true, 1)
  {
    NamesDiffer();
    IsolatedIsSound();
  }

  lemma WrittenIsSound()
    ensures WellFormed(Written()) && Names(Written(), Staged(), 0) && 0 in Written().inodes
    ensures Written().inodes[0].content == Plain("b")
  {
    LinkedIsSound();
    ApplyEditInterferes(Linked(), Write(Staged(), Plain("b")), {Workspace()});
  }

  lemma PackedIsNew()
    ensures Final() !in Packed().names && Names(Packed(), Staged(), 0) && 1 in Packed().inodes && 0 in Packed().inodes
    ensures Packed().inodes[1].content == Archive(Plain("a"), true, 1)
  {
    NamesDiffer();
    IsolatedIsSound();
  }

  /** An archive that passed every check is published while the source, with other contents by then, is removed. */
  lemma WriteIsLost()
    ensures var p := A.Publication(1, 0, 1, 2, 3);
            && A.Published(Record(), Final(), Staged(), 0, p) && A.LastSeen(Record(), Staged(), 0, 0, p)
            && Staged() !in Record()[4].names
            && Record()[3].inodes[0].content != Record()[2].inodes[1].content.source
  {
    hide Isolated, Packed, Linked, Written, Staged, Final;
    IsolatedFacts();
    PackedIsNew();
    LinkedIsSound();
    WrittenIsSound();
    StampMoved();
    var r := Record();
    assert r[0] == Isolated() && r[1] == Packed() && r[2] == Linked() && r[3] == Written() && r[4] == Dropped();
    assert A.InWorkspace(r, 0, 4, Staged(), 0);
  }

  lemma IsolatedFacts()
    ensures Names(Isolated(), Staged(), 0) && 0 in Isolated().inodes && Isolated().inodes[0].content == Plain("a")
  {
  }

  lemma StampMoved()
    ensures 0 in Written().inodes && Written().inodes[0].stamp != Isolated().inodes[0].stamp
  {
    LinkedIsSound();
  }

  /** The names the program changes in it. */
  function Own(): set<Path> { {A.TempArchive(Workspace()), Final(), Staged()} }

  lemma PackingEvolves()
    ensures WellFormed(Isolated()) && WellFormed(Packed())
    ensures Evolves(Isolated(), Isolated(), Own(), {}, false) && Evolves(Isolated(), Packed(), Own(), {}, false)
  {
    hide Evolves, Isolated;
    IsolatedIsSound();
    WritingEvolves(Isolated(), A.TempArchive(Workspace()), Archive(Plain("a"), true, 1), Own(), {}, false);
  }

  lemma LinkingEvolves()
    ensures WellFormed(Linked()) && Evolves(Packed(), Linked(), Own(), {}, false)
  {
    hide Evolves, Packed;
    LinkedIsSound();
    PackingEvolves();
    NamingEvolves(Packed(), Linked(), Own());
  }

  lemma WriteEvolves()
    ensures WellFormed(Written()) && Evolves(Linked(), Written(), Own(), {}, false)
  {
    hide Linked;
    LinkedIsSound();
    ApplyEditInterferes(Linked(), Write(Staged(), Plain("b")), {Workspace()});
  }

  lemma DroppingEvolves()
    ensures WellFormed(Dropped()) && Evolves(Written(), Dropped(), Own(), {}, false)
  {
    hide Evolves, Written;
    WrittenIsSound();
    NamingEvolves(Written(), Dropped(), Own());
  }

  lemma NamingEvolves(s: State, t: State, own: set<Path>)
    requires WellFormed(s) && s.inodes == t.inodes && s.clock == t.clock
    requires forall p :: p !in own ==> SameBinding(s, t, p)
    ensures Evolves(s, t, own, {}, false)
  {
  }

  /** It is a record that the calls and the other processes can produce. */
  lemma RecordIsPossible()
    ensures Chain(Record(), Own(), {}, false)
  {
    hide Isolated, Packed, Linked, Written, Dropped, Own, Evolves;
    PackingEvolves();
    LinkingEvolves();
    WriteEvolves();
    DroppingEvolves();
    var own, r := Own(), [Isolated()];
    assert Chain(r, own, {}, false);
    ChainGrows(r, own, {}, Packed(), own, {}, false);
    r := r + [Packed()];
    ChainGrows(r, own, {}, Linked(), own, {}, false);
    r := r + [Linked()];
    ChainGrows(r, own, {}, Written(), own, {}, false);
    r := r + [Written()];
    ChainGrows(r, own, {}, Dropped(), own, {}, false);
    assert r + [Dropped()] == Record();
  }
}
