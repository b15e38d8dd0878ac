/** From a reviewed dedupe script to the requests it makes, and what running all of them does to the files. */
module DedupePlan {
  import opened Base
  import opened Text
  import opened SharedDisk
  import opened FileCalls
  import opened Paths
  import L = DedupeLink
  import S = DedupeScript

  datatype Request = Request(keep: Path, replace: Path, hash: string)

  // ---- Requests --------------------------------------------------------------------------------------------------

  /** The values given to `--keep`, `--replace` and `--sha256`. */
  datatype Flags = Flags(keep: string, replace: string, hash: string)

  function ParseFlags(args: seq<string>, flags: Flags): Option<Flags>
    decreases |args|
  {
    if args == [] then Some(flags)
    else if |args| == 1 then None
    else if args[0] == "--keep" then ParseFlags(args[2..], flags.(keep := args[1]))
    else if args[0] == "--replace" then ParseFlags(args[2..], flags.(replace := args[1]))
    else if args[0] == "--sha256" then ParseFlags(args[2..], flags.(hash := args[1]))
    else None
  }

  /** The request a command line makes; relative paths are outside the model. */
  function RequestOf(flags: Flags): Option<Request> {
    var keep := TrimSpace(flags.keep);
    var replace := TrimSpace(flags.replace);
    if keep == "" || replace == "" || keep[0] != '/' || replace[0] != '/' then None
    else if CleanPath(keep) == CleanPath(replace) then None
    else if !IsDigest(ToLower(TrimSpace(flags.hash))) then None
    else Some(Request(CleanPath(keep), CleanPath(replace), ToLower(TrimSpace(flags.hash))))
  }

  function ReadCommand(bin: string, command: S.Command): Option<Request> {
    if |command| < 2 || command[0] != bin || command[1] != "dedupe-link" then None
    else
      var flags := ParseFlags(command[2..], Flags("", "", ""));
      if flags.None? then None else RequestOf(flags.value)
  }

  function Last(t: string): char
    requires t != ""
  {
    t[|t| - 1]
  }

  /** The last character of the path is white space. */
  predicate EndsBlank(p: Path)
    requires ProperPath(p)
  {
    IsSpace(Last(p[|p| - 1]))
  }

  lemma LastOfSum(a: string, b: string)
    requires b != ""
    ensures a + b != "" && Last(a + b) == Last(b)
  {
  }

  lemma {:induction false} PathTextEnds(p: Path)
    requires ProperPath(p)
    ensures PathText(p) != "" && PathText(p)[0] == '/' && Last(PathText(p)) == Last(p[|p| - 1])
    decreases |p|
  {
    var more := p[1..];
    if more == [] {
      assert p[0] + PathText(more) == p[0];
      LastOfSum("/", p[0]);
    } else {
      PathTextEnds(more);
      LastOfSum(p[0], PathText(more));
      LastOfSum("/", p[0] + PathText(more));
    }
  }

  /** The command means the listed path exactly when that path does not end in white space. */
  lemma PathSurvivesTrimming(p: Path)
    requires ProperPath(p)
    ensures CleanPath(TrimSpace(PathText(p))) == p <==> !EndsBlank(p)
    ensures !EndsBlank(p) ==> TrimSpace(PathText(p)) == PathText(p)
  {
    var t := PathText(p);
    PathTextEnds(p);
    PathIsRead(p, [], "");
    assert Push([], "") + p == p;
    assert TrimLeft(t) == t;
    if EndsBlank(p) {
      TrimRightCuts(t);
      var cut := TrimRight(t);
      assert cut <= t;
      if cut == "" {
        assert CleanPath(cut) == [];
      } else {
        assert cut[0] == '/';
        CleaningShrinks(cut[1..], [], "");
        assert CleanPath(cut) == CleanFrom(cut[1..], [], "");
      }
    } else {
      TrimKeeps(t);
    }
  }

  lemma {:induction false} HexIsPlain(h: string)
    requires IsDigest(h)
    ensures TrimSpace(h) == h && ToLower(h) == h
  {
    TrimKeeps(h);
  }

  /** A command of the script makes the listed request, if and only if neither path ends in white space. */
  lemma CommandIsRequest(bin: string, keep: Path, duplicate: Path, hash: string)
    requires ProperPath(keep) && ProperPath(duplicate) && keep != duplicate && IsDigest(hash)
    ensures ReadCommand(bin, S.LinkWords(bin, PathText(keep), PathText(duplicate), hash))
            == Some(Request(keep, duplicate, hash))
            <==> !EndsBlank(keep) && !EndsBlank(duplicate)
  {
    var k, d := PathText(keep), PathText(duplicate);
    var words := S.LinkWords(bin, k, d, hash);
    assert words[2..] == ["--keep", k, "--replace", d, "--sha256", hash];
    FlagsAreRead(k, d, hash);
    PathSurvivesTrimming(keep);
    PathSurvivesTrimming(duplicate);
    PathTextEnds(keep);
    PathTextEnds(duplicate);
    HexIsPlain(hash);
  }

  /** A file whose name ends in a blank is listed, but the program then looks for another one. */
  lemma BlankEndIsLost(bin: string, hash: string)
    requires IsDigest(hash)
    ensures ReadCommand(bin, S.LinkWords(bin, PathText(["a"]), PathText(["b "]), hash)) != Some(Request(["a"], ["b "], hash))
  {
    assert ProperPath(["a"]) && ProperPath(["b "]) && EndsBlank(["b "]) && ["a"][0] != ["b "][0];
    CommandIsRequest(bin, ["a"], ["b "], hash);
  }

  lemma FlagsAreRead(k: string, d: string, hash: string)
    ensures ParseFlags(["--keep", k, "--replace", d, "--sha256", hash], Flags("", "", "")) == Some(Flags(k, d, hash))
  {
    var a := ["--keep", k, "--replace", d, "--sha256", hash];
    var b := ["--replace", d, "--sha256", hash];
    var c := ["--sha256", hash];
    assert a[2..] == b && b[2..] == c && c[2..] == [];
    assert ParseFlags(c, Flags(k, d, "")) == Some(Flags(k, d, hash));
    assert ParseFlags(b, Flags(k, "", "")) == ParseFlags(c, Flags(k, d, ""));
  }

  // ---- From groups to requests -----------------------------------------------------------------------------------

  /** A group of verified duplicates and the copy chosen to be kept. */
  datatype Group = Group(hash: string, files: seq<Path>, keep: nat, reclaimable: string)

  ghost predicate ValidPlanGroup(g: Group) {
    && 2 <= |g.files| && g.keep < |g.files| && IsDigest(g.hash) && S.OneLine(g.reclaimable)
    && (forall i :: 0 <= i < |g.files| ==> ProperPath(g.files[i]))
    && Distinct(g.files)
  }

  /** The files of different groups are different. */
  ghost predicate ValidPlan(groups: seq<Group>) {
    && (forall i :: 0 <= i < |groups| ==> ValidPlanGroup(groups[i]))
    && (forall i, j, a, b :: 0 <= i < j < |groups| && 0 <= a < |groups[i].files| && 0 <= b < |groups[j].files| ==>
          groups[i].files[a] != groups[j].files[b])
  }

  function Texts(files: seq<Path>): (texts: seq<string>)
    ensures |texts| == |files| && forall i :: 0 <= i < |files| ==> texts[i] == PathText(files[i])
  {
    seq(|files|, i requires 0 <= i < |files| => PathText(files[i]))
  }

  function Written(g: Group): S.DuplicateGroup {
    S.DuplicateGroup(g.hash, Texts(g.files), g.keep, g.reclaimable)
  }

  function AllWritten(groups: seq<Group>): (written: seq<S.DuplicateGroup>)
    ensures |written| == |groups| && forall i :: 0 <= i < |groups| ==> written[i] == Written(groups[i])
  {
    seq(|groups|, i requires 0 <= i < |groups| => Written(groups[i]))
  }

  /** One request for every file from `index` on that is not the keeper. */
  function GroupRequests(g: Group, index: nat): seq<Request>
    requires g.keep < |g.files| && index <= |g.files|
    decreases |g.files| - index
  {
    if index == |g.files| then []
    else if index == g.keep then GroupRequests(g, index + 1)
    else [Request(g.files[g.keep], g.files[index], g.hash)] + GroupRequests(g, index + 1)
  }

  ghost function PlanRequests(groups: seq<Group>, index: nat): seq<Request>
    requires index <= |groups| && forall i :: 0 <= i < |groups| ==> ValidPlanGroup(groups[i])
    decreases |groups| - index
  {
    if index == |groups| then []
    else assert ValidPlanGroup(groups[index]); GroupRequests(groups[index], 0) + PlanRequests(groups, index + 1)
  }

  /** What is read from a list of commands, leaving out those that are not link commands. */
  function ReadAll(read: S.Command -> Option<Request>, commands: seq<S.Command>): seq<Request> {
    if commands == [] then []
    else
      var r := read(commands[0]);
      (if r.Some? then [r.value] else []) + ReadAll(read, commands[1..])
  }

  lemma {:induction false} ReadAllSplits(read: S.Command -> Option<Request>, a: seq<S.Command>, b: seq<S.Command>)
    ensures ReadAll(read, a + b) == ReadAll(read, a) + ReadAll(read, b)
    decreases |a|
  {
    if a == [] {
      assert a + b == b;
    } else {
      assert (a + b)[1..] == a[1..] + b && (a + b)[0] == a[0];
      ReadAllSplits(read, a[1..], b);
      var first := if read(a[0]).Some? then [read(a[0]).value] else [];
      assert first + (ReadAll(read, a[1..]) + ReadAll(read, b)) == first + ReadAll(read, a[1..]) + ReadAll(read, b);
    }
  }

  ghost predicate NoBlankEnds(g: Group)
    requires ValidPlanGroup(g)
  {
    forall i :: 0 <= i < |g.files| ==> !EndsBlank(g.files[i])
  }

  function FileCommand(g: Group, index: nat, bin: string): S.Command
    requires g.keep < |g.files| && index < |g.files|
  {
    S.LinkWords(bin, PathText(g.files[g.keep]), PathText(g.files[index]), g.hash)
  }

  lemma {:induction false} ReadAllIsShort(read: S.Command -> Option<Request>, commands: seq<S.Command>)
    ensures |ReadAll(read, commands)| <= |commands|
    decreases |commands|
  {
    if commands != [] {
      ReadAllIsShort(read, commands[1..]);
    }
  }

  lemma {:induction false} GroupIsRead(g: Group, index: nat, bin: string, read: S.Command -> Option<Request>)
    requires g.keep < |g.files| && index <= |g.files|
    ensures ReadAll(read, S.GroupCommands(Written(g), index, bin)) == GroupRequests(g, index)
            <==> forall i :: index <= i < |g.files| && i != g.keep ==>
                   read(FileCommand(g, i, bin)) == Some(Request(g.files[g.keep], g.files[i], g.hash))
    ensures |ReadAll(read, S.GroupCommands(Written(g), index, bin))| <= |GroupRequests(g, index)|
    decreases |g.files| - index
  {
    if index < |g.files| {
      GroupIsRead(g, index + 1, bin, read);
      if index != g.keep {
        var others, requests := S.GroupCommands(Written(g), index + 1, bin), GroupRequests(g, index + 1);
        assert S.GroupCommands(Written(g), index, bin) == [FileCommand(g, index, bin)] + others;
        assert ([FileCommand(g, index, bin)] + others)[1..] == others;
        var found := read(FileCommand(g, index, bin));
        HeadDecides(if found.Some? then [found.value] else [], ReadAll(read, others),
                    Request(g.files[g.keep], g.files[index], g.hash), requests);
      }
    }
  }

  lemma HeadDecides(head: seq<Request>, tail: seq<Request>, first: Request, more: seq<Request>)
    requires |head| <= 1 && |tail| <= |more|
    ensures head + tail == [first] + more <==> head == [first] && tail == more
  {
    if head + tail == [first] + more {
      assert |head| == 1 && (head + tail)[0] == first && (head + tail)[1..] == tail && ([first] + more)[1..] == more;
    }
  }

  /** The commands of a group are read as its requests exactly if no path ends in white space. */
  ghost predicate ReadExactly(read: S.Command -> Option<Request>, g: Group, bin: string)
    requires ValidPlanGroup(g)
  {
    && (ReadAll(read, S.GroupCommands(Written(g), 0, bin)) == GroupRequests(g, 0) <==> NoBlankEnds(g))
    && |ReadAll(read, S.GroupCommands(Written(g), 0, bin))| <= |GroupRequests(g, 0)|
  }

  lemma ExactlyMeans(read: S.Command -> Option<Request>, g: Group, bin: string)
    requires ValidPlanGroup(g) && ReadExactly(read, g, bin)
    ensures ReadAll(read, S.GroupCommands(Written(g), 0, bin)) == GroupRequests(g, 0) <==> NoBlankEnds(g)
    ensures |ReadAll(read, S.GroupCommands(Written(g), 0, bin))| <= |GroupRequests(g, 0)|
  {
  }

  lemma GroupIsReadByProgram(g: Group, bin: string)
    requires ValidPlanGroup(g)
    ensures ReadExactly(c => ReadCommand(bin, c), g, bin)
  {
    hide ReadCommand;
    var read := c => ReadCommand(bin, c);
    forall i | 0 <= i < |g.files| && i != g.keep
      ensures read(FileCommand(g, i, bin)) == Some(Request(g.files[g.keep], g.files[i], g.hash))
              <==> !EndsBlank(g.files[g.keep]) && !EndsBlank(g.files[i])
    {
      CommandIsRequest(bin, g.files[g.keep], g.files[i], g.hash);
    }
    GroupIsRead(g, 0, bin, read);
    var other := if g.keep == 0 then 1 else 0;
    assert other != g.keep && other < |g.files|;
  }

  /**
   The script written for a plan, read back by the shell and by the program's own argument parser, makes exactly one
   request for every file that is not kept, in order, if and only if no listed path ends in white space.
   */
  lemma PlanIsRead(groups: seq<Group>, summary: string, bin: string, commands: seq<S.Command>)
    requires ValidPlan(groups) && bin != "echo" && ScriptReads(groups, summary, bin, commands)
    ensures ReadAll(c => ReadCommand(bin, c), commands) == PlanRequests(groups, 0)
            <==> forall i :: 0 <= i < |groups| ==> NoBlankEnds(groups[i])
  {
    hide ValidPlanGroup, NoBlankEnds, PlanRequests, ReadExactly;
    WrittenIsValid(groups);
    S.ScriptIsRead(AllWritten(groups), 0, summary, bin, map[S.BIN := bin]);
    var read := c => ReadCommand(bin, c);
    forall i | 0 <= i < |groups|
      ensures ReadExactly(read, groups[i], bin)
    {
      GroupIsReadByProgram(groups[i], bin);
    }
    CommandsAreRead(groups, 0, summary, bin, read);
  }

  /** The shell reads the script written for the plan as these commands. */
  ghost predicate ScriptReads(groups: seq<Group>, summary: string, bin: string, commands: seq<S.Command>)
    requires ValidPlan(groups)
  {
    WrittenIsValid(groups);
    S.Unquoted(S.Body(AllWritten(groups), 0, summary), None, [], map[S.BIN := bin]) == Some(commands)
  }

  lemma ScriptIsReadable(groups: seq<Group>, summary: string, bin: string)
    requires ValidPlan(groups)
    ensures exists commands :: ScriptReads(groups, summary, bin, commands)
  {
    WrittenIsValid(groups);
    S.ScriptIsRead(AllWritten(groups), 0, summary, bin, map[S.BIN := bin]);
    assert ScriptReads(groups, summary, bin, S.AllCommands(AllWritten(groups), 0, summary, bin));
  }

  lemma WrittenGroupIsValid(g: Group)
    requires ValidPlanGroup(g)
    ensures S.ValidGroup(Written(g)) && S.OneLine(Written(g).reclaimable)
  {
  }

  lemma WrittenIsValid(groups: seq<Group>)
    requires forall i :: 0 <= i < |groups| ==> ValidPlanGroup(groups[i])
    ensures forall g :: g in AllWritten(groups) ==> S.ValidGroup(g) && S.OneLine(g.reclaimable)
  {
    var written := AllWritten(groups);
    forall g | g in written ensures S.ValidGroup(g) && S.OneLine(g.reclaimable) {
      var i :| 0 <= i < |written| && written[i] == g;
      WrittenGroupIsValid(groups[i]);
    }
  }

  lemma {:induction false} CommandsAreRead(groups: seq<Group>, index: nat, summary: string, bin: string,
                                           read: S.Command -> Option<Request>)
    requires index <= |groups| && forall i :: 0 <= i < |groups| ==> ValidPlanGroup(groups[i])
    requires forall i :: 0 <= i < |groups| ==>
               ValidPlanGroup(groups[i]) && ReadExactly(read, groups[i], bin)
    requires read(["echo", summary]) == None
    requires forall g :: g in AllWritten(groups) ==> S.ValidGroup(g)
    ensures ReadAll(read, S.AllCommands(AllWritten(groups), index, summary, bin)) == PlanRequests(groups, index)
            <==> forall i :: index <= i < |groups| ==> NoBlankEnds(groups[i])
    ensures |ReadAll(read, S.AllCommands(AllWritten(groups), index, summary, bin))| <= |PlanRequests(groups, index)|
    decreases |groups| - index
  {
    hide NoBlankEnds, GroupRequests, ReadAll, S.GroupCommands, S.ValidGroup, ReadExactly;
    if index == |groups| {
      EchoIsSkipped(read, ["echo", summary]);
    } else {
      CommandsAreRead(groups, index + 1, summary, bin, read);
      assert S.ValidGroup(AllWritten(groups)[index]);
      var group := S.GroupCommands(Written(groups[index]), 0, bin);
      var more := S.AllCommands(AllWritten(groups), index + 1, summary, bin);
      assert S.AllCommands(AllWritten(groups), index, summary, bin) == group + more;
      ReadAllSplits(read, group, more);
      ExactlyMeans(read, groups[index], bin);
      PartsDecide(ReadAll(read, group), ReadAll(read, more), GroupRequests(groups[index], 0),
                  PlanRequests(groups, index + 1));
    }
  }

  lemma PartsDecide(a: seq<Request>, b: seq<Request>, c: seq<Request>, d: seq<Request>)
    requires |a| <= |c| && |b| <= |d|
    ensures a + b == c + d <==> a == c && b == d
  {
    if a + b == c + d {
      assert |a| == |c| && (a + b)[..|a|] == a && (c + d)[..|c|] == c && (a + b)[|a|..] == b && (c + d)[|c|..] == d;
    }
  }

  lemma EchoIsSkipped(read: S.Command -> Option<Request>, echo: S.Command)
    requires read(echo) == None
    ensures ReadAll(read, [echo]) == []
  {
    assert [echo][1..] == [];
  }

  /** No file that one request relies on is replaced by another request. */
  ghost predicate KeepersAreKept(requests: seq<Request>) {
    forall i, j :: 0 <= i < |requests| && 0 <= j < |requests| ==> requests[i].replace != requests[j].keep
  }

  /** Where a request of a group comes from. */
  ghost predicate FromGroup(g: Group, index: nat, r: Request)
    requires g.keep < |g.files|
  {
    && r.keep == g.files[g.keep] && r.hash == g.hash
    && exists a :: index <= a < |g.files| && a != g.keep && r.replace == g.files[a]
  }

  lemma {:induction false} GroupRequestsFrom(g: Group, index: nat)
    requires g.keep < |g.files| && index <= |g.files|
    ensures forall r :: r in GroupRequests(g, index) ==> FromGroup(g, index, r)
    decreases |g.files| - index
  {
    if index < |g.files| {
      GroupRequestsFrom(g, index + 1);
      forall r | r in GroupRequests(g, index) ensures FromGroup(g, index, r) {
        if index != g.keep && r == GroupRequests(g, index)[0] {
        } else {
          assert FromGroup(g, index + 1, r);
        }
      }
    }
  }

  lemma {:induction false} PlanRequestsFrom(groups: seq<Group>, index: nat)
    requires index <= |groups| && forall i :: 0 <= i < |groups| ==> ValidPlanGroup(groups[i])
    ensures forall r :: r in PlanRequests(groups, index) ==>
              exists i :: index <= i < |groups| && FromGroup(groups[i], 0, r)
    decreases |groups| - index
  {
    if index < |groups| {
      PlanRequestsFrom(groups, index + 1);
      GroupRequestsFrom(groups[index], 0);
      forall r | r in PlanRequests(groups, index)
        ensures exists i :: index <= i < |groups| && FromGroup(groups[i], 0, r)
      {
        if r in GroupRequests(groups[index], 0) {
          assert FromGroup(groups[index], 0, r);
        } else {
          assert r in PlanRequests(groups, index + 1);
        }
      }
    }
  }

  /** For every grouping and every choice of keepers, no keeper is replaced. */
  lemma PlanKeepsKeepers(groups: seq<Group>)
    requires ValidPlan(groups)
    ensures KeepersAreKept(PlanRequests(groups, 0))
  {
    PlanRequestsFrom(groups, 0);
    var requests := PlanRequests(groups, 0);
    forall x, y | 0 <= x < |requests| && 0 <= y < |requests| ensures requests[x].replace != requests[y].keep {
      assert requests[x] in requests && requests[y] in requests;
      var i :| 0 <= i < |groups| && FromGroup(groups[i], 0, requests[x]);
      var j :| 0 <= j < |groups| && FromGroup(groups[j], 0, requests[y]);
      var a :| 0 <= a < |groups[i].files| && a != groups[i].keep && requests[x].replace == groups[i].files[a];
      assert ValidPlanGroup(groups[i]) && ValidPlanGroup(groups[j]);
    }
  }

  // ---- Running the plan on a quiet disk --------------------------------------------------------------------------

  /** No two files that were ever on this disk have the same hash and different contents. */
  ghost predicate CollisionFree(sha: Content -> string, s: State) {
    forall i, j :: i in s.inodes && j in s.inodes && sha(s.inodes[i].content) == sha(s.inodes[j].content) ==>
      s.inodes[i].content == s.inodes[j].content
  }

  /** The path is a link to a regular file whose hash is that of the file the path led to at the start. */
  ghost predicate Replaced(sha: Content -> string, start: State, s: State, r: Request)
    requires L.RegularFile(start, r.replace)
  {
    && L.LinkInPlace(s, r.replace, r.keep) && L.RegularFile(s, r.keep)
    && sha(s.inodes[s.names[r.keep]].content) == sha(start.inodes[start.names[r.replace]].content)
  }

  /** Every file of the start is where it was, or replaced by one of the first `done` requests; `except` are left out. */
  ghost predicate Progress(sha: Content -> string, start: State, s: State, requests: seq<Request>, done: nat,
                           except: set<Path>)
  {
    && done <= |requests|
    && (forall i :: i in start.inodes ==> i in s.inodes && s.inodes[i] == start.inodes[i])
    && (forall p :: L.RegularFile(start, p) && p !in except ==>
          SameBinding(start, s, p) || ByRequest(sha, start, s, requests, done, p))
    && (forall j :: 0 <= j < done && requests[j].replace !in except ==>
          L.LinkInPlace(s, requests[j].replace, requests[j].keep))
  }

  ghost predicate ByRequest(sha: Content -> string, start: State, s: State, requests: seq<Request>, done: nat, p: Path)
    requires L.RegularFile(start, p) && done <= |requests|
  {
    exists j :: 0 <= j < done && requests[j].replace == p && Replaced(sha, start, s, requests[j])
  }

  /** What one request does on a quiet disk. */
  ghost predicate QuietStep(sha: Content -> string, s: State, t: State, r: Request, o: L.Outcome) {
    && (forall i :: i in s.inodes ==> i in t.inodes && t.inodes[i] == s.inodes[i])
    && (forall p :: p in s.names && p != r.replace ==> SameBinding(s, t, p))
    && (o.Linked? ==> L.RegularFile(s, r.replace) && L.RegularFile(s, r.keep) && Replaced(sha, s, t, r))
    && (o.Refused? || o.Restored? ==> r.replace in s.names ==> SameBinding(s, t, r.replace))
    && (o.Stranded? ==> r.replace in s.names && Names(t, L.Payload(o.workspace), s.names[r.replace]))
  }

  ghost predicate WellNamed(r: Request) {
    Clean(r.keep) && r.replace != []
  }

  /** The request names two duplicates, and the link that would replace one of them is acceptable. */
  ghost predicate Fulfillable(s: State, sha: Content -> string, r: Request) {
    L.Replaceable(s, sha, r.keep, r.replace, r.hash)
  }

  /** Where nobody else acts, what was verified on the way is what was there before and is there after. */
  lemma JustifiedOnQuietDisk(past: seq<State>, own: set<Path>, sha: Content -> string, r: Request, w: Path, d: nat,
                             e: L.Evidence)
    requires |past| > 0 && Chain(past, own, {}, true) && own <= L.Touched(r.replace, w)
    requires Names(past[0], r.replace, d) && L.Justified(past, sha, true, r.keep, r.replace, w, r.hash, d, e)
    ensures L.RegularFile(past[0], r.replace) && L.RegularFile(past[0], r.keep)
    ensures var t := past[|past| - 1];
            L.RegularFile(t, r.keep) && sha(t.inodes[t.names[r.keep]].content) == sha(past[0].inodes[d].content)
  {
    assert Evolves(past[0], past[|past| - 1], own, {}, true);
    assert Evolves(past[0], past[e.inspected], own, {}, true);
    assert SameBinding(past[0], past[e.inspected], r.keep) && SameBinding(past[0], past[|past| - 1], r.keep);
    assert L.RegularAt(past[e.inspected], r.keep, e.keeper);
  }

  method RunRequest(fs: FileSystem, r: Request) returns (o: L.Outcome)
    requires fs.Valid()
    modifies fs
    ensures fs.Valid() && (fs.calm ==> QuietStep(fs.sha, old(fs.state), fs.state, r, o))
    ensures fs.reliable ==> !o.Stranded?
    ensures (&& fs.calm && fs.reliable && fs.hops >= 1 && WellNamed(r)) ==>
              (o.Linked? && o.cleared <==> Fulfillable(old(fs.state), fs.sha, r))
  {
    hide L.Replaceable, L.Justified;
    ghost var d, e;
    o, d, e := L.ReplaceDuplicate(fs, r.keep, r.replace, r.hash);
    ghost var s, t := old(fs.state), fs.state;
    assert fs.past[0] == s;
    if fs.calm {
      assert Evolves(fs.past[0], fs.past[|fs.past| - 1], fs.own, fs.ruined, fs.calm);
      forall p | p in s.names && p != r.replace ensures SameBinding(s, t, p) {
        assert p !in fs.own;
      }
      if o.Linked? {
        JustifiedOnQuietDisk(fs.past, fs.own, fs.sha, r, o.workspace, d, e);
      }
    }
  }

  /** A path that the current request does not replace keeps its standing. */
  lemma FileStays(sha: Content -> string, start: State, s: State, t: State, requests: seq<Request>, done: nat,
                  o: L.Outcome, p: Path)
    requires done < |requests| && KeepersAreKept(requests) && Progress(sha, start, s, requests, done, {})
    requires QuietStep(sha, s, t, requests[done], o)
    requires L.RegularFile(start, p) && (p != requests[done].replace || o.Refused? || o.Restored?)
    ensures SameBinding(start, t, p) || ByRequest(sha, start, t, requests, done, p)
  {
    if SameBinding(start, s, p) {
      assert SameBinding(s, t, p);
    } else {
      var j :| 0 <= j < done && requests[j].replace == p && Replaced(sha, start, s, requests[j]);
      var keep := requests[j].keep;
      assert requests[done].replace != keep && SameBinding(s, t, keep) && SameBinding(s, t, p);
      assert Replaced(sha, start, t, requests[j]);
    }
  }

  lemma LinkStays(sha: Content -> string, start: State, s: State, t: State, requests: seq<Request>, done: nat,
                  o: L.Outcome, j: nat)
    requires j < done < |requests| && Progress(sha, start, s, requests, done, {})
    requires QuietStep(sha, s, t, requests[done], o)
    requires requests[j].replace != requests[done].replace || !o.Stranded?
    ensures L.LinkInPlace(t, requests[j].replace, requests[j].keep)
  {
    assert L.LinkInPlace(s, requests[j].replace, requests[j].keep);
    if requests[j].replace != requests[done].replace {
      assert SameBinding(s, t, requests[j].replace);
    }
  }

  /** What a request that stopped the run leaves behind. */
  lemma StopKeepsProgress(sha: Content -> string, start: State, s: State, t: State, requests: seq<Request>, done: nat,
                          o: L.Outcome)
    requires done < |requests| && KeepersAreKept(requests) && Progress(sha, start, s, requests, done, {})
    requires QuietStep(sha, s, t, requests[done], o) && !o.Linked?
    ensures Progress(sha, start, t, requests, done, if o.Stranded? then {requests[done].replace} else {})
  {
    var except := if o.Stranded? then {requests[done].replace} else {};
    forall p | L.RegularFile(start, p) && p !in except
      ensures SameBinding(start, t, p) || ByRequest(sha, start, t, requests, done, p)
    {
      FileStays(sha, start, s, t, requests, done, o, p);
    }
    forall j | 0 <= j < done && requests[j].replace !in except
      ensures L.LinkInPlace(t, requests[j].replace, requests[j].keep)
    {
      LinkStays(sha, start, s, t, requests, done, o, j);
    }
  }

  lemma LinkMakesProgress(sha: Content -> string, start: State, s: State, t: State, requests: seq<Request>, done: nat,
                          o: L.Outcome)
    requires done < |requests| && KeepersAreKept(requests) && Progress(sha, start, s, requests, done, {})
    requires QuietStep(sha, s, t, requests[done], o) && o.Linked?
    ensures Progress(sha, start, t, requests, done + 1, {})
  {
    var r := requests[done];
    assert Replaced(sha, s, t, r);
    forall p | L.RegularFile(start, p)
      ensures SameBinding(start, t, p) || ByRequest(sha, start, t, requests, done + 1, p)
    {
      if p != r.replace {
        FileStays(sha, start, s, t, requests, done, o, p);
        if !SameBinding(start, t, p) {
          var j :| 0 <= j < done && requests[j].replace == p && Replaced(sha, start, t, requests[j]);
        }
      } else {
        // A link is not replaced again, so the path was not replaced before.
        assert SameBinding(start, s, p);
        assert Replaced(sha, start, t, r);
      }
    }
    forall j | 0 <= j < done + 1 ensures L.LinkInPlace(t, requests[j].replace, requests[j].keep) {
      if j < done {
        LinkStays(sha, start, s, t, requests, done, o, j);
      }
    }
  }

  ghost predicate ReplacedOnce(requests: seq<Request>) {
    forall i, j :: 0 <= i < j < |requests| ==> requests[i].replace != requests[j].replace
  }

  /** From `done` on, every request can be fulfilled. */
  ghost predicate AllFulfillable(s: State, sha: Content -> string, requests: seq<Request>, done: nat) {
    forall j :: done <= j < |requests| ==> WellNamed(requests[j]) && Fulfillable(s, sha, requests[j])
  }

  lemma {:induction false} GroupReplacesOnce(g: Group, index: nat)
    requires g.keep < |g.files| && index <= |g.files| && Distinct(g.files)
    ensures ReplacedOnce(GroupRequests(g, index))
    decreases |g.files| - index
  {
    if index < |g.files| {
      GroupReplacesOnce(g, index + 1);
      GroupRequestsFrom(g, index + 1);
      var more := GroupRequests(g, index + 1);
      forall j | 0 <= j < |more| ensures more[j].replace != g.files[index] {
        assert FromGroup(g, index + 1, more[j]);
      }
    }
  }

  /** No file is replaced twice. */
  lemma {:induction false} PlanReplacesOnce(groups: seq<Group>, index: nat)
    requires index <= |groups| && ValidPlan(groups)
    ensures ReplacedOnce(PlanRequests(groups, index))
    decreases |groups| - index
  {
    if index < |groups| {
      PlanReplacesOnce(groups, index + 1);
      GroupReplacesOnce(groups[index], 0);
      GroupRequestsFrom(groups[index], 0);
      PlanRequestsFrom(groups, index + 1);
      var first, more := GroupRequests(groups[index], 0), PlanRequests(groups, index + 1);
      forall i, j | 0 <= i < |first| && 0 <= j < |more| ensures first[i].replace != more[j].replace {
        assert first[i] in first && more[j] in more && FromGroup(groups[index], 0, first[i]);
        var k :| index + 1 <= k < |groups| && FromGroup(groups[k], 0, more[j]);
      }
    }
  }

  /** On the disk, the kept file of a group and each of the others are duplicates, and none is a directory of another. */
  ghost predicate AsScanned(s: State, sha: Content -> string, g: Group)
    requires g.keep < |g.files|
  {
    forall a :: 0 <= a < |g.files| && a != g.keep ==>
      L.Twins(s, sha, g.files[g.keep], g.files[a], g.hash) && Parent(g.files[a]) != g.files[g.keep]
  }

  lemma LinkTargetIsUsable(keep: Path, replace: Path)
    requires ProperPath(keep) && !EndsBlank(keep) && Parent(replace) != keep
    ensures !L.UnusableTarget(Rel(Parent(replace), keep))
  {
    var base, rel := Parent(replace), Rel(Parent(replace), keep);
    if base <= keep {
      assert rel == keep[|base|..] && rel[|rel| - 1] == keep[|keep| - 1];
      assert IsSpace(Last(keep[|keep| - 1])) == false;
    } else {
      assert !IsSpace(rel[0][0]);
    }
  }

  lemma RequestIsFulfillable(g: Group, s: State, sha: Content -> string, r: Request)
    requires ValidPlanGroup(g) && NoBlankEnds(g) && AsScanned(s, sha, g) && FromGroup(g, 0, r)
    ensures WellNamed(r) && Fulfillable(s, sha, r)
  {
    var a :| 0 <= a < |g.files| && a != g.keep && r.replace == g.files[a];
    LinkTargetIsUsable(r.keep, r.replace);
  }

  /** On a disk that is still as it was scanned, the plan meets all that its run to the end asks for. */
  lemma PlanIsFulfillable(groups: seq<Group>, s: State, sha: Content -> string)
    requires ValidPlan(groups)
    requires forall i :: 0 <= i < |groups| ==> NoBlankEnds(groups[i]) && AsScanned(s, sha, groups[i])
    ensures KeepersAreKept(PlanRequests(groups, 0)) && ReplacedOnce(PlanRequests(groups, 0))
    ensures AllFulfillable(s, sha, PlanRequests(groups, 0), 0)
  {
    hide Fulfillable, AsScanned, NoBlankEnds, KeepersAreKept, ReplacedOnce, WellNamed, PlanRequests;
    PlanKeepsKeepers(groups);
    PlanReplacesOnce(groups, 0);
    PlanRequestsFrom(groups, 0);
    var requests := PlanRequests(groups, 0);
    forall x | 0 <= x < |requests|
      ensures WellNamed(requests[x]) && Fulfillable(s, sha, requests[x])
    {
      assert requests[x] in requests;
      var i :| 0 <= i < |groups| && FromGroup(groups[i], 0, requests[x]);
      RequestIsFulfillable(groups[i], s, sha, requests[x]);
    }
  }

  lemma OthersStayFulfillable(sha: Content -> string, s: State, t: State, requests: seq<Request>, done: nat, o: L.Outcome)
    requires done < |requests| && KeepersAreKept(requests) && ReplacedOnce(requests)
    requires AllFulfillable(s, sha, requests, done) && QuietStep(sha, s, t, requests[done], o)
    ensures AllFulfillable(t, sha, requests, done + 1)
  {
    forall j | done + 1 <= j < |requests|
      ensures WellNamed(requests[j]) && Fulfillable(t, sha, requests[j])
    {
      var r := requests[j];
      assert WellNamed(r) && Fulfillable(s, sha, r);
      assert SameBinding(s, t, r.keep) && SameBinding(s, t, r.replace);
    }
  }

  /**
   Runs the requests in order and stops at the first one that is not completed, as the script does. On a quiet disk
   (`calm`) every file of the start then still reads the same bytes, all links lead to the files that were kept, and
   no kept file is replaced. A stranded duplicate is in its workspace. When no call fails for a reason of its own either,
   a plan whose requests can all be fulfilled is run to its end.
   */
  method RunPlan(fs: FileSystem, requests: seq<Request>) returns (done: nat, last: Option<L.Outcome>)
    requires fs.Valid() && KeepersAreKept(requests)
    modifies fs
    ensures fs.Valid() && done <= |requests| && (last.None? ==> done == |requests|)
    ensures last.Some? ==> !last.value.Linked? || !last.value.cleared
    ensures last.Some? && !last.value.Linked? ==> done < |requests|
    ensures fs.calm ==>
              Progress(fs.sha, old(fs.state), fs.state, requests, done,
                       if last.Some? && last.value.Stranded? then {requests[done].replace} else {})
    ensures fs.calm && last.Some? && last.value.Stranded? && L.RegularFile(old(fs.state), requests[done].replace)
            && (forall j :: 0 <= j < done ==> requests[j].replace != requests[done].replace) ==>
              Names(fs.state, L.Payload(last.value.workspace), old(fs.state).names[requests[done].replace])
    ensures fs.reliable && last.Some? ==> !last.value.Stranded?
    ensures (&& fs.calm && fs.reliable && fs.hops >= 1 && ReplacedOnce(requests)
             && AllFulfillable(old(fs.state), fs.sha, requests, 0)) ==> last.None?
  {
    done, last := 0, None;
    ghost var start := fs.state;
    ghost var smooth := fs.calm && fs.reliable && fs.hops >= 1 && ReplacedOnce(requests)
                        && AllFulfillable(start, fs.sha, requests, 0);
    if fs.calm {
      assert Evolves(fs.past[|fs.past| - 1], fs.past[|fs.past| - 1], fs.own, fs.ruined, fs.calm);
    }
    while done < |requests|
      invariant fs.Valid() && done <= |requests|
      invariant fs.calm ==> Progress(fs.sha, start, fs.state, requests, done, {})
      invariant smooth ==> AllFulfillable(fs.state, fs.sha, requests, done)
    {
      ghost var s := fs.state;
      var o := RunRequest(fs, requests[done]);
      if !o.Linked? {
        if fs.calm {
          StopKeepsProgress(fs.sha, start, s, fs.state, requests, done, o);
        }
        return done, Some(o);
      }
      if fs.calm {
        LinkMakesProgress(fs.sha, start, s, fs.state, requests, done, o);
      }
      if smooth {
        OthersStayFulfillable(fs.sha, s, fs.state, requests, done, o);
      }
      done := done + 1;
      if !o.cleared {
        return done, Some(o);
      }
    }
  }

  /** The contents a path reads as. */
  ghost function Bytes(s: State, p: Path, hops: nat): Option<Content>
    requires WellFormed(s)
  {
    var i := Follow(s, p, hops);
    if i.Some? then Some(s.inodes[i.value].content) else None
  }

  /** Whatever the run reached, every file still reads as at the start, and the kept files are where they were. */
  lemma PlanKeepsBytes(sha: Content -> string, start: State, s: State, requests: seq<Request>, done: nat,
                       except: set<Path>, hops: nat, p: Path)
    requires WellFormed(start) && WellFormed(s) && hops >= 1
    requires Progress(sha, start, s, requests, done, except) && CollisionFree(sha, s)
    requires forall j :: 0 <= j < |requests| ==> Clean(requests[j].keep)
    requires L.RegularFile(start, p) && p !in except
    ensures Bytes(s, p, hops) == Bytes(start, p, hops) == Some(start.inodes[start.names[p]].content)
    ensures KeepersAreKept(requests) && (exists j :: 0 <= j < |requests| && requests[j].keep == p) ==>
              SameBinding(start, s, p)
  {
    if !SameBinding(start, s, p) {
      var j :| 0 <= j < done && requests[j].replace == p && Replaced(sha, start, s, requests[j]);
      var keep := requests[j].keep;
      RelLeadsBack(Parent(p), keep);
      assert Follow(s, p, hops) == Follow(s, keep, hops - 1) == Some(s.names[keep]);
      assert start.names[p] in s.inodes;
    }
  }

  // ---- From the reviewed plan to the disk ------------------------------------------------------------------------

  /** As above, where the kept files were there at the start: only what was on the disk then must be free of collisions. */
  lemma ScannedFilesKeepBytes(sha: Content -> string, start: State, s: State, requests: seq<Request>, done: nat,
                              except: set<Path>, hops: nat, p: Path)
    requires WellFormed(start) && WellFormed(s) && hops >= 1
    requires Progress(sha, start, s, requests, done, except) && CollisionFree(sha, start) && KeepersAreKept(requests)
    requires forall j :: 0 <= j < |requests| ==> Clean(requests[j].keep) && L.RegularFile(start, requests[j].keep)
    requires forall q :: q in except ==> exists j :: 0 <= j < |requests| && requests[j].replace == q
    requires L.RegularFile(start, p) && p !in except
    ensures Bytes(s, p, hops) == Bytes(start, p, hops) == Some(start.inodes[start.names[p]].content)
  {
    if !SameBinding(start, s, p) {
      var j :| 0 <= j < done && requests[j].replace == p && Replaced(sha, start, s, requests[j]);
      var keep := requests[j].keep;
      KeptStays(sha, start, s, requests, done, except, j);
      RelLeadsBack(Parent(p), keep);
      assert Follow(s, p, hops) == Follow(s, keep, hops - 1) == Some(s.names[keep]);
    }
  }

  lemma KeptStays(sha: Content -> string, start: State, s: State, requests: seq<Request>, done: nat, except: set<Path>,
                  j: nat)
    requires Progress(sha, start, s, requests, done, except) && KeepersAreKept(requests) && j < |requests|
    requires forall q :: q in except ==> exists j :: 0 <= j < |requests| && requests[j].replace == q
    requires L.RegularFile(start, requests[j].keep)
    ensures SameBinding(start, s, requests[j].keep)
  {
  }

  /** The path of the duplicate that a run left stranded, if it did. */
  ghost function StrandedPaths(requests: seq<Request>, done: nat, last: Option<L.Outcome>): set<Path> {
    if last.Some? && last.value.Stranded? && done < |requests| then {requests[done].replace} else {}
  }

  /**
   The script written for a reviewed plan, read by the shell and by the program, and run on a disk that is as it was
   scanned and where nobody else acts: every file still reads the same bytes, but for a duplicate that a failing call
   left in its workspace; the kept files are where they were; and if no call fails for a reason of its own, every other
   listed file is a link to its kept copy in the end.
   */
  method RunScript(fs: FileSystem, groups: seq<Group>, summary: string, bin: string, commands: seq<S.Command>)
    returns (done: nat, last: Option<L.Outcome>)
    requires fs.Valid() && fs.calm && fs.hops >= 1 && CollisionFree(fs.sha, fs.state)
    requires ValidPlan(groups) && bin != "echo" && ScriptReads(groups, summary, bin, commands)
    requires forall i :: 0 <= i < |groups| ==> NoBlankEnds(groups[i]) && AsScanned(fs.state, fs.sha, groups[i])
    modifies fs
    ensures fs.Valid()
    ensures forall p :: L.RegularFile(old(fs.state), p) && p !in StrandedPaths(PlanRequests(groups, 0), done, last) ==>
              Bytes(fs.state, p, fs.hops) == Some(old(fs.state).inodes[old(fs.state).names[p]].content)
    ensures forall i :: 0 <= i < |groups| ==> SameBinding(old(fs.state), fs.state, groups[i].files[groups[i].keep])
    ensures fs.reliable ==>
              && last.None? && done == |PlanRequests(groups, 0)|
              && forall i, a :: 0 <= i < |groups| && 0 <= a < |groups[i].files| && a != groups[i].keep ==>
                   L.LinkInPlace(fs.state, groups[i].files[a], groups[i].files[groups[i].keep])
  {
    hide ReadCommand, ReadAll, Progress, AsScanned, NoBlankEnds, ScriptReads, Chain, AllFulfillable, KeepersAreKept,
      ReplacedOnce, CollisionFree, PlanRequests, L.RegularFile, L.LinkInPlace, Bytes;
    ghost var start := fs.state;
    L.ChainIsSound(fs.past, fs.own, fs.ruined, fs.calm);
    PlanIsRead(groups, summary, bin, commands);
    PlanIsFulfillable(groups, fs.state, fs.sha);
    var requests := ReadAll(c => ReadCommand(bin, c), commands);
    done, last := RunPlan(fs, requests);
    L.ChainIsSound(fs.past, fs.own, fs.ruined, fs.calm);
    PlanIsKept(fs.sha, start, fs.state, groups, done, last, fs.hops);
    if fs.reliable {
      AllAreLinks(fs.sha, start, fs.state, groups);
    }
  }

  lemma PlanIsKept(sha: Content -> string, start: State, s: State, groups: seq<Group>, done: nat, last: Option<L.Outcome>,
                   hops: nat)
    requires ValidPlan(groups) && WellFormed(start) && WellFormed(s) && hops >= 1 && CollisionFree(sha, start)
    requires forall i :: 0 <= i < |groups| ==> AsScanned(start, sha, groups[i])
    requires var requests := PlanRequests(groups, 0);
             KeepersAreKept(requests) && Progress(sha, start, s, requests, done, StrandedPaths(requests, done, last))
    ensures forall p :: L.RegularFile(start, p) && p !in StrandedPaths(PlanRequests(groups, 0), done, last) ==>
              Bytes(s, p, hops) == Some(start.inodes[start.names[p]].content)
    ensures forall i :: 0 <= i < |groups| ==> SameBinding(start, s, groups[i].files[groups[i].keep])
  {
    hide Progress, CollisionFree, AsScanned, KeepersAreKept, PlanRequests;
    var requests := PlanRequests(groups, 0);
    forall j | 0 <= j < |requests| ensures Clean(requests[j].keep) && L.RegularFile(start, requests[j].keep) {
      RequestIsScanned(groups, start, sha, j);
    }
    forall p | L.RegularFile(start, p) && p !in StrandedPaths(requests, done, last)
      ensures Bytes(s, p, hops) == Some(start.inodes[start.names[p]].content)
    {
      ScannedFilesKeepBytes(sha, start, s, requests, done, StrandedPaths(requests, done, last), hops, p);
    }
    forall i | 0 <= i < |groups| ensures SameBinding(start, s, groups[i].files[groups[i].keep]) {
      var other := if groups[i].keep == 0 then 1 else 0;
      assert ValidPlanGroup(groups[i]);
      var j := RequestFor(groups, 0, i, other);
      KeptStays(sha, start, s, requests, done, StrandedPaths(requests, done, last), j);
    }
  }

  lemma RequestIsScanned(groups: seq<Group>, s: State, sha: Content -> string, j: nat)
    requires ValidPlan(groups) && j < |PlanRequests(groups, 0)|
    requires forall i :: 0 <= i < |groups| ==> AsScanned(s, sha, groups[i])
    ensures var r := PlanRequests(groups, 0)[j]; Clean(r.keep) && L.RegularFile(s, r.keep)
  {
    hide PlanRequests;
    var r := PlanRequests(groups, 0)[j];
    PlanRequestsFrom(groups, 0);
    assert r in PlanRequests(groups, 0);
    var i :| 0 <= i < |groups| && FromGroup(groups[i], 0, r);
    var g := groups[i];
    var a :| 0 <= a < |g.files| && a != g.keep && r.replace == g.files[a];
    assert ValidPlanGroup(g) && AsScanned(s, sha, g);
  }

  lemma {:induction false} RequestInGroup(g: Group, index: nat, a: nat) returns (j: nat)
    requires g.keep < |g.files| && index <= a < |g.files| && a != g.keep
    ensures j < |GroupRequests(g, index)|
    ensures GroupRequests(g, index)[j] == Request(g.files[g.keep], g.files[a], g.hash)
    decreases |g.files| - index
  {
    if index == a {
      j := 0;
    } else {
      j := RequestInGroup(g, index + 1, a);
      if index != g.keep {
        j := j + 1;
      }
    }
  }

  /** Every listed file that is not kept has its request. */
  lemma {:induction false} RequestFor(groups: seq<Group>, index: nat, i: nat, a: nat) returns (j: nat)
    requires index <= i < |groups| && forall i :: 0 <= i < |groups| ==> ValidPlanGroup(groups[i])
    requires a < |groups[i].files| && a != groups[i].keep
    ensures j < |PlanRequests(groups, index)|
    ensures PlanRequests(groups, index)[j]
            == Request(groups[i].files[groups[i].keep], groups[i].files[a], groups[i].hash)
    decreases |groups| - index
  {
    if index == i {
      j := RequestInGroup(groups[i], 0, a);
    } else {
      j := RequestFor(groups, index + 1, i, a);
      j := |GroupRequests(groups[index], 0)| + j;
    }
  }

  lemma AllAreLinks(sha: Content -> string, start: State, s: State, groups: seq<Group>)
    requires ValidPlan(groups)
    requires Progress(sha, start, s, PlanRequests(groups, 0), |PlanRequests(groups, 0)|, {})
    ensures forall i, a :: 0 <= i < |groups| && 0 <= a < |groups[i].files| && a != groups[i].keep ==>
              L.LinkInPlace(s, groups[i].files[a], groups[i].files[groups[i].keep])
  {
    forall i, a | 0 <= i < |groups| && 0 <= a < |groups[i].files| && a != groups[i].keep
      ensures L.LinkInPlace(s, groups[i].files[a], groups[i].files[groups[i].keep])
    {
      assert ValidPlanGroup(groups[i]);
      var j := RequestFor(groups, 0, i, a);
      assert L.LinkInPlace(s, PlanRequests(groups, 0)[j].replace, PlanRequests(groups, 0)[j].keep);
    }
  }
}
