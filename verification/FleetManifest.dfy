/** The fleet manifest: its checks and the target tree it resolves to. */
module FleetManifest {
  import opened Base
  import opened Text
  import opened Paths
  import SharedDisk

  type Path = SharedDisk.Path

  const MANIFEST_VERSION := 1
  const DEFAULT_PARALLEL := 4
  const MAX_PARALLEL := 16
  const DEFAULT_TIMEOUT := 15
  const MAX_TIMEOUT := 120
  const MAX_TARGETS := 512
  const MAX_DEPTH := 8

  /** A target as it is written in a manifest. */
  datatype Entry = Entry(
    name: string, ssh: string, role: string, scope: string, binary: string, configDir: string,
    become: string, arch: string, sha: string, children: seq<Entry>)

  /** A target after it was checked. */
  datatype Target = Target(
    index: nat, name: string, ssh: string, role: string, scope: string, binary: Option<Path>,
    configDir: Option<Path>, become: string, arch: string, sha: string, timeout: nat, children: seq<Target>)

  /** A machine: its regular files, each with its SHA-256 unless it cannot be read, and its usable config directories. */
  datatype Host = Host(files: map<Path, Option<string>>, configDirs: set<Path>)

  /** What the checks depend on besides the entries. */
  datatype Settings = Settings(
    host: Host, base: Path, globalBinary: Option<Path>, requireBinary: bool, allowRelay: bool, timeout: nat)

  datatype Problem =
    | UnsupportedVersion | NoTargets | BadParallel | BadTimeout | BadGlobalBinary
    | TooDeep | TooManyTargets | BadName | DuplicateName | BadSsh | BadRole | RelayNotAllowed
    | RelayWithoutChildren | LeafWithChildren | NestedWithoutArch | BadScope | HelperNotSystem
    | BadBecome | UserWithSudo | BadArch | BadBinary | NoBinary | BadChecksum | UnreadableBinary | ChecksumMismatch
    | BadConfigDir | ChecksumRequired

  // ---- Field checks ----------------------------------------------------------------------------------------------

  predicate IsLabelChar(c: char) {
    'a' <= c <= 'z' || 'A' <= c <= 'Z' || '0' <= c <= '9' || c == '.' || c == '_' || c == '-'
  }

  predicate SafeLabel(s: string) {
    s != "" && s[0] != '-' && forall i :: 0 <= i < |s| ==> IsLabelChar(s[i])
  }

  /** The text before the first `@`, and what follows it. */
  function BeforeAt(s: string): string {
    if s == "" || s[0] == '@' then "" else [s[0]] + BeforeAt(s[1..])
  }

  function AfterAt(s: string): Option<string> {
    if s == "" then None else if s[0] == '@' then Some(s[1..]) else AfterAt(s[1..])
  }

  /** A host, or a user and a host joined by one `@`. */
  predicate SafeSsh(s: string) {
    && s != "" && s[0] != '-' && (forall c :: c in s ==> c !in {' ', '\t', '\r', '\n', ':'})
    && SafeLabel(BeforeAt(s)) && (AfterAt(s).Some? ==> SafeLabel(AfterAt(s).value))
  }

  predicate SafeConfigName(s: string) {
    SafeLabel(s) && s != "." && s != ".." && s[0] != '.'
  }

  predicate ValidSha(s: string) {
    |s| == 64 && forall i :: 0 <= i < |s| ==> IsHexDigit(s[i])
  }

  function NormalArch(value: string): string {
    var v := ToLower(TrimSpace(value));
    if v in {"amd64", "x86_64", "x86-64"} then "amd64"
    else if v in {"arm64", "aarch64"} then "arm64"
    else ""
  }

  /** A file named in the manifest: none if blank, otherwise the regular file it leads to. */
  function ResolveFile(m: Settings, value: string): Result<Option<Path>, Problem> {
    var v := TrimSpace(value);
    if v == "" then Ok(None)
    else
      var p := if v[0] == '/' then CleanPath(v) else CleanFrom(v, m.base, "");
      if p in m.host.files then Ok(Some(p)) else Err(BadBinary)
  }

  function ResolveConfigDir(m: Settings, value: string): Result<Option<Path>, Problem> {
    if TrimSpace(value) == "" then Ok(None)
    else
      var p := if value[0] == '/' then CleanPath(value) else CleanFrom(value, m.base, "");
      if p in m.host.configDirs then Ok(Some(p)) else Err(BadConfigDir)
  }

  function HashOf(host: Host, p: Path): Option<string> {
    if p in host.files then host.files[p] else None
  }

  // ---- One target ------------------------------------------------------------------------------------------------

  /** The scope and the privilege a target ends up with. */
  function ScopeOf(e: Entry): string {
    if RoleOf(e) == "relay" then "user"
    else if ToLower(TrimSpace(e.scope)) == "" then "system"
    else ToLower(TrimSpace(e.scope))
  }

  function RoleOf(e: Entry): string { ToLower(TrimSpace(e.role)) }

  function BecomeOf(e: Entry): string {
    var become := ToLower(TrimSpace(e.become));
    if RoleOf(e) == "relay" then "none"
    else if become != "" then become
    else if ScopeOf(e) == "user" then "none" else "sudo"
  }

  function ShaOf(e: Entry): string { ToLower(TrimSpace(e.sha)) }

  /** The checks on one entry that follow those on its name, in their order. The target's index is left open. */
  function CheckEntry(m: Settings, e: Entry, nested: bool): Result<Target, Problem> {
    var name, role, rawScope := TrimSpace(e.name), RoleOf(e), ToLower(TrimSpace(e.scope));
    var arch := NormalArch(TrimSpace(e.arch));
    if !SafeSsh(TrimSpace(e.ssh)) then Err(BadSsh)
    else if role !in {"node", "hub", "privileged-helper", "relay"} then Err(BadRole)
    else if role == "relay" && !m.allowRelay then Err(RelayNotAllowed)
    else if role == "relay" && e.children == [] then Err(RelayWithoutChildren)
    else if role != "relay" && e.children != [] then Err(LeafWithChildren)
    else if nested && arch == "" then Err(NestedWithoutArch)
    else if rawScope !in {"", "system", "user"} then Err(BadScope)
    else if role == "privileged-helper" && ScopeOf(e) != "system" then Err(HelperNotSystem)
    else if BecomeOf(e) !in {"sudo", "none"} then Err(BadBecome)
    else if ScopeOf(e) == "user" && BecomeOf(e) != "none" then Err(UserWithSudo)
    else if TrimSpace(e.arch) != "" && arch == "" then Err(BadArch)
    else
      var own := ResolveFile(m, e.binary);
      if own.Err? then Err(own.error)
      else
        var binary := if TrimSpace(e.binary) != "" then own.value else m.globalBinary;
        if binary.None? && m.requireBinary then Err(NoBinary)
        else if ShaOf(e) != "" && !ValidSha(ShaOf(e)) then Err(BadChecksum)
        else if ShaOf(e) != "" && binary.Some? && HashOf(m.host, binary.value).None? then Err(UnreadableBinary)
        else if ShaOf(e) != "" && binary.Some? && HashOf(m.host, binary.value) != Some(ShaOf(e))
          then Err(ChecksumMismatch)
        else
          var configDir := ResolveConfigDir(m, e.configDir);
          if configDir.Err? then Err(configDir.error)
          else Ok(Target(0, name, TrimSpace(e.ssh), role, ScopeOf(e), binary, configDir.value,
                         BecomeOf(e), arch, ShaOf(e), m.timeout, []))
  }

  // ---- The tree --------------------------------------------------------------------------------------------------

  /** Resolved targets, the number of entries visited so far and the names they took. */
  datatype Pass = Pass(targets: seq<Target>, index: nat, seen: set<string>)

  /** The checks that concern one entry alone; the walk adds those on its name and its place. */
  type Checks = (Entry, bool) -> Result<Target, Problem>

  function ChecksOf(m: Settings): Checks {
    (e, nested) => CheckEntry(m, e, nested)
  }

  /** A target with the place and the name it gets from the walk. */
  function Placed(check: Checks, e: Entry, nested: bool, index: nat): Target
    requires check(e, nested).Ok?
  {
    check(e, nested).value.(index := index, name := TrimSpace(e.name))
  }

  function CheckName(e: Entry, seen: set<string>): Result<string, Problem> {
    var name := TrimSpace(e.name);
    if !SafeLabel(name) then Err(BadName) else if name in seen then Err(DuplicateName) else Ok(name)
  }

  /** Resolves a list of entries that stand at an admissible depth, numbering and naming as it goes. */
  function ResolveList(check: Checks, entries: seq<Entry>, depth: nat, nested: bool, index: nat, seen: set<string>)
    : Result<Pass, Problem>
    decreases entries
  {
    if entries == [] then Ok(Pass([], index, seen))
    else
      var e := entries[0];
      if index + 1 > MAX_TARGETS then Err(TooManyTargets)
      else
        var name := CheckName(e, seen);
        if name.Err? then Err(name.error)
        else if check(e, nested).Err? then Err(check(e, nested).error)
        else if depth + 1 > MAX_DEPTH then Err(TooDeep)
        else
          var below := ResolveList(check, e.children, depth + 1, true, index + 1, seen + {name.value});
          if below.Err? then Err(below.error)
          else
            var rest := ResolveList(check, entries[1..], depth, nested, below.value.index, below.value.seen);
            if rest.Err? then Err(rest.error)
            else Ok(Pass([Placed(check, e, nested, index).(children := below.value.targets)] + rest.value.targets,
                         rest.value.index, rest.value.seen))
  }

  /** The walk over the manifest, with the counter and the name set that all levels share. */
  class Resolver {
    var index: nat
    var seen: set<string>

    constructor ()
      ensures index == 0 && seen == {}
    {
      index, seen := 0, {};
    }

    method ResolveTargets(m: Settings, entries: seq<Entry>, depth: nat, nested: bool)
      returns (r: Result<seq<Target>, Problem>)
      modifies this
      ensures depth > MAX_DEPTH ==> r == Err(TooDeep)
      ensures depth <= MAX_DEPTH ==>
                var spec := ResolveList(ChecksOf(m), entries, depth, nested, old(index), old(seen));
                && (spec.Err? ==> r == Err(spec.error))
                && (spec.Ok? ==> r == Ok(spec.value.targets) && index == spec.value.index && seen == spec.value.seen)
      decreases entries
    {
      hide CheckEntry, TrimSpace, SafeLabel, Continues, ResolveList;
      if depth > MAX_DEPTH {
        return Err(TooDeep);
      }
      var targets: seq<Target> := [];
      var i := 0;
      ghost var check := ChecksOf(m);
      ghost var spec := ResolveList(check, entries, depth, nested, index, seen);
      ContinuesFromStart(check, entries, depth, nested, index, seen);
      while i < |entries|
        invariant i <= |entries|
        invariant Continues(check, entries, depth, nested, spec, i, targets, index, seen)
      {
        var e := entries[i];
        ContinuesWith(check, entries, depth, nested, spec, i, targets, index, seen);
        index := index + 1;
        var currentIndex := index - 1;
        if index > MAX_TARGETS {
          return Err(TooManyTargets);
        }
        var name := CheckName(e, seen);
        if name.Err? {
          return Err(name.error);
        }
        seen := seen + {name.value};
        var one := CheckEntry(m, e, nested);
        if one.Err? {
          return Err(one.error);
        }
        var below := ResolveTargets(m, e.children, depth + 1, true);
        if below.Err? {
          return Err(below.error);
        }
        targets := targets + [one.value.(index := currentIndex, name := name.value, children := below.value)];
        i := i + 1;
      }
      ContinuesToEnd(check, entries, depth, nested, spec, targets, index, seen);
      r := Ok(targets);
    }
  }

  /** The whole walk amounts to what was collected so far followed by the walk over the remaining entries. */
  ghost predicate Continues(check: Checks, entries: seq<Entry>, depth: nat, nested: bool, spec: Result<Pass, Problem>,
                            i: nat, targets: seq<Target>, index: nat, seen: set<string>)
    requires i <= |entries|
  {
    var rest := ResolveList(check, entries[i..], depth, nested, index, seen);
    if rest.Err? then spec == Err(rest.error)
    else spec == Ok(Pass(targets + rest.value.targets, rest.value.index, rest.value.seen))
  }

  lemma ContinuesFromStart(check: Checks, entries: seq<Entry>, depth: nat, nested: bool, index: nat, seen: set<string>)
    ensures Continues(check, entries, depth, nested, ResolveList(check, entries, depth, nested, index, seen),
                      0, [], index, seen)
  {
    var spec := ResolveList(check, entries, depth, nested, index, seen);
    assert entries[0..] == entries && (spec.Ok? ==> [] + spec.value.targets == spec.value.targets);
  }

  lemma ContinuesToEnd(check: Checks, entries: seq<Entry>, depth: nat, nested: bool, spec: Result<Pass, Problem>,
                       targets: seq<Target>, index: nat, seen: set<string>)
    requires Continues(check, entries, depth, nested, spec, |entries|, targets, index, seen)
    ensures spec == Ok(Pass(targets, index, seen))
  {
    assert entries[|entries|..] == [] && targets + [] == targets;
  }

  lemma ContinuesWith(check: Checks, entries: seq<Entry>, depth: nat, nested: bool, spec: Result<Pass, Problem>,
                      i: nat, targets: seq<Target>, index: nat, seen: set<string>)
    requires i < |entries| && depth <= MAX_DEPTH && Continues(check, entries, depth, nested, spec, i, targets, index, seen)
    ensures index + 1 > MAX_TARGETS ==> spec == Err(TooManyTargets)
    ensures index + 1 <= MAX_TARGETS ==>
              var e := entries[i];
              var name, one := CheckName(e, seen), check(e, nested);
              && (name.Err? ==> spec == Err(name.error))
              && (name.Ok? && one.Err? ==> spec == Err(one.error))
              && (name.Ok? && one.Ok? && depth + 1 > MAX_DEPTH ==> spec == Err(TooDeep))
              && (name.Ok? && one.Ok? && depth + 1 <= MAX_DEPTH ==>
                    var below := ResolveList(check, e.children, depth + 1, true, index + 1, seen + {name.value});
                    && (below.Err? ==> spec == Err(below.error))
                    && (below.Ok? ==>
                          Continues(check, entries, depth, nested, spec, i + 1,
                                    targets + [Placed(check, e, nested, index).(children := below.value.targets)],
                                    below.value.index, below.value.seen)))
  {
    var e := entries[i];
    assert entries[i..][0] == e && entries[i..][1..] == entries[i + 1..];
    if index + 1 <= MAX_TARGETS && depth + 1 <= MAX_DEPTH && CheckName(e, seen).Ok? && check(e, nested).Ok? {
      var name := CheckName(e, seen).value;
      var below := ResolveList(check, e.children, depth + 1, true, index + 1, seen + {name});
      if below.Ok? {
        var rest := ResolveList(check, entries[i + 1..], depth, nested, below.value.index, below.value.seen);
        var t := Placed(check, e, nested, index).(children := below.value.targets);
        if rest.Ok? {
          assert targets + ([t] + rest.value.targets) == targets + [t] + rest.value.targets;
        }
      }
    }
  }

  // ---- Which trees are accepted ----------------------------------------------------------------------------------

  function Height(entries: seq<Entry>): nat
    decreases entries
  {
    if entries == [] then 0 else Max(1 + Height(entries[0].children), Height(entries[1..]))
  }

  function Count(entries: seq<Entry>): nat
    decreases entries
  {
    if entries == [] then 0 else 1 + Count(entries[0].children) + Count(entries[1..])
  }

  /** The names of all targets, each before those below it. */
  function Names(entries: seq<Entry>): (names: seq<string>)
    ensures |names| == Count(entries)
    decreases entries
  {
    if entries == [] then []
    else [TrimSpace(entries[0].name)] + Names(entries[0].children) + Names(entries[1..])
  }

  /** Every entry passes the checks that concern it alone. */
  predicate EntriesPass(check: Checks, entries: seq<Entry>, nested: bool)
    decreases entries
  {
    entries == [] ||
    (SafeLabel(TrimSpace(entries[0].name)) && check(entries[0], nested).Ok?
     && EntriesPass(check, entries[0].children, true) && EntriesPass(check, entries[1..], nested))
  }

  /** Names that can be taken one after the other, given the names already taken. */
  predicate NewNames(names: seq<string>, seen: set<string>) {
    names == [] || (names[0] !in seen && NewNames(names[1..], seen + {names[0]}))
  }

  /** The names taken after that. */
  function Taken(names: seq<string>, seen: set<string>): set<string> {
    if names == [] then seen else Taken(names[1..], seen + {names[0]})
  }

  lemma {:induction false} NewNamesAppend(a: seq<string>, b: seq<string>, seen: set<string>)
    ensures NewNames(a + b, seen) <==> NewNames(a, seen) && NewNames(b, Taken(a, seen))
    ensures Taken(a + b, seen) == Taken(b, Taken(a, seen))
    decreases a
  {
    if a == [] {
      assert a + b == b;
    } else {
      assert (a + b)[1..] == a[1..] + b;
      NewNamesAppend(a[1..], b, seen + {a[0]});
    }
  }

  lemma NewNamesSplit(name: string, below: seq<string>, rest: seq<string>, seen: set<string>)
    ensures NewNames([name] + below + rest, seen)
            <==> && name !in seen && NewNames(below, seen + {name})
                 && NewNames(rest, Taken(below, seen + {name}))
    ensures Taken([name] + below + rest, seen) == Taken(rest, Taken(below, seen + {name}))
  {
    NewNamesAppend([name] + below, rest, seen);
    assert ([name] + below)[1..] == below;
  }

  /** They can all be taken exactly if none repeats and none is taken already. */
  lemma {:induction false} NewNamesMeans(names: seq<string>, seen: set<string>)
    ensures NewNames(names, seen) <==> Distinct(names) && forall n :: n in names ==> n !in seen
    decreases names
  {
    if names != [] {
      var n, more := names[0], names[1..];
      NewNamesMeans(more, seen + {n});
      assert forall i :: 0 <= i < |more| ==> more[i] == names[1 + i];
      assert names == [n] + more;
      assert n in names && forall x :: x in more ==> x in names;
    }
  }

  /**
   * A list is accepted exactly if each entry passes its own checks, the tree fits between its depth and the depth
   * limit, its entries fit under the count limit, and no name repeats; the counter and the names then move on by
   * exactly the entries of the list. A leaf too is descended into, so the last admissible depth is one less than
   * the limit.
   */
  lemma {:induction false} ListAccepted(check: Checks, entries: seq<Entry>, depth: nat, nested: bool, index: nat,
                                        seen: set<string>)
    requires depth <= MAX_DEPTH && index <= MAX_TARGETS
    ensures ResolveList(check, entries, depth, nested, index, seen).Ok?
            <==> Acceptable(check, entries, depth, nested, index, seen)
    ensures ResolveList(check, entries, depth, nested, index, seen).Ok? ==>
              var pass := ResolveList(check, entries, depth, nested, index, seen).value;
              pass.index == index + Count(entries) <= MAX_TARGETS && pass.seen == Taken(Names(entries), seen)
    decreases entries
  {
    hide SafeLabel, TrimSpace, Acceptable, Names, Count, Taken, Placed;
    if entries == [] {
      NothingAcceptable(check, depth, nested, index, seen);
    } else {
      AcceptableParts(check, entries, depth, nested, index, seen);
      var e, name := entries[0], TrimSpace(entries[0].name);
      if index + 1 > MAX_TARGETS || CheckName(e, seen).Err? || check(e, nested).Err? || depth + 1 > MAX_DEPTH {
        return;
      }
      ListAccepted(check, e.children, depth + 1, true, index + 1, seen + {name});
      var below := ResolveList(check, e.children, depth + 1, true, index + 1, seen + {name});
      if below.Err? {
        return;
      }
      ListAccepted(check, entries[1..], depth, nested, below.value.index, below.value.seen);
    }
  }

  predicate Acceptable(check: Checks, entries: seq<Entry>, depth: nat, nested: bool, index: nat, seen: set<string>) {
    && EntriesPass(check, entries, nested)
    && depth + Height(entries) <= MAX_DEPTH
    && index + Count(entries) <= MAX_TARGETS
    && NewNames(Names(entries), seen)
  }

  lemma NothingAcceptable(check: Checks, depth: nat, nested: bool, index: nat, seen: set<string>)
    requires depth <= MAX_DEPTH && index <= MAX_TARGETS
    ensures Acceptable(check, [], depth, nested, index, seen) && Count([]) == 0 && Taken(Names([]), seen) == seen
  {
  }

  lemma AcceptableParts(check: Checks, entries: seq<Entry>, depth: nat, nested: bool, index: nat, seen: set<string>)
    requires depth <= MAX_DEPTH && index <= MAX_TARGETS && entries != []
    ensures var e, name := entries[0], TrimSpace(entries[0].name);
            var next, taken := index + 1 + Count(e.children), Taken(Names(e.children), seen + {name});
            && Count(entries) == 1 + Count(e.children) + Count(entries[1..])
            && Taken(Names(entries), seen) == Taken(Names(entries[1..]), taken)
            && (Acceptable(check, entries, depth, nested, index, seen)
                <==> && index + 1 <= MAX_TARGETS && CheckName(e, seen).Ok? && check(e, nested).Ok?
                     && depth + 1 <= MAX_DEPTH
                     && Acceptable(check, e.children, depth + 1, true, index + 1, seen + {name})
                     && Acceptable(check, entries[1..], depth, nested, next, taken))
  {
    hide SafeLabel, TrimSpace, NewNames, Taken;
    var e, name := entries[0], TrimSpace(entries[0].name);
    NewNamesSplit(name, Names(e.children), Names(entries[1..]), seen);
    assert Names(entries) == [name] + Names(e.children) + Names(entries[1..]);
  }

  // ---- Numbering -------------------------------------------------------------------------------------------------

  /** All targets of a tree, each before those below it. */
  function Preorder(targets: seq<Target>): seq<Target>
    decreases targets
  {
    if targets == [] then []
    else [targets[0]] + Preorder(targets[0].children) + Preorder(targets[1..])
  }

  ghost predicate NumberedFrom(targets: seq<Target>, names: seq<string>, index: nat) {
    && |targets| == |names|
    && forall k :: 0 <= k < |targets| ==> targets[k].index == index + k && targets[k].name == names[k]
  }

  lemma NumberedOn(a: seq<Target>, b: seq<Target>, x: seq<string>, y: seq<string>, index: nat)
    requires NumberedFrom(a, x, index) && NumberedFrom(b, y, index + |a|)
    ensures NumberedFrom(a + b, x + y, index)
  {
    forall k | 0 <= k < |a + b|
      ensures (a + b)[k].index == index + k && (a + b)[k].name == (x + y)[k]
    {
      if k >= |a| {
        assert b[k - |a|].index == index + |a| + (k - |a|);
      }
    }
  }

  /** The parts of an accepted list: its first target, the targets below that one and the remaining targets. */
  lemma AcceptedParts(check: Checks, entries: seq<Entry>, depth: nat, nested: bool, index: nat, seen: set<string>)
    returns (one: Target, below: Pass, rest: Pass)
    requires depth <= MAX_DEPTH && index <= MAX_TARGETS && entries != []
    requires ResolveList(check, entries, depth, nested, index, seen).Ok?
    ensures CheckName(entries[0], seen) == Ok(one.name) && depth + 1 <= MAX_DEPTH && check(entries[0], nested).Ok?
    ensures one == Placed(check, entries[0], nested, index)
    ensures ResolveList(check, entries[0].children, depth + 1, true, index + 1, seen + {one.name}) == Ok(below)
    ensures index + 1 <= below.index <= MAX_TARGETS && below.index == index + 1 + Count(entries[0].children)
    ensures ResolveList(check, entries[1..], depth, nested, below.index, below.seen) == Ok(rest)
    ensures ResolveList(check, entries, depth, nested, index, seen).value
            == Pass([one.(children := below.targets)] + rest.targets, rest.index, rest.seen)
  {
    hide SafeLabel, TrimSpace, Acceptable;
    one := Placed(check, entries[0], nested, index);
    below := ResolveList(check, entries[0].children, depth + 1, true, index + 1, seen + {one.name}).value;
    rest := ResolveList(check, entries[1..], depth, nested, below.index, below.seen).value;
    ListAccepted(check, entries, depth, nested, index, seen);
    ListAccepted(check, entries[0].children, depth + 1, true, index + 1, seen + {one.name});
  }

  /** The tree keeps the entries' order and names, and the indices count its targets from the given start. */
  lemma {:induction false} TargetsAreNumbered(check: Checks, entries: seq<Entry>, depth: nat, nested: bool, index: nat,
                                              seen: set<string>)
    requires depth <= MAX_DEPTH && index <= MAX_TARGETS
    requires ResolveList(check, entries, depth, nested, index, seen).Ok?
    ensures NumberedFrom(Preorder(ResolveList(check, entries, depth, nested, index, seen).value.targets),
                         Names(entries), index)
    decreases entries
  {
    if entries == [] {
      NoneNumbered(index);
    } else {
      hide SafeLabel, TrimSpace, NumberedFrom, ResolveList;
      var one, below, rest := AcceptedParts(check, entries, depth, nested, index, seen);
      TargetsAreNumbered(check, entries[0].children, depth + 1, true, index + 1, seen + {one.name});
      TargetsAreNumbered(check, entries[1..], depth, nested, below.index, below.seen);
      var t := one.(children := below.targets);
      TreeNumbered(t, one.name, Preorder(below.targets), Names(entries[0].children),
                   Preorder(rest.targets), Names(entries[1..]), index);
      assert ([t] + rest.targets)[1..] == rest.targets;
    }
  }

  lemma NoneNumbered(index: nat)
    ensures NumberedFrom([], [], index)
  {
  }

  lemma TreeNumbered(t: Target, name: string, below: seq<Target>, x: seq<string>, rest: seq<Target>, y: seq<string>,
                     index: nat)
    requires t.index == index && t.name == name
    requires NumberedFrom(below, x, index + 1) && NumberedFrom(rest, y, index + 1 + |x|)
    ensures NumberedFrom([t] + below + rest, [name] + x + y, index)
  {
    NumberedOn([t], below, [name], x, index);
    NumberedOn([t] + below, rest, [name] + x, y, index);
  }

  // ---- The document ----------------------------------------------------------------------------------------------

  /** A manifest as it is read, without its release section. */
  datatype Document = Document(version: int, binary: string, parallel: int, timeout: int, targets: seq<Entry>)

  datatype Loaded = Loaded(parallel: nat, timeout: nat, targets: seq<Target>)

  function OrDefault(value: int, fallback: int): int {
    if value == 0 then fallback else value
  }

  function SettingsFor(d: Document, host: Host, base: Path, requireBinary: bool, allowRelay: bool)
    : Result<Settings, Problem>
  {
    var timeout := OrDefault(d.timeout, DEFAULT_TIMEOUT);
    if d.version != MANIFEST_VERSION then Err(UnsupportedVersion)
    else if d.targets == [] then Err(NoTargets)
    else if !(1 <= OrDefault(d.parallel, DEFAULT_PARALLEL) <= MAX_PARALLEL) then Err(BadParallel)
    else if !(1 <= timeout <= MAX_TIMEOUT) then Err(BadTimeout)
    else
      var m := Settings(host, base, None, requireBinary, allowRelay, timeout);
      var binary := ResolveFile(m, d.binary);
      if binary.Err? then Err(BadGlobalBinary) else Ok(m.(globalBinary := binary.value))
  }

  function Load(d: Document, host: Host, base: Path, requireBinary: bool, allowRelay: bool): Result<Loaded, Problem> {
    var m := SettingsFor(d, host, base, requireBinary, allowRelay);
    if m.Err? then Err(m.error)
    else
      var pass := ResolveList(ChecksOf(m.value), d.targets, 1, false, 0, {});
      if pass.Err? then Err(pass.error)
      else Ok(Loaded(OrDefault(d.parallel, DEFAULT_PARALLEL), m.value.timeout, pass.value.targets))
  }

  /** A manifest in memory, whose loading fills in its defaults. */
  class Manifest {
    const version: int
    const binary: string
    const base: Path
    const entries: seq<Entry>
    var parallel: int
    var timeout: int

    constructor (d: Document, base: Path)
      ensures Content() == d && this.base == base
    {
      version, binary, parallel, timeout, entries := d.version, d.binary, d.parallel, d.timeout, d.targets;
      this.base := base;
    }

    ghost function Content(): Document
      reads this
    {
      Document(version, binary, parallel, timeout, entries)
    }

    method ValidateAndResolve(host: Host, requireBinary: bool, allowRelay: bool)
      returns (r: Result<seq<Target>, Problem>)
      modifies this
      ensures var spec := Load(old(Content()), host, base, requireBinary, allowRelay);
              && (spec.Err? ==> r == Err(spec.error))
              && (spec.Ok? ==> r == Ok(spec.value.targets)
                               && parallel == spec.value.parallel && timeout == spec.value.timeout)
    {
      hide ResolveList;
      if version != MANIFEST_VERSION {
        return Err(UnsupportedVersion);
      }
      if |entries| == 0 {
        return Err(NoTargets);
      }
      if parallel == 0 {
        parallel := DEFAULT_PARALLEL;
      }
      if parallel < 1 || parallel > MAX_PARALLEL {
        return Err(BadParallel);
      }
      if timeout == 0 {
        timeout := DEFAULT_TIMEOUT;
      }
      if timeout < 1 || timeout > MAX_TIMEOUT {
        return Err(BadTimeout);
      }
      var m := Settings(host, base, None, requireBinary, allowRelay, timeout);
      var globalBinary := ResolveFile(m, binary);
      if globalBinary.Err? {
        return Err(BadGlobalBinary);
      }
      var walk := new Resolver();
      r := walk.ResolveTargets(m.(globalBinary := globalBinary.value), entries, 1, false);
    }
  }

  /**
   * Which manifests are accepted: the header is in range, every target passes its own checks, no target has more
   * than six relays above it, there are at most 512 targets, and their names differ.
   */
  lemma DocumentAccepted(d: Document, host: Host, base: Path, requireBinary: bool, allowRelay: bool)
    ensures Load(d, host, base, requireBinary, allowRelay).Ok?
            <==> && SettingsFor(d, host, base, requireBinary, allowRelay).Ok?
                 && EntriesPass(ChecksOf(SettingsFor(d, host, base, requireBinary, allowRelay).value), d.targets, false)
                 && Height(d.targets) <= MAX_DEPTH - 1
                 && Count(d.targets) <= MAX_TARGETS
                 && Distinct(Names(d.targets))
  {
    hide CheckEntry, ResolveList;
    var m := SettingsFor(d, host, base, requireBinary, allowRelay);
    if m.Ok? {
      ListAccepted(ChecksOf(m.value), d.targets, 1, false, 0, {});
      NewNamesMeans(Names(d.targets), {});
    }
  }

  predicate AllHaveChecksum(targets: seq<Target>)
    decreases targets
  {
    targets == [] ||
    (targets[0].sha != "" && AllHaveChecksum(targets[0].children) && AllHaveChecksum(targets[1..]))
  }

  /** A manifest loaded to update through relays: every target must name its checksum. */
  function LoadCascade(d: Document, host: Host, base: Path): Result<Loaded, Problem> {
    var loaded := Load(d, host, base, true, true);
    if loaded.Ok? && !AllHaveChecksum(loaded.value.targets) then Err(ChecksumRequired) else loaded
  }
}
