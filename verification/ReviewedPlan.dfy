/** From the groups that a search found to the plan a user reviews: every choice of keepers makes a valid plan. */
module ReviewedPlan {
  import opened Base
  import opened Text
  import opened SharedDisk
  import opened Paths
  import D = DuplicateGroups
  import L = DedupeLink
  import S = DedupeScript
  import P = DedupePlan

  /** A file as the walk over clean absolute paths finds it, with a hash in hexadecimal if it could be read. */
  ghost predicate WellFound(h: D.Hashed) {
    (exists p :: ProperPath(p) && h.candidate.path == PathText(p)) && (h.hash.Some? ==> IsDigest(h.hash.value))
  }

  /** The kept copy of each group, and the text that shows how much it saves. */
  datatype Choice = Choice(keep: nat, saved: string)

  function PlanGroup(g: D.Group, choice: Choice): P.Group {
    var files := seq(|g.copies|, i requires 0 <= i < |g.copies| => CleanPath(g.copies[i].path));
    P.Group(g.hash, files, choice.keep, choice.saved)
  }

  ghost predicate GoodChoice(g: D.Group, choice: Choice) {
    choice.keep < |g.copies| && S.OneLine(choice.saved)
  }

  function Plan(groups: seq<D.Group>, choices: seq<Choice>): (plan: seq<P.Group>)
    requires |groups| == |choices|
    ensures |plan| == |groups| && forall i :: 0 <= i < |plan| ==> plan[i] == PlanGroup(groups[i], choices[i])
  {
    seq(|groups|, i requires 0 <= i < |groups| => PlanGroup(groups[i], choices[i]))
  }

  lemma TextIsCleaned(text: string) returns (p: Path)
    requires exists q :: ProperPath(q) && text == PathText(q)
    ensures ProperPath(p) && text == PathText(p) && CleanPath(text) == p
  {
    p :| ProperPath(p) && text == PathText(p);
    PathIsRead(p, [], "");
    assert Push([], "") + p == p;
  }

  /** A listed copy stands for a proper path, and its text is that path's. */
  lemma CopyIsProper(hashed: seq<D.Hashed>, key: D.Key, g: D.Group, a: nat)
    requires D.DistinctFiles(hashed) && (forall h :: h in hashed ==> WellFound(h))
    requires D.IsGroup(hashed, key, g) && a < |g.copies|
    ensures ProperPath(CleanPath(g.copies[a].path)) && PathText(CleanPath(g.copies[a].path)) == g.copies[a].path
    ensures IsDigest(g.hash)
  {
    var i := D.GroupCopies(hashed, key, g, a);
    assert hashed[i] in hashed && WellFound(hashed[i]);
    var p := TextIsCleaned(g.copies[a].path);
  }

  lemma GroupIsValid(hashed: seq<D.Hashed>, key: D.Key, g: D.Group, choice: Choice)
    requires D.DistinctFiles(hashed) && (forall h :: h in hashed ==> WellFound(h))
    requires D.IsGroup(hashed, key, g) && GoodChoice(g, choice)
    ensures P.ValidPlanGroup(PlanGroup(g, choice))
  {
    hide D.IsGroup, D.DistinctFiles, WellFound, ProperPath, PathText, IsDigest;
    var files := PlanGroup(g, choice).files;
    assert |g.copies| >= 2 by { AtLeastTwo(hashed, key, g); }
    CopyIsProper(hashed, key, g, 0);
    forall a | 0 <= a < |files| ensures ProperPath(files[a]) {
      CopyIsProper(hashed, key, g, a);
    }
    forall a, b | 0 <= a < b < |files| ensures files[a] != files[b] {
      CopyIsProper(hashed, key, g, a);
      CopyIsProper(hashed, key, g, b);
      var i := D.GroupCopies(hashed, key, g, a);
    }
  }

  lemma AtLeastTwo(hashed: seq<D.Hashed>, key: D.Key, g: D.Group)
    requires D.IsGroup(hashed, key, g)
    ensures |g.copies| >= 2
  {
  }

  /** The groups of a search are a valid plan, whichever copies are kept, and the script lists the paths found. */
  lemma EveryChoiceIsValid(hashed: seq<D.Hashed>, keys: seq<D.Key>, groups: seq<D.Group>, choices: seq<Choice>)
    requires D.DistinctFiles(hashed) && (forall h :: h in hashed ==> WellFound(h))
    requires D.OneForEachKey(hashed, keys, groups)
    requires |choices| == |groups| && forall i :: 0 <= i < |groups| ==> GoodChoice(groups[i], choices[i])
    ensures P.ValidPlan(Plan(groups, choices))
    ensures forall i, a :: 0 <= i < |groups| && 0 <= a < |groups[i].copies| ==>
              P.Written(Plan(groups, choices)[i]).files[a] == groups[i].copies[a].path
  {
    hide WellFound, P.ValidPlanGroup, GoodChoice;
    var plan := Plan(groups, choices);
    forall i | 0 <= i < |plan| ensures P.ValidPlanGroup(plan[i]) {
      GroupIsValid(hashed, keys[i], groups[i], choices[i]);
    }
    forall i, a | 0 <= i < |groups| && 0 <= a < |groups[i].copies|
      ensures P.Written(plan[i]).files[a] == groups[i].copies[a].path
    {
      CopyIsProper(hashed, keys[i], groups[i], a);
    }
    forall i, j, a, b | 0 <= i < j < |plan| && 0 <= a < |plan[i].files| && 0 <= b < |plan[j].files|
      ensures plan[i].files[a] != plan[j].files[b]
    {
      CopyIsProper(hashed, keys[i], groups[i], a);
      CopyIsProper(hashed, keys[j], groups[j], b);
      D.ListedOnce(hashed, keys, groups, i, a, j, b);
    }
  }
}
