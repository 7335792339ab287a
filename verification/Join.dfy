/** Joining a predecessor's commit into a lane: one `git merge` in the lane's worktree, with the conflict policy's abort
    and resolve paths. Git's answers that do not follow from the state are given by a `World`. */
module Join {
  import opened Wrappers
  import opened CommitGraph

  /** A merge git has started and not concluded: the commit being merged, the paths still unmerged, and the working
      content `git merge --abort` goes back to. */
  datatype Merging = Merging(other: Id, unmerged: seq<string>, saved: string)

  datatype Lane = Lane(graph: Graph, head: Id, work: string, merging: Option<Merging>)
  {
    ghost predicate Valid() {
      graph.Valid() && head in graph.parents && (merging.Some? ==> merging.value.other in graph.parents)
    }
  }

  datatype Policy = Abort | Ask   // `agent` and `human` differ only in the resolver passed

  /** How a true merge ends: a commit under a new id, a content conflict, or a failure with no unmerged path (a
      rejecting hook, a corrupt object) that may leave the merge in progress. */
  datatype MergeReply =
    | Committed(id: Id, tree: string)
    | Conflicted(files: seq<string>, work: string)
    | Failed(started: bool, work: string)

  datatype ResolverReply = ResolvedTo(work: string) | Unresolved(work: string) | ResolverThrew(work: string)

  datatype World = World(
    mergeRuns: bool,              // an up-to-date check or a fast-forward is not itself refused
    merge: MergeReply,
    listWorks: bool,              // conflictedFilePaths
    abortWorks: bool,
    describeWorks: bool,          // describeJoinConflict
    resolver: Option<ResolverReply>,
    stageWorks: bool,
    commit: Option<Id>,           // the id of the resolved merge, or None if git commit fails
    headWorks: bool)              // the final rev-parse

  datatype Outcome =
    | FastForward(sha: Id)
    | Merge(sha: Id)
    | Conflict(files: seq<string>)
    | Threw

  // ----- Git -----

  ghost predicate NewId(g: Graph, id: Id) {
    id !in g.parents
  }

  function NextAge(g: Graph, a: Id, b: Id): nat
    requires a in g.age && b in g.age
  {
    g.age[a] + g.age[b] + 1
  }

  /** The commit that concludes a merge of `other`. */
  function MergeCommit(l: Lane, id: Id, other: Id, tree: string): Lane
    requires l.Valid() && other in l.graph.parents
  {
    Lane(Commit(l.graph, id, [l.head, other], tree, NextAge(l.graph, l.head, other)), id, tree, None)
  }

  /** `git merge <sha>`: refused while another merge is in progress; otherwise up to date, a fast-forward, or a true
      merge. */
  function GitMerge(l: Lane, sha: Id, w: World): (Lane, bool)
    requires l.Valid()
  {
    if l.merging.Some? || sha !in l.graph.parents || !w.mergeRuns then (l, false)
    else if Reachable(l.graph, sha, l.head) then (l, true)
    else if Reachable(l.graph, l.head, sha) then (l.(head := sha, work := l.graph.trees[sha]), true)
    else
      match w.merge
      case Committed(id, tree) => (MergeCommit(l, id, sha, tree), true)
      case Conflicted(files, work) => (l.(work := work, merging := Some(Merging(sha, files, l.work))), false)
      case Failed(started, work) =>
        (if started then l.(work := work, merging := Some(Merging(sha, [], l.work))) else l, false)
  }

  /** What git answers is possible: new ids are new, and a conflict has files. */
  ghost predicate Possible(l: Lane, w: World) {
    && (w.merge.Committed? ==> NewId(l.graph, w.merge.id))
    && (w.merge.Conflicted? ==> w.merge.files != [])
    && (w.commit.Some? ==> NewId(l.graph, w.commit.value))
  }

  function Unmerged(l: Lane): seq<string> {
    if l.merging.Some? then l.merging.value.unmerged else []
  }

  /** `git merge --abort` */
  function GitAbort(l: Lane, w: World): (Lane, bool) {
    if l.merging.None? || !w.abortWorks then (l, false)
    else (l.(work := l.merging.value.saved, merging := None), true)
  }

  // ----- mergeIntoLane -----

  function Report(l: Lane, sha: Id, w: World): Outcome {
    if !w.headWorks then Threw else if l.head == sha then FastForward(l.head) else Merge(l.head)
  }

  function AfterConflict(l: Lane, files: seq<string>, sha: Id, policy: Policy, w: World): (Lane, Outcome)
    requires l.Valid() && l.merging.Some?
  {
    var (aborted, ok) := GitAbort(l, w);
    var giveUp := (aborted, if ok then Conflict(files) else Threw);
    if policy.Abort? then giveUp
    else if w.resolver.None? || !w.describeWorks then (aborted, Threw)
    else
      match w.resolver.value
      case ResolverThrew(work) => (GitAbort(l.(work := work), w).0, Threw)
      case Unresolved(work) =>
        var (aborted, ok) := GitAbort(l.(work := work), w);
        (aborted, if ok then Conflict(files) else Threw)
      case ResolvedTo(work) =>
        var edited := l.(work := work);
        if !w.stageWorks then (edited, Threw)
        else if w.commit.None? then (edited.(merging := Some(l.merging.value.(unmerged := []))), Threw)
        else
          var done := MergeCommit(edited, w.commit.value, l.merging.value.other, work);
          (done, Report(done, sha, w))
  }

  function Joined(l: Lane, sha: Id, policy: Policy, w: World): (Lane, Outcome)
    requires l.Valid()
  {
    var (merged, ok) := GitMerge(l, sha, w);
    if ok then (merged, Report(merged, sha, w))
    else if !w.listWorks then (merged, Threw)
    else if Unmerged(merged) == [] then (GitAbort(merged, w).0, Threw)
    else AfterConflict(merged, Unmerged(merged), sha, policy, w)
  }

  lemma MergeCommitJoins(l: Lane, id: Id, other: Id, tree: string)
    requires l.Valid() && other in l.graph.parents && NewId(l.graph, id)
    ensures var l' := MergeCommit(l, id, other, tree);
      && l'.Valid() && Extends(l.graph, l'.graph)
      && Reachable(l'.graph, l.head, id) && Reachable(l'.graph, other, id)
      && forall a | a != id :: Reachable(l'.graph, a, id) ==>
           Reachable(l'.graph, a, l.head) || Reachable(l'.graph, a, other)
  {
    var parents := [l.head, other];
    CommitValid(l.graph, id, parents, tree, NextAge(l.graph, l.head, other));
    var g := MergeCommit(l, id, other, tree).graph;
    assert g.parents[id] == parents;
    assert Reachable(g, l.head, parents[0]) && Reachable(g, other, parents[1]);
  }

  /** One join from a lane with no merge in progress. If it succeeds, HEAD descends from the old HEAD and from the
      joined commit, and it is reported as a fast-forward exactly when the old HEAD is an ancestor of that commit or
      the commit itself. If it reports a conflict, the lane is exactly as it was. If it throws, HEAD has moved only
      when the final rev-parse is what failed, and a merge is left in progress only by a failed listing, abort, staging
      or commit; with neither, the lane is exactly as it was. */
  lemma JoinOnce(l: Lane, sha: Id, policy: Policy, w: World)
    requires l.Valid() && l.merging.None? && Possible(l, w)
    ensures var (l', o) := Joined(l, sha, policy, w);
      && l'.Valid() && Extends(l.graph, l'.graph)
      && (o.FastForward? || o.Merge? ==>
            && o.sha == l'.head && l'.merging.None? && sha in l.graph.parents
            && Reachable(l'.graph, l.head, l'.head) && Reachable(l'.graph, sha, l'.head)
            && (o.FastForward? <==> Reachable(l.graph, l.head, sha)))
      && (o.Conflict? ==> l' == l && o.files != [])
      && (o.Threw? && l'.head != l.head ==> !w.headWorks && l'.merging.None?)
      && (o.Threw? && l'.head == l.head && l'.merging.None? ==> l' == l)
      && (o.Threw? && l'.merging.Some? ==>
            !w.listWorks || !w.abortWorks || !w.stageWorks || w.commit.None?)
  {
    hide Reachable, MergeCommit, AfterConflict;
    var (merged, ok) := GitMerge(l, sha, w);
    if ok {
      hide GitMerge, GitAbort;
      MergeSucceeds(l, sha, w);
    } else if merged.merging.Some? && w.listWorks && Unmerged(merged) != [] {
      ResolveOrAbort(l, merged, sha, policy, w);
    } else {
      NotAConflict(l, sha, w);
      hide GitMerge, GitAbort;
    }
  }

  /** An up-to-date check, a fast-forward or a clean true merge. */
  lemma MergeSucceeds(l: Lane, sha: Id, w: World)
    requires l.Valid() && l.merging.None? && Possible(l, w) && GitMerge(l, sha, w).1
    ensures var l' := GitMerge(l, sha, w).0;
      && l'.Valid() && Extends(l.graph, l'.graph) && l'.merging.None? && sha in l.graph.parents
      && Reachable(l'.graph, l.head, l'.head) && Reachable(l'.graph, sha, l'.head)
      && (l'.head == sha <==> Reachable(l.graph, l.head, sha))
      && (l'.head == l.head ==> l' == l)
  {
    if Reachable(l.graph, sha, l.head) {
      if Reachable(l.graph, l.head, sha) {
        NoCycles(l.graph, sha, l.head);
      }
    } else if !Reachable(l.graph, l.head, sha) {
      MergeCommitJoins(l, w.merge.id, sha, w.merge.tree);
    }
  }

  /** A merge that failed for another reason, aborted if it was started. */
  lemma NotAConflict(l: Lane, sha: Id, w: World)
    requires l.Valid() && l.merging.None? && !GitMerge(l, sha, w).1
    ensures var merged := GitMerge(l, sha, w).0;
      && merged.Valid() && merged.head == l.head && merged.graph == l.graph
      && (merged.merging.None? ==> merged == l)
      && var (aborted, ok) := GitAbort(merged, w);
         aborted.Valid() && aborted.head == l.head && aborted.graph == l.graph
         && (aborted.merging.None? ==> aborted == l) && (aborted.merging.Some? ==> !w.abortWorks)
  {
    hide Reachable, MergeCommit;
  }

  /** A conflicted merge, aborted or resolved. */
  lemma ResolveOrAbort(l: Lane, merged: Lane, sha: Id, policy: Policy, w: World)
    requires l.Valid() && l.merging.None? && Possible(l, w) && sha in l.graph.parents
    requires !Reachable(l.graph, l.head, sha) && !Reachable(l.graph, sha, l.head)
    requires merged.merging.Some? && merged.merging.value.other == sha && merged.merging.value.saved == l.work
    requires merged.graph == l.graph && merged.head == l.head && Unmerged(merged) != []
    ensures var (l', o) := AfterConflict(merged, Unmerged(merged), sha, policy, w);
      && l'.Valid() && Extends(l.graph, l'.graph)
      && (o.FastForward? || o.Merge? ==>
            && o.sha == l'.head && l'.merging.None?
            && Reachable(l'.graph, l.head, l'.head) && Reachable(l'.graph, sha, l'.head)
            && o.Merge?)
      && (o.Conflict? ==> l' == l && o.files != [])
      && (o.Threw? && l'.head != l.head ==> !w.headWorks && l'.merging.None?)
      && (o.Threw? && l'.head == l.head && l'.merging.None? ==> l' == l)
      && (o.Threw? && l'.merging.Some? ==> !w.abortWorks || !w.stageWorks || w.commit.None?)
  {
    if policy.Ask? && w.resolver.Some? && w.describeWorks && w.resolver.value.ResolvedTo? && w.stageWorks &&
       w.commit.Some? {
      var edited := merged.(work := w.resolver.value.work);
      MergeCommitJoins(edited, w.commit.value, sha, w.resolver.value.work);
    }
  }

  // ----- What a join reports -----

  /** Neither commit is an ancestor of the other, so git has to make a true merge. */
  ghost predicate Diverged(l: Lane, sha: Id)
    requires l.Valid()
  {
    sha in l.graph.parents && !Reachable(l.graph, sha, l.head) && !Reachable(l.graph, l.head, sha)
  }

  /** Git leaves these paths unmerged. */
  ghost predicate GitConflicts(l: Lane, sha: Id, w: World, files: seq<string>)
    requires l.Valid()
  {
    w.mergeRuns && Diverged(l, sha) && w.merge.Conflicted? && w.merge.files == files
  }

  /** Git finds the lane up to date, fast-forwards it, or commits a true merge. */
  ghost predicate GitMerges(l: Lane, sha: Id, w: World)
    requires l.Valid()
  {
    w.mergeRuns && sha in l.graph.parents && (Diverged(l, sha) ==> w.merge.Committed?)
  }

  /** A conflict is reported exactly when git left exactly those paths unmerged, listing them and aborting work, and
      either the policy is to abort or a resolver was shown the conflict and did not resolve it. */
  lemma ConflictExactly(l: Lane, sha: Id, policy: Policy, w: World, files: seq<string>)
    requires l.Valid() && l.merging.None? && Possible(l, w)
    ensures Joined(l, sha, policy, w).1 == Conflict(files) <==>
      && GitConflicts(l, sha, w, files) && w.listWorks && w.abortWorks
      && (policy == Abort || (w.resolver.Some? && w.describeWorks && w.resolver.value.Unresolved?))
  {
    hide Reachable, MergeCommit;
  }

  /** A join succeeds exactly when git merged, or a resolver resolved the conflict and its result was staged and
      committed, and HEAD can be read; the commit reported is the lane's HEAD. */
  lemma SuccessExactly(l: Lane, sha: Id, policy: Policy, w: World)
    requires l.Valid() && l.merging.None? && Possible(l, w)
    ensures var (l', o) := Joined(l, sha, policy, w);
      && ((o.FastForward? || o.Merge?) <==>
            && w.headWorks
            && (GitMerges(l, sha, w) ||
                (&& (exists files :: GitConflicts(l, sha, w, files)) && w.listWorks
                 && policy == Ask && w.resolver.Some? && w.describeWorks && w.resolver.value.ResolvedTo?
                 && w.stageWorks && w.commit.Some?)))
      && (o.FastForward? || o.Merge? ==> o.sha == l'.head)
  {
    hide Reachable, MergeCommit;
    if w.mergeRuns && Diverged(l, sha) && w.merge.Conflicted? {
      assert GitConflicts(l, sha, w, w.merge.files);
    }
  }

  /** What the lane then holds: nothing new if it was up to date, the joined commit's content after a fast-forward,
      git's or the resolver's after a true merge, and that is what the new HEAD records. */
  lemma SuccessContent(l: Lane, sha: Id, policy: Policy, w: World)
    requires l.Valid() && l.merging.None? && Possible(l, w)
    requires var o := Joined(l, sha, policy, w).1; o.FastForward? || o.Merge?
    ensures sha in l.graph.parents
    ensures var l' := Joined(l, sha, policy, w).0;
      if Reachable(l.graph, sha, l.head) then l' == l
      else if Reachable(l.graph, l.head, sha) then l' == l.(head := sha, work := l.graph.trees[sha])
      else
        && l'.work == (if w.merge.Committed? then w.merge.tree else w.resolver.value.work)
        && l'.head in l'.graph.trees && l'.graph.trees[l'.head] == l'.work && l'.graph.parents[l'.head] == [l.head, sha]
  {
    hide Reachable;
    SuccessExactly(l, sha, policy, w);
  }

  /** A join throws exactly when git failed for a reason other than a conflict, listing the conflict failed, the abort
      the policy or the resolver asked for failed, there was no resolver, showing it the conflict failed, it threw,
      staging or committing its result failed, or the final HEAD could not be read. */
  lemma ThrowsExactly(l: Lane, sha: Id, policy: Policy, w: World)
    requires l.Valid() && l.merging.None? && Possible(l, w)
    ensures Joined(l, sha, policy, w).1 == Threw <==>
      if GitMerges(l, sha, w) then !w.headWorks
      else if !w.mergeRuns || !Diverged(l, sha) || !w.merge.Conflicted? || !w.listWorks then true
      else if policy == Abort then !w.abortWorks
      else if w.resolver.None? || !w.describeWorks || w.resolver.value.ResolverThrew? then true
      else if w.resolver.value.Unresolved? then !w.abortWorks
      else !w.stageWorks || w.commit.None? || !w.headWorks
  {
    hide Reachable, MergeCommit;
  }

  // ----- A merge left in progress -----

  /** The conflict goes to a resolver, and it resolves it. */
  predicate Resolves(policy: Policy, w: World) {
    policy.Ask? && w.resolver.Some? && w.describeWorks && w.resolver.value.ResolvedTo?
  }

  /** "The worktree is never left stuck" is false: a join leaves its merge in progress exactly when git started one and
      listing the conflict fails, or staging or committing a resolved conflict fails, or aborting anything else does. */
  lemma LeftInProgressExactly(l: Lane, sha: Id, policy: Policy, w: World)
    requires l.Valid() && l.merging.None? && Possible(l, w)
    ensures var started := GitMerge(l, sha, w).0;
      Joined(l, sha, policy, w).0.merging.Some? <==>
        && started.merging.Some?
        && (!w.listWorks ||
            if Unmerged(started) != [] && Resolves(policy, w) then !w.stageWorks || w.commit.None?
            else !w.abortWorks)
  {
    hide Reachable;
    if GitMerge(l, sha, w).1 {
      MergeSucceeds(l, sha, w);
    }
  }

  /** A final commit that fails throws and leaves the merge there, resolved and staged, with HEAD where it was. */
  lemma FailedCommitLeavesMerge(l: Lane, sha: Id, policy: Policy, w: World)
    requires l.Valid() && l.merging.None? && Possible(l, w)
    requires !GitMerge(l, sha, w).1 && Unmerged(GitMerge(l, sha, w).0) != []
    requires w.listWorks && Resolves(policy, w) && w.stageWorks && w.commit.None?
    ensures var (l', o) := Joined(l, sha, policy, w);
      && o == Threw && l'.head == l.head && l'.graph == l.graph && l'.work == w.resolver.value.work
      && l'.merging == Some(Merging(sha, [], l.work))
  {
    hide Reachable, MergeCommit;
  }

  /** Two commits on one base; the lane is at `a` and no merge is in progress. */
  function CleanLane(): Lane {
    Lane(Graph(map["o" := [], "a" := ["o"], "c" := ["o"]],
               map["o" := "", "a" := "x", "c" := "z"],
               map["o" := 0, "a" := 1, "c" := 1]),
         "a", "x", None)
  }

  /** A conflict in one file, a resolver that resolves it, and a rejecting commit hook; everything else works. */
  function RejectedCommit(): World {
    World(true, Conflicted(["f"], "both"), true, true, true, Some(ResolvedTo("xz")), true, None, true)
  }

  /** Joining `c` then throws, and the lane is left with the merge of `c` in progress, though an abort would work. */
  lemma JoinLeftStuck()
    ensures CleanLane().Valid() && Possible(CleanLane(), RejectedCommit())
    ensures Joined(CleanLane(), "c", Ask, RejectedCommit()) ==
            (CleanLane().(work := "xz", merging := Some(Merging("c", [], "x"))), Threw)
  {
    var l, w := CleanLane(), RejectedCommit();
    assert l.Valid();
    Unrelated(l.graph, "a", "c");
    Unrelated(l.graph, "c", "a");
    hide Reachable, MergeCommit;
    assert GitMerge(l, "c", w) == (l.(work := "both", merging := Some(Merging("c", ["f"], "x"))), false);
    FailedCommitLeavesMerge(l, "c", Ask, w);
  }

  lemma Unrelated(g: Graph, a: Id, b: Id)
    requires g == CleanLane().graph && g.Valid() && (a == "a" || a == "c") && (b == "a" || b == "c") && a != b
    ensures !Reachable(g, a, b)
  {
    assert g.parents[b] == ["o"];
    assert !Reachable(g, a, "o");
  }

  // ----- Joining every predecessor -----

  /** Joins each commit in turn, stopping at the first that does not succeed. */
  ghost predicate JoinsAll(l: Lane, shas: seq<Id>, policy: Policy, ws: seq<World>, l': Lane)
    requires l.Valid() && |ws| == |shas|
    decreases |shas|
  {
    if shas == [] then l' == l
    else
      && Possible(l, ws[0])
      && var (next, o) := Joined(l, shas[0], policy, ws[0]);
         (o.FastForward? || o.Merge?) && next.Valid() && JoinsAll(next, shas[1..], policy, ws[1..], l')
  }

  /** After every predecessor has been joined successfully, HEAD descends from the original HEAD and from all of them,
      and no merge is in progress. */
  lemma {:induction false} AllPredecessorsJoined(l: Lane, shas: seq<Id>, policy: Policy, ws: seq<World>, l': Lane)
    requires l.Valid() && l.merging.None? && |ws| == |shas| && JoinsAll(l, shas, policy, ws, l')
    ensures l'.Valid() && Extends(l.graph, l'.graph) && l'.merging.None?
    ensures Reachable(l'.graph, l.head, l'.head)
    ensures forall sha | sha in shas :: Reachable(l'.graph, sha, l'.head)
    decreases |shas|
  {
    if shas != [] {
      JoinOnce(l, shas[0], policy, ws[0]);
      var next := Joined(l, shas[0], policy, ws[0]).0;
      AllPredecessorsJoined(next, shas[1..], policy, ws[1..], l');
      hide Joined;
      ReachableOlder(next.graph, l.head, next.head);
      ReachableOlder(next.graph, shas[0], next.head);
      forall a | a == l.head || a == shas[0]
        ensures Reachable(l'.graph, a, l'.head)
      {
        ReachableExtends(next.graph, l'.graph, a, next.head);
        ReachableTransitive(l'.graph, a, next.head, l'.head);
      }
      assert forall sha | sha in shas :: sha == shas[0] || sha in shas[1..];
    }
  }

  /** The guarantee needs a lane with no merge in progress. Where another merge was, a join that succeeds has concluded
      that merge instead: HEAD then descends from `sha` exactly when the old HEAD or the other commit did. */
  lemma StaleMergeConcluded(l: Lane, sha: Id, policy: Policy, w: World)
    requires l.Valid() && l.merging.Some? && Possible(l, w) && sha in l.graph.parents
    requires var o := Joined(l, sha, policy, w).1; o.FastForward? || o.Merge?
    ensures var (l', o) := Joined(l, sha, policy, w);
      && l'.Valid() && o.Merge?
      && (Reachable(l'.graph, sha, l'.head) <==>
            Reachable(l.graph, sha, l.head) || Reachable(l.graph, sha, l.merging.value.other))
  {
    var other := l.merging.value.other;
    var work := w.resolver.value.work;
    var edited := l.(work := work);
    MergeCommitJoins(edited, w.commit.value, other, work);
    var l' := MergeCommit(edited, w.commit.value, other, work);
    assert Joined(l, sha, policy, w).0 == l';
    SameReachable(l.graph, l'.graph, sha, l.head);
    SameReachable(l.graph, l'.graph, sha, other);
    if Reachable(l.graph, sha, l.head) {
      ReachableTransitive(l'.graph, sha, l.head, l'.head);
    }
    if Reachable(l.graph, sha, other) {
      ReachableTransitive(l'.graph, sha, other, l'.head);
    }
  }

  /** Three commits on one base; the lane is at `a` with a merge of `b` it never concluded. */
  function StaleLane(): Lane {
    Lane(Graph(map["o" := [], "a" := ["o"], "b" := ["o"], "c" := ["o"]],
               map["o" := "", "a" := "x", "b" := "y", "c" := "z"],
               map["o" := 0, "a" := 1, "b" := 1, "c" := 1]),
         "a", "both", Some(Merging("b", ["f"], "x")))
  }

  /** A resolver that resolves what is there, and git commands that work. */
  function StaleAnswers(): World {
    World(true, Failed(false, ""), true, true, true, Some(ResolvedTo("xy")), true, Some("m"), true)
  }

  /** Joining `c` into it with a resolver reports a merge, but HEAD does not descend from `c`. */
  lemma StaleMergeMisses()
    ensures StaleLane().Valid() && Possible(StaleLane(), StaleAnswers())
    ensures var (l', o) := Joined(StaleLane(), "c", Ask, StaleAnswers());
      o == Merge("m") && l'.Valid() && l'.head == "m" && l'.merging.None? && !Reachable(l'.graph, "c", "m")
  {
    hide Reachable, MergeCommit;
    var l, w := StaleLane(), StaleAnswers();
    var edited := l.(work := "xy");
    MergeCommitHead(edited, "m", "b", "xy");
    var l' := MergeCommit(edited, "m", "b", "xy");
    assert Joined(l, "c", Ask, w) == (l', Merge("m"));
    StaleMergeConcluded(l, "c", Ask, w);
    NotReached(l.graph, "a");
    NotReached(l.graph, "b");
    assert Reachable(l'.graph, "c", l'.head) <==> false;
  }

  lemma MergeCommitHead(l: Lane, id: Id, other: Id, tree: string)
    requires l.Valid() && other in l.graph.parents
    ensures MergeCommit(l, id, other, tree).head == id && MergeCommit(l, id, other, tree).merging.None?
  {
  }

  lemma NotReached(g: Graph, b: Id)
    requires g == StaleLane().graph && g.Valid() && (b == "a" || b == "b")
    ensures !Reachable(g, "c", b)
  {
    assert g.parents[b] == ["o"];
    assert !Reachable(g, "c", "o");
  }

  lemma {:induction false} SameReachable(g: Graph, g': Graph, a: Id, b: Id)
    requires g.Valid() && g'.Valid() && Extends(g, g') && b in g.parents
    ensures Reachable(g', a, b) <==> Reachable(g, a, b)
    decreases g.age[b]
  {
    assert g'.parents[b] == g.parents[b];
    forall k | 0 <= k < |g.parents[b]|
      ensures Reachable(g', a, g.parents[b][k]) <==> Reachable(g, a, g.parents[b][k])
    {
      SameReachable(g, g', a, g.parents[b][k]);
    }
  }

  // ----- The join as the source runs it, command by command -----

  class Worktree {
    var graph: Graph
    var head: Id
    var work: string
    var merging: Option<Merging>

    constructor (l: Lane)
      ensures Snapshot() == l && fresh(this)
    {
      graph, head, work, merging := l.graph, l.head, l.work, l.merging;
    }

    function Snapshot(): Lane
      reads this
    {
      Lane(graph, head, work, merging)
    }

    method Conclude(id: Id, other: Id, tree: string)
      requires Snapshot().Valid() && other in graph.parents
      modifies this
      ensures Snapshot() == MergeCommit(old(Snapshot()), id, other, tree)
    {
      graph := Commit(graph, id, [head, other], tree, NextAge(graph, head, other));
      head, work, merging := id, tree, None;
    }

    method RunMerge(sha: Id, w: World) returns (ok: bool)
      requires Snapshot().Valid()
      modifies this
      ensures (Snapshot(), ok) == GitMerge(old(Snapshot()), sha, w)
    {
      if merging.Some? || sha !in graph.parents || !w.mergeRuns {
        return false;
      }
      if Reachable(graph, sha, head) {
        return true;
      }
      if Reachable(graph, head, sha) {
        head, work := sha, graph.trees[sha];
        return true;
      }
      match w.merge
      case Committed(id, tree) =>
        Conclude(id, sha, tree);
        return true;
      case Conflicted(files, conflicted) =>
        merging := Some(Merging(sha, files, work));
        work := conflicted;
        return false;
      case Failed(started, partial) =>
        if started {
          merging := Some(Merging(sha, [], work));
          work := partial;
        }
        return false;
    }

    method AbortJoin(w: World) returns (ok: bool)
      modifies this
      ensures (Snapshot(), ok) == GitAbort(old(Snapshot()), w)
    {
      if merging.None? || !w.abortWorks {
        return false;
      }
      work, merging := merging.value.saved, None;
      return true;
    }

    method ReportHead(sha: Id, w: World) returns (o: Outcome)
      ensures o == Report(Snapshot(), sha, w)
    {
      if !w.headWorks {
        return Threw;
      }
      return if head == sha then FastForward(head) else Merge(head);
    }

    method MergeIntoLane(sha: Id, policy: Policy, w: World) returns (o: Outcome)
      requires Snapshot().Valid()
      modifies this
      ensures (Snapshot(), o) == Joined(old(Snapshot()), sha, policy, w)
    {
      var merged := RunMerge(sha, w);
      if !merged {
        if !w.listWorks {
          return Threw;
        }
        var files := Unmerged(Snapshot());
        if files == [] {
          var _ := AbortJoin(w);
          return Threw;
        }
        if policy.Abort? {
          var aborted := AbortJoin(w);
          return if aborted then Conflict(files) else Threw;
        }
        if w.resolver.None? || !w.describeWorks {
          var _ := AbortJoin(w);
          return Threw;
        }
        work := w.resolver.value.work;
        if w.resolver.value.ResolverThrew? {
          var _ := AbortJoin(w);
          return Threw;
        }
        if w.resolver.value.Unresolved? {
          var aborted := AbortJoin(w);
          return if aborted then Conflict(files) else Threw;
        }
        if !w.stageWorks {
          return Threw;
        }
        merging := Some(merging.value.(unmerged := []));
        if w.commit.None? {
          return Threw;
        }
        Conclude(w.commit.value, merging.value.other, work);
      }
      o := ReportHead(sha, w);
    }
  }
}
