/** Reclaiming what a crash left of a lane: clearing lock files, then the passes over worktrees, branches and
    directories, after which creating the same lane is possible again, from every crash point. */
module LaneRecovery {
  import opened Wrappers
  import opened LaneNames
  import opened LaneSteps

  // ----- What each pass does -----

  predicate InRun(runId: string, lane: string) {
    runId + "-" <= lane
  }

  /** The ref pattern of this run's namespace, whose star does not cross a slash. */
  predicate BranchInRun(runId: string, branch: string) {
    var prefix := "forge/" + runId + "/";
    prefix <= branch && '/' !in branch[|prefix|..]
  }

  /** `git worktree prune` drops the entry: it is unlocked, and its directory or the directory's `.git` pointer is
      gone. */
  predicate Prunable(r: Repo, id: string) {
    id in r.regs && !r.regs[id].locked && (id !in r.dirs || !r.regs[id].pointer)
  }

  /** Listed, and not dropped by a prune. */
  predicate Stable(r: Repo, id: string) {
    id in r.regs && r.regs[id].readable && !Prunable(r, id)
  }

  /** After the worktree pass: the unknown lanes under this run's prefix are unregistered, and the branches of those
      that were listed are gone; nothing has been added; another registration is dropped only if it was unreadable or
      prunable, another directory or branch never. */
  ghost predicate WorktreePass(r: Repo, runId: string, known: set<string>, r': Repo) {
    && Listable(r') && r'.elsewhere == r.elsewhere && r'.locks == r.locks
    && r'.branches <= r.branches && r'.dirs <= r.dirs
    && (forall x | x in r'.regs :: x in r.regs && r'.regs[x] == r.regs[x] && (InRun(runId, x) ==> x in known))
    && (forall x | x in r.regs && x !in r'.regs ::
          (InRun(runId, x) && x !in known) || !Stable(r, x))
    && (forall x | x in r.dirs && x !in r'.dirs :: InRun(runId, x) && x !in known)
    && (forall b | b in r.branches && b !in r'.branches ::
          exists x :: x in r.regs && r.regs[x].branch == Some(b) && InRun(runId, x) && x !in known)
    && (forall x | x in r.regs && r.regs[x].readable && InRun(runId, x) && x !in known && r.regs[x].branch.Some? ::
          r.regs[x].branch.value !in r'.branches)
  }

  /** After the branch pass: of this run's branches, exactly the checked-out ones are left. */
  function BranchPass(r: Repo, runId: string): Repo {
    r.(branches := set b | b in r.branches && !(BranchInRun(runId, b) && !CheckedOut(r, b)))
  }

  /** After the directory pass: of the directories under this run's prefix, exactly the registered ones are left. */
  function DirectoryPass(r: Repo, runId: string): Repo {
    r.(dirs := set d | d in r.dirs && !(InRun(runId, d) && d !in r.regs))
  }

  // ----- Recovery makes the lane creatable again -----

  /** After clearing locks and the three passes, `createLaneWorktree` for the same run and step is not refused,
      provided no other worktree has checked the lane's branch out. */
  lemma ReclaimEnablesCreate(r: Repo, lane: Lane, known: set<string>, r1: Repo)
    requires '/' !in lane.slug && lane.Id() !in known
    requires OwnBranch(r, lane.Id(), lane.Branch())
    requires WorktreePass(r.(locks := {}), lane.runId, known, r1)
    ensures CanAdd(DirectoryPass(BranchPass(r1, lane.runId), lane.runId), lane)
  {
    var id, branch := lane.Id(), lane.Branch();
    assert id == (lane.runId + "-") + lane.slug;
    assert InRun(lane.runId, id);
    assert id !in r1.regs;
    var prefix := "forge/" + lane.runId + "/";
    assert branch == prefix + lane.slug && branch[|prefix|..] == lane.slug;
    assert BranchInRun(lane.runId, branch);
    assert !CheckedOut(r1, branch);
  }

  /** From every crash point: wherever a run of creations, removals and reclaims of any of the lanes breaks off,
      clearing locks and the three passes lead to a state in which creating the lane is not refused. */
  lemma EveryCrashPointRecovers(
    lanes: set<Lane>, start: Repo, steps: seq<Step>, crashed: Repo, lane: Lane, known: set<string>, listed: Repo)
    requires Separate(lanes) && Sound(lanes, start) && Reaches(lanes, start, steps, crashed)
    requires lane in lanes && '/' !in lane.slug && lane.Id() !in known
    requires WorktreePass(crashed.(locks := {}), lane.runId, known, listed)
    ensures var r := DirectoryPass(BranchPass(listed, lane.runId), lane.runId);
      && CanAdd(r, lane)
      && r.locks == {} && (forall x | x in r.regs :: r.regs[x].readable)
      && lane.Branch() !in r.branches && lane.Id() !in r.dirs && lane.Id() !in r.regs
  {
    assert forall r: Repo | CanAdd(r, lane) ::
        && r.locks == {} && (forall x | x in r.regs :: r.regs[x].readable)
        && lane.Branch() !in r.branches && lane.Id() !in r.dirs && lane.Id() !in r.regs;
    hide Separate, WorktreePass, BranchPass, DirectoryPass, CanAdd, OwnBranch;
    CrashPointSound(lanes, start, steps, crashed);
    ReclaimEnablesCreate(crashed, lane, known, listed);
  }

  /** The branch pass deletes exactly the branches that no worktree has checked out and that are named after this run
      and one more name without a slash. */
  lemma BranchesTakenExactly(r: Repo, runId: string, b: string)
    ensures b in BranchPass(r, runId).branches <==>
      && b in r.branches
      && (|| b in r.elsewhere || (exists x :: x in r.regs && r.regs[x].branch == Some(b))
          || !exists slug: string :: '/' !in slug && b == "forge/" + runId + "/" + slug)
  {
    var prefix := "forge/" + runId + "/";
    if prefix <= b {
      assert b == prefix + b[|prefix|..];
    }
    forall slug: string | '/' !in slug && b == prefix + slug
      ensures BranchInRun(runId, b)
    {
      assert b[|prefix|..] == slug;
    }
  }

  /** The branch and directory passes of one run leave another run's lane alone when neither run id contains a slash and
      the first, followed by a hyphen, is not a prefix of the lane's id. */
  lemma OtherRunsUntouched(r: Repo, runId: string, runId': string, slug': string)
    requires runId != runId' && '/' !in runId && '/' !in runId' && !(runId + "-" <= LaneOf(runId', slug'))
    ensures var r' := DirectoryPass(BranchPass(r, runId), runId);
      && r'.regs == r.regs && r'.locks == r.locks
      && (LaneOf(runId', slug') in r'.dirs <==> LaneOf(runId', slug') in r.dirs)
      && (BranchOf(runId', slug') in r'.branches <==> BranchOf(runId', slug') in r.branches)
  {
    OtherRunsBranch(runId, runId', slug');
  }

  lemma OtherRunsBranch(runId: string, runId': string, slug': string)
    requires runId != runId' && '/' !in runId && '/' !in runId'
    ensures !BranchInRun(runId, BranchOf(runId', slug'))
  {
    var prefix, branch := "forge/" + runId + "/", BranchOf(runId', slug');
    DifferBeforeSlash(runId, runId', slug');
    assert prefix[6..] == runId + "/" && branch[6..] == runId' + "/" + slug';
  }

  lemma {:induction false} DifferBeforeSlash(a: string, b: string, tail: string)
    requires a != b && '/' !in a && '/' !in b
    ensures !(a + "/" <= b + "/" + tail)
  {
    var s, t := a + "/", b + "/" + tail;
    if a != "" && b != "" && a[0] == b[0] {
      assert a == [a[0]] + a[1..] && b == [b[0]] + b[1..];
      DifferBeforeSlash(a[1..], b[1..], tail);
      assert s[1..] == a[1..] + "/" && t[1..] == b[1..] + "/" + tail;
    } else {
      assert s[0] != t[0];
    }
  }

  /** What a recovery of run `runId` leaves of a lane that is listed and not prunable: registration, directory and
      branch all stay as they were, or all go; they go exactly when the lane's id begins with the run's id and a hyphen
      and the run does not know the lane, whichever run the lane belongs to. */
  lemma ReclaimTakesExactly(r: Repo, runId: string, known: set<string>, r1: Repo, id: string)
    requires Consistent(r) && WorktreePass(r.(locks := {}), runId, known, r1)
    requires id in r.regs && r.regs[id].readable && (r.regs[id].locked || (id in r.dirs && r.regs[id].pointer))
    ensures var r' := DirectoryPass(BranchPass(r1, runId), runId);
      var kept := !(runId + "-" <= id && id !in known);
      && (id in r'.regs <==> kept) && (kept ==> r'.regs[id] == r.regs[id])
      && (id in r'.dirs <==> kept && id in r.dirs)
      && (r.regs[id].branch.Some? ==>
            (r.regs[id].branch.value in r'.branches <==> kept && r.regs[id].branch.value in r.branches))
  {
    assert InRun(runId, id) <==> runId + "-" <= id;
    hide InRun, BranchInRun;
    var cleared := r.(locks := {});
    assert Stable(cleared, id) && cleared.regs == r.regs && cleared.dirs == r.dirs && cleared.branches == r.branches;
  }

  /** A directory no worktree is registered at goes exactly when its name begins with the run's id and a hyphen. */
  lemma BareDirectoryTaken(r: Repo, runId: string, known: set<string>, r1: Repo, id: string)
    requires WorktreePass(r.(locks := {}), runId, known, r1) && id in r.dirs && id !in r.regs
    ensures id in DirectoryPass(BranchPass(r1, runId), runId).dirs <==> !(runId + "-" <= id)
  {
  }

  /** A recovery leaves another run's lane alone when neither run id contains a slash and the lane's id does not begin
      with this run's id and a hyphen: directory and branch stay as they were, and so does the registration unless it
      was unreadable or prunable. */
  lemma OtherRunsSurvive(lanes: set<Lane>, r: Repo, runId: string, known: set<string>, r1: Repo, other: Lane)
    requires Sound(lanes, r) && other in lanes && WorktreePass(r.(locks := {}), runId, known, r1)
    requires runId != other.runId && '/' !in runId && '/' !in other.runId && !(runId + "-" <= other.Id())
    ensures var r' := DirectoryPass(BranchPass(r1, runId), runId);
      && (other.Id() in r'.dirs <==> other.Id() in r.dirs)
      && (other.Branch() in r'.branches <==> other.Branch() in r.branches)
      && (other.Id() in r.regs && r.regs[other.Id()].readable &&
          (r.regs[other.Id()].locked || (other.Id() in r.dirs && r.regs[other.Id()].pointer)) ==>
            other.Id() in r'.regs && r'.regs[other.Id()] == r.regs[other.Id()])
  {
    assert !InRun(runId, other.Id());
    OtherRunsUntouched(r1, runId, other.runId, other.slug);
    hide InRun, BranchInRun, LaneOf, BranchOf;
    assert OwnBranch(r, other.Id(), other.Branch());
    if Stable(r, other.Id()) {
      assert Stable(r.(locks := {}), other.Id());
    }
  }

  /** Run ids of equal length cannot be in each other's way: a recovery of one leaves every listed, not prunable lane of
      the other with its registration, directory and branch, and deletes none of its unregistered directories. */
  lemma EqualLengthRunsSurvive(r: Repo, runId: string, known: set<string>, r1: Repo, other: Lane)
    requires Consistent(r) && WorktreePass(r.(locks := {}), runId, known, r1)
    requires runId != other.runId && |runId| == |other.runId|
    ensures var r', id := DirectoryPass(BranchPass(r1, runId), runId), other.Id();
      && (id in r.dirs ==> id in r.regs || id in r'.dirs)
      && (id in r.regs && r.regs[id].readable && (r.regs[id].locked || (id in r.dirs && r.regs[id].pointer)) ==>
            && id in r'.regs && r'.regs[id] == r.regs[id] && (id in r'.dirs <==> id in r.dirs)
            && (r.regs[id].branch.Some? && r.regs[id].branch.value in r.branches ==>
                  r.regs[id].branch.value in r'.branches))
  {
    var id := other.Id();
    assert id == other.runId + "-" + other.slug;
    assert id[..|runId|] == other.runId;
    hide WorktreePass, BranchPass, DirectoryPass, LaneOf;
    if id in r.regs {
      if r.regs[id].readable && (r.regs[id].locked || (id in r.dirs && r.regs[id].pointer)) {
        ReclaimTakesExactly(r, runId, known, r1, id);
      }
    } else if id in r.dirs {
      BareDirectoryTaken(r, runId, known, r1, id);
    }
  }

  /** So a recovery of run `a` takes every listed lane of run `a-b` that it does not know by name. */
  lemma PrefixRunLosesLane(r: Repo, slug: string, known: set<string>, r1: Repo)
    requires Consistent(r) && WorktreePass(r.(locks := {}), "a", known, r1)
    requires var id := LaneOf("a-b", slug);
      && id !in known && id in r.regs && r.regs[id].readable
      && (r.regs[id].locked || (id in r.dirs && r.regs[id].pointer))
    ensures var r' := DirectoryPass(BranchPass(r1, "a"), "a");
      LaneOf("a-b", slug) !in r'.regs && LaneOf("a-b", slug) !in r'.dirs
  {
    PrefixRunExists(slug);
    ReclaimTakesExactly(r, "a", known, r1, LaneOf("a-b", slug));
  }

  /** Such run ids exist: run `a` owns the prefix of every lane of run `a-b`. */
  lemma PrefixRunExists(slug: string)
    ensures "a" != "a-b" && "a" + "-" <= LaneOf("a-b", slug)
  {
    assert LaneOf("a-b", slug) == "a" + "-" + ("b-" + slug);
  }

  // ----- The functions themselves -----

  /** The repository a process works on. It was reached from `start` by `steps`, through processes that may have died
      between any two of them. */
  class Repository {
    ghost const lanes: set<Lane>
    ghost const start: Repo
    ghost var steps: seq<Step>
    var branches: set<string>
    var elsewhere: set<string>
    var regs: map<string, Registration>
    var dirs: set<string>
    var locks: set<string>

    /** A new process finds whatever state the last one left. */
    constructor (r: Repo, ghost lanes: set<Lane>, ghost start: Repo, ghost steps: seq<Step>)
      requires Separate(lanes) && Sound(lanes, start) && Reaches(lanes, start, steps, r)
      ensures Recorded() && Snapshot() == r && fresh(this)
      ensures this.lanes == lanes && this.start == start && this.steps == steps
    {
      this.lanes, this.start, this.steps := lanes, start, steps;
      branches, elsewhere, regs, dirs, locks := r.branches, r.elsewhere, r.regs, r.dirs, r.locks;
    }

    function Snapshot(): Repo
      reads this
    {
      Repo(branches, elsewhere, regs, dirs, locks)
    }

    ghost predicate Recorded()
      reads this
    {
      Separate(lanes) && Sound(lanes, start) && Reaches(lanes, start, steps, Snapshot())
    }

    lemma AtCrashPoint()
      requires Recorded()
      ensures Sound(lanes, Snapshot())
    {
      CrashPointSound(lanes, start, steps, Snapshot());
    }

    /** One step of git or of `rm`. */
    method Do(l: Step)
      requires Recorded() && Enabled(Snapshot(), l) && (l.Attached? ==> l.lane in lanes)
      modifies this
      ensures Recorded() && Snapshot() == Take(old(Snapshot()), l) && steps == old(steps) + [l]
    {
      hide Take, Enabled, Separate, Sound;
      ReachesNext(lanes, start, steps, Snapshot(), l);
      var next := Take(Snapshot(), l);
      branches, elsewhere, regs, dirs, locks := next.branches, next.elsewhere, next.regs, next.dirs, next.locks;
      steps := steps + [l];
    }

    /** One part of creating a lane, done under some lock file. */
    method DoPart(ghost before: Repo, lane: Lane, ghost done: set<Part>, part: Part)
      requires Recorded() && lane in lanes && CanAdd(before, lane)
      requires Orderly(done) && part !in done && Needs(part) <= done && Snapshot() == Partly(before, lane, done)
      modifies this
      ensures Recorded() && old(steps) <= steps && Snapshot() == Partly(before, lane, done + {part})
      ensures Orderly(done + {part})
    {
      var file: string := *;
      assert before.locks == {} && lane.Id() !in before.regs;
      PartIsStep(before.(locks := {file}), lane, done, part);
      AttachesOwn(lane, part);
      hide Recorded, Enabled, StepOf, Needs, Orderly, CanAdd, Entered;
      Do(LockTaken(file)) by { CanLock(Snapshot(), file); }
      assert Snapshot() == Partly(before.(locks := {file}), lane, done);
      Do(StepOf(lane, part));
      Do(LockGone(file)) by { CanLock(Snapshot(), file); }
    }

    /** `git worktree add`, with its internal steps in any order they can be taken. */
    method CreateLaneWorktree(lane: Lane) returns (ok: bool)
      requires Recorded() && lane in lanes
      modifies this
      ensures Recorded() && old(steps) <= steps
      ensures ok <==> CanAdd(old(Snapshot()), lane)
      ensures Snapshot() == if ok then Added(old(Snapshot()), lane) else old(Snapshot())
    {
      hide Recorded, Partly, Added, Needs, Orderly;
      if !CanAdd(Snapshot(), lane) {
        return false;
      }
      ghost var before := Snapshot();
      PartlyDone(before, lane);
      NothingDone();
      var todo := ALL;
      while todo != {}
        invariant todo <= ALL && Orderly(ALL - todo) && Recorded() && old(steps) <= steps
        invariant Snapshot() == Partly(before, lane, ALL - todo)
        decreases todo
      {
        SomePartReady(todo);
        var part :| part in todo && Needs(part) <= ALL - todo;
        DoPart(before, lane, ALL - todo, part);
        assert ALL - todo + {part} == ALL - (todo - {part});
        todo := todo - {part};
      }
      assert ALL - todo == ALL;
      return true;
    }

    method ClearStaleRepoLocks()
      requires Recorded()
      modifies this
      ensures Recorded() && old(steps) <= steps && Snapshot() == old(Snapshot()).(locks := {})
    {
      hide Recorded;
      ghost var before := Snapshot();
      while locks != {}
        invariant Recorded() && old(steps) <= steps && Snapshot() == before.(locks := locks)
        decreases locks
      {
        var file :| file in locks;
        Do(LockGone(file));
      }
    }

    /** Deletes each entry whose `commondir` is missing. */
    method RepairUnlistableWorktreeAdminEntries()
      requires Recorded()
      modifies this
      ensures Recorded() && old(steps) <= steps && Listable(Snapshot())
      ensures Snapshot() == old(Snapshot()).(regs := map x | x in old(regs) && old(regs)[x].readable :: old(regs)[x])
    {
      hide Recorded, Listable;
      ghost var before := Snapshot();
      var todo := regs.Keys;
      while todo != {}
        invariant Recorded() && old(steps) <= steps && todo <= regs.Keys <= before.regs.Keys
        invariant Snapshot() == before.(regs := regs) && forall x | x in regs :: regs[x] == before.regs[x]
        invariant forall x | x in before.regs :: x !in todo ==> (x in regs <==> before.regs[x].readable)
        decreases todo
      {
        var id :| id in todo;
        if !regs[id].readable {
          Do(EntryGone(id));
        }
        todo := todo - {id};
      }
      assert regs == map x | x in before.regs && before.regs[x].readable :: before.regs[x];
      AllReadable(Snapshot());
    }

    /** An administrative entry is deleted file by file; `commondir` may go first. */
    method DeleteEntry(id: string)
      requires Recorded() && id in regs
      modifies this
      ensures Recorded() && old(steps) <= steps && Snapshot() == old(Snapshot()).(regs := old(regs) - {id})
    {
      hide Recorded;
      Do(CommondirGone(id));
      Do(EntryGone(id));
      assert regs == old(regs) - {id};
    }

    /** `git branch -D`, under a lock on the ref. */
    method DeleteBranch(branch: string)
      requires Recorded() && locks == {} && !CheckedOut(Snapshot(), branch)
      modifies this
      ensures Recorded() && old(steps) <= steps
      ensures Snapshot() == old(Snapshot()).(branches := old(branches) - {branch})
    {
      hide Recorded, CheckedOut;
      var file: string := *;
      Do(LockTaken(file));
      SameCheckedOut(old(Snapshot()), Snapshot(), branch);
      Do(BranchGone(branch));
      Do(LockGone(file));
    }

    /** `git worktree prune`: forgets every unlocked worktree whose directory, or the pointer in it, is gone. */
    method Prune()
      requires Recorded()
      modifies this
      ensures Recorded() && old(steps) <= steps
      ensures Snapshot() == old(Snapshot()).(
        regs := map x | x in old(regs) && !Prunable(old(Snapshot()), x) :: old(regs)[x])
    {
      hide Recorded;
      ghost var before := Snapshot();
      var todo := set x | x in regs && Prunable(Snapshot(), x);
      while todo != {}
        invariant Recorded() && old(steps) <= steps && todo <= regs.Keys <= before.regs.Keys
        invariant Snapshot() == before.(regs := regs) && forall x | x in regs :: regs[x] == before.regs[x]
        invariant forall x | x in before.regs :: x !in todo ==> (x in regs <==> !Prunable(before, x))
        decreases todo
      {
        var id :| id in todo;
        DeleteEntry(id);
        todo := todo - {id};
      }
      assert regs == map x | x in before.regs && !Prunable(before, x) :: before.regs[x];
    }

    /** The registered worktree and its directory go: by `git worktree remove -f -f`, or, when git refuses because the
        directory has no `.git` pointer, by deleting the directory, unlocking and pruning. */
    method RemoveRegistered(id: string)
      requires Recorded() && Listable(Snapshot()) && id in regs
      modifies this
      ensures Recorded() && old(steps) <= steps
      ensures Listable(Snapshot()) && id !in regs && dirs == old(dirs) - {id}
      ensures branches == old(branches) && elsewhere == old(elsewhere) && locks == old(locks)
      ensures forall x | x in regs :: x in old(regs) && regs[x] == old(regs)[x]
      ensures forall x | x in old(regs) && x !in regs && x != id :: Prunable(old(Snapshot()), x)
    {
      hide Recorded;
      if id !in dirs || regs[id].pointer {
        Do(PointerGone(id));
        Do(DirectoryGone(id));
        DeleteEntry(id);
        return;
      }
      Do(DirectoryGone(id));
      if regs[id].locked {
        Do(EntryUnlocked(id));
      }
      Prune();
    }

    method RemoveLaneWorktree(id: string, branch: Option<string>) returns (ok: bool)
      requires Recorded() && Listable(Snapshot())
      modifies this
      ensures Recorded() && old(steps) <= steps
      ensures Listable(Snapshot()) && id !in regs && elsewhere == old(elsewhere) && locks == old(locks)
      ensures dirs == if id in old(regs) then old(dirs) - {id} else old(dirs)
      ensures forall x | x in regs :: x in old(regs) && regs[x] == old(regs)[x]
      ensures forall x | x in old(regs) && x !in regs && x != id :: Prunable(old(Snapshot()), x)
      ensures branches == if ok && branch.Some? then old(branches) - {branch.value} else old(branches)
      ensures old(locks) == {} && (branch.Some? ==> OwnBranch(old(Snapshot()), id, branch.value)) ==> ok
      ensures ok ==> Removed(old(Snapshot()), id, branch, Snapshot())
    {
      hide Recorded;
      if id in regs {
        RemoveRegistered(id);
      }
      if branch.Some? && branch.value in branches {
        if locks != {} || CheckedOut(Snapshot(), branch.value) {
          return false;
        }
        DeleteBranch(branch.value);
      }
      return true;
    }

    /** The listing of `listOrphanedWorktrees`: if git cannot list the worktrees, the unreadable entries are repaired
        away and it is asked again. */
    method ListWorktrees() returns (listed: map<string, Registration>)
      requires Recorded()
      modifies this
      ensures Recorded() && old(steps) <= steps && Listable(Snapshot()) && listed == regs
      ensures Listed(old(Snapshot()), listed) && Snapshot() == old(Snapshot()).(regs := listed)
    {
      hide Recorded;
      if !Listable(Snapshot()) {
        RepairUnlistableWorktreeAdminEntries();
      }
      return regs;
    }

    method RemoveListed(ghost before: Repo, listed: map<string, Registration>, ghost reclaimed: set<string>, id: string)
      returns (ok: bool)
      requires Recorded() && Listable(Snapshot()) && locks == {} && id in listed
      requires Consistent(before) && Reclaiming(before, listed, reclaimed, Snapshot())
      modifies this
      ensures Recorded() && old(steps) <= steps && Listable(Snapshot()) && locks == {}
      ensures ok && Reclaiming(before, listed, reclaimed + {id}, Snapshot())
    {
      hide Recorded, Reclaiming, Removed, OwnBranch, Consistent, Prunable, Listable;
      ghost var now := Snapshot();
      BranchStillOwn(before, listed, reclaimed, now, id);
      ok := RemoveLaneWorktree(id, listed[id].branch);
      ReclaimOne(before, listed, reclaimed, now, id, Snapshot());
    }

    /** Removes every unknown lane listed under this run's prefix. */
    method ReclaimWorktrees(runId: string, known: set<string>) returns (ok: bool)
      requires Recorded() && locks == {}
      modifies this
      ensures Recorded() && old(steps) <= steps
      ensures ok && WorktreePass(old(Snapshot()), runId, known, Snapshot())
    {
      ghost var before := Snapshot();
      AtCrashPoint();
      hide Recorded, InRun, Reclaiming, WorktreePass, Listed, Listable;
      var listed := ListWorktrees();
      var todo := set x | x in listed && InRun(runId, x) && x !in known;
      ghost var all := todo;
      NothingReclaimed(before, listed, Snapshot());
      while todo != {}
        invariant Recorded() && old(steps) <= steps && Listable(Snapshot()) && locks == {}
        invariant todo <= all && Reclaiming(before, listed, all - todo, Snapshot())
        decreases todo
      {
        var id :| id in todo;
        var _ := RemoveListed(before, listed, all - todo, id);
        assert all - todo + {id} == all - (todo - {id});
        todo := todo - {id};
      }
      assert all - todo == all;
      ReclaimedAll(before, runId, known, listed, Snapshot());
      return true;
    }

    /** Deletes every branch of this run that no worktree has checked out. */
    method ReclaimBranches(runId: string) returns (ok: bool)
      requires Recorded() && Listable(Snapshot()) && locks == {}
      modifies this
      ensures Recorded() && old(steps) <= steps
      ensures ok && Snapshot() == BranchPass(old(Snapshot()), runId)
    {
      hide Recorded, CheckedOut, BranchInRun;
      var orphans := set b | b in branches && BranchInRun(runId, b) && !CheckedOut(Snapshot(), b);
      ghost var before := Snapshot();
      ghost var all := orphans;
      while orphans != {}
        invariant Recorded() && old(steps) <= steps && locks == {}
        invariant orphans <= all && Snapshot() == before.(branches := before.branches - (all - orphans))
        decreases orphans
      {
        var b :| b in orphans;
        SameCheckedOut(before, Snapshot(), b);
        if locks != {} || CheckedOut(Snapshot(), b) {
          return false;
        }
        DeleteBranch(b);
        orphans := orphans - {b};
      }
      return true;
    }

    /** Deletes every directory under this run's prefix that is not a registered worktree. */
    method ReclaimDirectories(runId: string) returns (ok: bool)
      requires Recorded() && Listable(Snapshot())
      modifies this
      ensures Recorded() && old(steps) <= steps
      ensures ok && Snapshot() == DirectoryPass(old(Snapshot()), runId)
    {
      hide Recorded, InRun;
      var orphans := set d | d in dirs && InRun(runId, d) && d !in regs;
      ghost var before := Snapshot();
      ghost var all := orphans;
      while orphans != {}
        invariant Recorded() && old(steps) <= steps
        invariant orphans <= all && Snapshot() == before.(dirs := before.dirs - (all - orphans))
        decreases orphans
      {
        var d :| d in orphans;
        Do(DirectoryGone(d));
        orphans := orphans - {d};
      }
      return true;
    }

    /** The whole recovery, then the creation: at whatever point earlier creations, removals or recoveries were broken
        off, the lane is created. */
    method RecreateAfterCrash(lane: Lane, known: set<string>) returns (ok: bool)
      requires Recorded() && lane in lanes && '/' !in lane.slug && lane.Id() !in known
      modifies this
      ensures Recorded() && old(steps) <= steps
      ensures ok && lane.Id() in regs && regs[lane.Id()] == Registration(Some(lane.Branch()), false, true, true)
      ensures lane.Id() in dirs && lane.Branch() in branches
    {
      ghost var crashed, history := Snapshot(), steps;
      assert Reaches(lanes, start, history, crashed);
      hide Recorded, WorktreePass, Listable;
      ClearStaleRepoLocks();
      var _ := ReclaimWorktrees(lane.runId, known);
      ghost var listed := Snapshot();
      PassLists(crashed.(locks := {}), lane.runId, known, listed);
      var _ := ReclaimBranches(lane.runId);
      var _ := ReclaimDirectories(lane.runId);
      CrashRecovers(history, crashed, lane, known, listed);
      ok := CreateLaneWorktree(lane);
    }

    lemma CrashRecovers(history: seq<Step>, crashed: Repo, lane: Lane, known: set<string>, listed: Repo)
      requires Recorded() && Reaches(lanes, start, history, crashed)
      requires lane in lanes && '/' !in lane.slug && lane.Id() !in known
      requires WorktreePass(crashed.(locks := {}), lane.runId, known, listed)
      ensures CanAdd(DirectoryPass(BranchPass(listed, lane.runId), lane.runId), lane)
    {
      EveryCrashPointRecovers(lanes, start, history, crashed, lane, known, listed);
    }
  }

  // ----- The loop of the worktree pass -----

  /** What removing one lane's worktree does. */
  ghost predicate Removed(r: Repo, id: string, branch: Option<string>, r': Repo) {
    && Listable(r') && id !in r'.regs && r'.elsewhere == r.elsewhere && r'.locks == r.locks
    && r'.dirs == (if id in r.regs then r.dirs - {id} else r.dirs)
    && (forall x | x in r'.regs :: x in r.regs && r'.regs[x] == r.regs[x])
    && (forall x | x in r.regs && x !in r'.regs && x != id :: Prunable(r, x))
    && r'.branches == if branch.Some? then r.branches - {branch.value} else r.branches
  }

  /** The entries listed at first, of which these have been reclaimed. */
  ghost predicate Listed(before: Repo, listed: map<string, Registration>) {
    && (forall x | x in listed :: x in before.regs && listed[x] == before.regs[x])
    && (forall x | x in before.regs && before.regs[x].readable :: x in listed)
  }

  ghost predicate Reclaiming(before: Repo, listed: map<string, Registration>, reclaimed: set<string>, now: Repo) {
    && Listed(before, listed) && now.elsewhere == before.elsewhere && now.locks == before.locks
    && (forall x | x in reclaimed :: x in listed)
    && (forall x | x in now.regs :: x in listed && now.regs[x] == listed[x] && x !in reclaimed)
    && (forall x | x in listed && x !in now.regs :: x in reclaimed || Prunable(before, x))
    && now.dirs <= before.dirs && (forall x | x in before.dirs && x !in now.dirs :: x in reclaimed)
    && now.branches <= before.branches
    && (forall b | b in before.branches && b !in now.branches ::
          exists x :: x in reclaimed && listed[x].branch == Some(b))
    && (forall x | x in reclaimed && listed[x].branch.Some? :: listed[x].branch.value !in now.branches)
  }

  lemma NothingReclaimed(before: Repo, listed: map<string, Registration>, now: Repo)
    requires now == before.(regs := listed) && Listed(before, listed)
    ensures Reclaiming(before, listed, {}, now)
  {
  }

  lemma BranchStillOwn(
    before: Repo, listed: map<string, Registration>, reclaimed: set<string>, now: Repo, id: string)
    requires Consistent(before) && Reclaiming(before, listed, reclaimed, now) && id in listed
    ensures listed[id].branch.Some? ==> OwnBranch(now, id, listed[id].branch.value)
  {
  }

  lemma ReclaimOne(
    before: Repo, listed: map<string, Registration>, reclaimed: set<string>, now: Repo, id: string, next: Repo)
    requires Reclaiming(before, listed, reclaimed, now) && id in listed
    requires Removed(now, id, listed[id].branch, next)
    ensures Reclaiming(before, listed, reclaimed + {id}, next)
  {
  }

  lemma ReclaimedAll(before: Repo, runId: string, known: set<string>, listed: map<string, Registration>, now: Repo)
    requires var all := set x | x in listed && InRun(runId, x) && x !in known; Reclaiming(before, listed, all, now)
    requires Listable(now)
    ensures WorktreePass(before, runId, known, now)
  {
    hide InRun;
  }

  lemma PassLists(r: Repo, runId: string, known: set<string>, r': Repo)
    requires WorktreePass(r, runId, known, r')
    ensures Listable(r') && r'.locks == r.locks && Listable(BranchPass(r', runId))
  {
  }

  lemma CanLock(r: Repo, file: string)
    ensures Enabled(r, LockTaken(file)) && Enabled(r, LockGone(file))
  {
  }

  lemma NothingDone()
    ensures ALL - ALL == {} && Orderly(ALL - ALL)
  {
  }

  lemma AllReadable(r: Repo)
    requires forall x | x in r.regs :: r.regs[x].readable
    ensures Listable(r)
  {
  }

  lemma SameCheckedOut(r: Repo, r': Repo, branch: string)
    requires r'.regs == r.regs && r'.elsewhere == r.elsewhere
    ensures CheckedOut(r, branch) <==> CheckedOut(r', branch)
  {
  }
}
