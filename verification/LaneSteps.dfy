/** What git does to a repository while lanes are created, removed and reclaimed, one step at a time. A process can die
    between any two steps, so every state along a run of steps is a crash point. Git is what the lane code can see of
    it: branch refs, registered worktrees, the directories under .forge/state/worktrees, and lock files. */
module LaneSteps {
  import opened Wrappers
  import opened LaneNames

  /** One administrative entry of `git worktree`, keyed by its lane id: the branch it has checked out (none in the
      placeholder state), whether it is locked, whether its `commondir` file is there, and whether the worktree's own
      `.git` pointer was written. */
  datatype Registration = Registration(branch: Option<string>, locked: bool, readable: bool, pointer: bool)

  /** `elsewhere` are the branches checked out by worktrees that are not lanes. */
  datatype Repo = Repo(
    branches: set<string>,
    elsewhere: set<string>,
    regs: map<string, Registration>,
    dirs: set<string>,
    locks: set<string>)

  /** A run's lane for one step, given by the step's slug. */
  datatype Lane = Lane(runId: string, slug: string)
  {
    function Id(): string {
      LaneOf(runId, slug)
    }

    function Branch(): string {
      BranchOf(runId, slug)
    }
  }

  /** `git worktree list` answers at all. */
  predicate Listable(r: Repo) {
    forall lane | lane in r.regs :: r.regs[lane].readable
  }

  predicate CheckedOut(r: Repo, branch: string) {
    branch in r.elsewhere || exists lane :: lane in r.regs && r.regs[lane].branch == Some(branch)
  }

  // ----- Steps -----

  /** What git, or `rm`, does at once. Creating a lane makes the entry, its `commondir`, the branch, the directory and
      its pointer, attaches the branch, and locks the entry meanwhile; removing one deletes the directory and the
      entry, of which `commondir` may go first; pruning and reclaiming delete entries, branches and directories of any
      lane. */
  datatype Step =
    | LockTaken(file: string)
    | LockGone(file: string)
    | EntryMade(id: string)
    | CommondirMade(id: string)
    | CommondirGone(id: string)
    | EntryLocked(id: string)
    | EntryUnlocked(id: string)
    | EntryGone(id: string)
    | BranchMade(branch: string)
    | BranchGone(branch: string)
    | DirectoryMade(id: string)
    | DirectoryGone(id: string)
    | PointerMade(id: string)
    | PointerGone(id: string)
    | Attached(lane: Lane)

  predicate Enabled(r: Repo, l: Step) {
    match l
    case LockTaken(_) => true
    case LockGone(_) => true
    case EntryMade(id) => id !in r.regs
    case CommondirMade(id) => id in r.regs
    case CommondirGone(id) => id in r.regs
    case EntryLocked(id) => id in r.regs
    case EntryUnlocked(id) => id in r.regs
    case EntryGone(id) => id in r.regs
    case BranchMade(_) => true
    case BranchGone(branch) => !CheckedOut(r, branch)
    case DirectoryMade(_) => true
    case DirectoryGone(_) => true
    case PointerMade(id) => id in r.regs && id in r.dirs
    case PointerGone(id) => id in r.regs
    case Attached(lane) => lane.Id() in r.regs && lane.Branch() in r.branches
  }

  function Take(r: Repo, l: Step): Repo
    requires Enabled(r, l)
  {
    match l
    case LockTaken(file) => r.(locks := r.locks + {file})
    case LockGone(file) => r.(locks := r.locks - {file})
    case EntryMade(id) => r.(regs := r.regs[id := Registration(None, false, false, false)])
    case CommondirMade(id) => r.(regs := r.regs[id := r.regs[id].(readable := true)])
    case CommondirGone(id) => r.(regs := r.regs[id := r.regs[id].(readable := false)])
    case EntryLocked(id) => r.(regs := r.regs[id := r.regs[id].(locked := true)])
    case EntryUnlocked(id) => r.(regs := r.regs[id := r.regs[id].(locked := false)])
    case EntryGone(id) => r.(regs := r.regs - {id})
    case BranchMade(branch) => r.(branches := r.branches + {branch})
    case BranchGone(branch) => r.(branches := r.branches - {branch})
    case DirectoryMade(id) => r.(dirs := r.dirs + {id})
    case DirectoryGone(id) => r.(dirs := r.dirs - {id})
    case PointerMade(id) => r.(regs := r.regs[id := r.regs[id].(pointer := true)])
    case PointerGone(id) => r.(regs := r.regs[id := r.regs[id].(pointer := false)])
    case Attached(lane) => r.(regs := r.regs[lane.Id() := r.regs[lane.Id()].(branch := Some(lane.Branch()))])
  }

  /** These steps lead from `r` to `r'`; only lanes of `lanes` are attached to a branch. */
  ghost predicate Reaches(lanes: set<Lane>, r: Repo, steps: seq<Step>, r': Repo)
    decreases |steps|
  {
    if steps == [] then r' == r else Allowed(lanes, r, steps[0]) && Reaches(lanes, Take(r, steps[0]), steps[1..], r')
  }

  ghost predicate Allowed(lanes: set<Lane>, r: Repo, l: Step) {
    Enabled(r, l) && (l.Attached? ==> l.lane in lanes)
  }

  // ----- What every crash point keeps -----

  /** Git's own rule: a branch is checked out in at most one worktree. */
  ghost predicate Consistent(r: Repo) {
    && (forall x, y | x in r.regs && y in r.regs && x != y && r.regs[x].branch.Some? ::
          r.regs[x].branch != r.regs[y].branch)
    && (forall x | x in r.regs && r.regs[x].branch.Some? :: r.regs[x].branch.value !in r.elsewhere)
  }

  /** The lane's branch is not checked out by any other worktree. */
  ghost predicate OwnBranch(r: Repo, id: string, branch: string) {
    branch !in r.elsewhere && forall x | x in r.regs && x != id :: r.regs[x].branch != Some(branch)
  }

  ghost predicate Sound(lanes: set<Lane>, r: Repo) {
    Consistent(r) && forall lane | lane in lanes :: OwnBranch(r, lane.Id(), lane.Branch())
  }

  /** No two of the lanes share an id or a branch. */
  ghost predicate Separate(lanes: set<Lane>) {
    forall a, b | a in lanes && b in lanes && a != b :: a.Id() != b.Id() && a.Branch() != b.Branch()
  }

  /** Before anything has been created, a lane's branch is its own: a branch that does not exist is checked out
      nowhere. */
  lemma NewLanesSound(lanes: set<Lane>, r: Repo)
    requires Consistent(r)
    requires forall x | x in r.regs && r.regs[x].branch.Some? :: r.regs[x].branch.value in r.branches
    requires r.elsewhere <= r.branches && forall lane | lane in lanes :: lane.Branch() !in r.branches
    ensures Sound(lanes, r)
  {
  }

  /** Lanes named by `laneIdFor` and `laneBranchName` are separate whenever the hash does not confuse their steps. */
  lemma NamedLanesSeparate(n: Naming, steps: set<(string, string)>)
    requires n.Valid()
    requires forall a, b | a in steps && b in steps && n.hash(a.1) == n.hash(b.1) :: a.1 == b.1
    ensures Separate(set s | s in steps :: Lane(s.0, Slug(n, s.1)))
  {
    forall a, b | a in steps && b in steps && Lane(a.0, Slug(n, a.1)) != Lane(b.0, Slug(n, b.1))
      ensures LaneOf(a.0, Slug(n, a.1)) != LaneOf(b.0, Slug(n, b.1))
      ensures BranchOf(a.0, Slug(n, a.1)) != BranchOf(b.0, Slug(n, b.1))
    {
      NamesInjective(n, a.0, a.1, b.0, b.1);
    }
  }

  /** Only attaching gives a registration a branch it did not have. */
  lemma NoNewBranch(r: Repo, l: Step)
    requires Enabled(r, l) && !l.Attached?
    ensures var r' := Take(r, l);
      && r'.elsewhere == r.elsewhere
      && forall x | x in r'.regs && r'.regs[x].branch.Some? :: x in r.regs && r'.regs[x].branch == r.regs[x].branch
  {
  }

  lemma AttachKeepsSound(lanes: set<Lane>, r: Repo, lane: Lane)
    requires Separate(lanes) && Sound(lanes, r) && lane in lanes && Enabled(r, Attached(lane))
    ensures Sound(lanes, Take(r, Attached(lane)))
  {
    hide LaneOf, BranchOf;
    var r' := Take(r, Attached(lane));
    assert OwnBranch(r, lane.Id(), lane.Branch());
    forall other | other in lanes && other != lane
      ensures OwnBranch(r', other.Id(), other.Branch())
    {
      assert OwnBranch(r, other.Id(), other.Branch());
    }
  }

  lemma StepKeepsSound(lanes: set<Lane>, r: Repo, l: Step)
    requires Separate(lanes) && Sound(lanes, r) && Allowed(lanes, r, l)
    ensures Sound(lanes, Take(r, l))
  {
    hide LaneOf, BranchOf, Take, Separate;
    if l.Attached? {
      AttachKeepsSound(lanes, r, l.lane);
    } else {
      NoNewBranch(r, l);
      forall lane | lane in lanes
        ensures OwnBranch(Take(r, l), lane.Id(), lane.Branch())
      {
        assert OwnBranch(r, lane.Id(), lane.Branch());
      }
    }
  }

  /** Every crash point of any interleaving of creations, removals and reclaims, in whatever order git does its internal
      steps: no branch is checked out twice, and every lane's branch is its own. */
  lemma {:induction false} CrashPointSound(lanes: set<Lane>, r: Repo, steps: seq<Step>, r': Repo)
    requires Separate(lanes) && Sound(lanes, r) && Reaches(lanes, r, steps, r')
    ensures Sound(lanes, r')
    decreases |steps|
  {
    hide Sound, Separate, Take;
    if steps != [] {
      StepKeepsSound(lanes, r, steps[0]);
      CrashPointSound(lanes, Take(r, steps[0]), steps[1..], r');
    }
  }

  lemma {:induction false} ReachesNext(lanes: set<Lane>, r: Repo, steps: seq<Step>, mid: Repo, l: Step)
    requires Reaches(lanes, r, steps, mid) && Allowed(lanes, mid, l)
    ensures Reaches(lanes, r, steps + [l], Take(mid, l))
    decreases |steps|
  {
    hide Enabled, Take;
    if steps == [] {
      assert ([] + [l])[1..] == [];
    } else {
      ReachesNext(lanes, Take(r, steps[0]), steps[1..], mid, l);
      assert (steps + [l])[1..] == steps[1..] + [l];
    }
  }

  // ----- Creating a lane -----

  /** `git worktree add -b <branch> <path> <base>` is not refused: no lock is in its way, the worktrees can be listed,
      and the branch, the directory and the registration are all still free. */
  predicate CanAdd(r: Repo, lane: Lane) {
    r.locks == {} && Listable(r) && lane.Branch() !in r.branches && lane.Id() !in r.dirs && lane.Id() !in r.regs
  }

  /** The parts of creating a lane. */
  datatype Part = Entry | Commondir | Lock | Ref | Directory | Pointer | Attach | Unlock

  const ALL: set<Part> := {Entry, Commondir, Lock, Ref, Directory, Pointer, Attach, Unlock}

  /** Each part needs some others to be done: whatever is inside the entry needs the entry, and the entry is unlocked
      last. Otherwise git may take them in any order. */
  function Needs(part: Part): set<Part> {
    match part
    case Entry => {}
    case Commondir => {Entry}
    case Lock => {Entry}
    case Ref => {}
    case Directory => {}
    case Pointer => {Entry, Directory}
    case Attach => {Entry, Ref}
    case Unlock => ALL - {Unlock}
  }

  predicate Orderly(done: set<Part>) {
    forall part | part in done :: Needs(part) <= done
  }

  function StepOf(lane: Lane, part: Part): Step {
    match part
    case Entry => EntryMade(lane.Id())
    case Commondir => CommondirMade(lane.Id())
    case Lock => EntryLocked(lane.Id())
    case Ref => BranchMade(lane.Branch())
    case Directory => DirectoryMade(lane.Id())
    case Pointer => PointerMade(lane.Id())
    case Attach => Attached(lane)
    case Unlock => EntryUnlocked(lane.Id())
  }

  /** A registration with these parts done. */
  function Entered(lane: Lane, done: set<Part>): Registration {
    Registration(if Attach in done then Some(lane.Branch()) else None, Lock in done && Unlock !in done,
                 Commondir in done, Pointer in done)
  }

  /** The repository when exactly these parts of creating the lane are done. */
  function Partly(r: Repo, lane: Lane, done: set<Part>): Repo {
    r.(
      branches := if Ref in done then r.branches + {lane.Branch()} else r.branches,
      dirs := if Directory in done then r.dirs + {lane.Id()} else r.dirs,
      regs :=
        if Entry !in done then r.regs
        else r.regs[lane.Id() := Entered(lane, done)])
  }

  /** The lane with all parts done. */
  function Added(r: Repo, lane: Lane): Repo {
    r.(branches := r.branches + {lane.Branch()}, dirs := r.dirs + {lane.Id()},
       regs := r.regs[lane.Id() := Registration(Some(lane.Branch()), false, true, true)])
  }

  lemma PartlyDone(r: Repo, lane: Lane)
    ensures Partly(r, lane, {}) == r && Partly(r, lane, ALL) == Added(r, lane)
  {
  }

  predicate InsideEntry(part: Part) {
    part in {Commondir, Lock, Pointer, Attach, Unlock}
  }

  /** One more part inside the entry changes the entry alone. */
  lemma InsidePart(r: Repo, lane: Lane, done: set<Part>, part: Part)
    requires Orderly(done) && part !in done && Needs(part) <= done && InsideEntry(part)
    ensures var now := Partly(r, lane, done);
      && Enabled(now, StepOf(lane, part))
      && Take(now, StepOf(lane, part)) == now.(regs := now.regs[lane.Id() := Entered(lane, done + {part})])
  {
    hide LaneOf, BranchOf;
    EntryFirst(done);
    assert Entry in done && (part.Pointer? ==> Directory in done) && (part.Attach? ==> Ref in done);
    assert part.Unlock? || Unlock !in done;
    hide Orderly, Needs;
    var now := Partly(r, lane, done);
    assert now.regs[lane.Id()] == Entered(lane, done);
  }

  lemma PartlyNext(r: Repo, lane: Lane, done: set<Part>, part: Part)
    requires Entry in done && InsideEntry(part)
    ensures var now := Partly(r, lane, done);
      now.(regs := now.regs[lane.Id() := Entered(lane, done + {part})]) == Partly(r, lane, done + {part})
  {
    hide LaneOf, BranchOf;
  }

  lemma OutsidePart(r: Repo, lane: Lane, done: set<Part>, part: Part)
    requires lane.Id() !in r.regs && Orderly(done) && part !in done && !InsideEntry(part)
    ensures var now := Partly(r, lane, done);
      Enabled(now, StepOf(lane, part)) && Take(now, StepOf(lane, part)) == Partly(r, lane, done + {part})
  {
    hide LaneOf, BranchOf;
    EntryFirst(done);
    hide Orderly, Needs;
  }

  /** Doing one more part is one step. */
  lemma PartIsStep(r: Repo, lane: Lane, done: set<Part>, part: Part)
    requires lane.Id() !in r.regs && Orderly(done) && part !in done && Needs(part) <= done
    ensures var now := Partly(r, lane, done);
      Enabled(now, StepOf(lane, part)) && Take(now, StepOf(lane, part)) == Partly(r, lane, done + {part})
    ensures Orderly(done + {part})
  {
    assert InsideEntry(part) ==> Entry in Needs(part);
    hide Partly, Take, Enabled, StepOf, Entered;
    if InsideEntry(part) {
      InsidePart(r, lane, done, part);
      PartlyNext(r, lane, done, part);
    } else {
      OutsidePart(r, lane, done, part);
    }
  }

  /** Nothing inside the entry is done before the entry, and the entry is unlocked last. */
  lemma EntryFirst(done: set<Part>)
    requires Orderly(done)
    ensures Entry !in done ==> done <= {Ref, Directory}
    ensures Unlock in done ==> done >= ALL
  {
    forall part | part in done && Entry !in done
      ensures part in {Ref, Directory}
    {
      assert Needs(part) <= done;
      assert part in {Commondir, Lock, Pointer, Attach, Unlock} ==> Entry in Needs(part);
    }
  }

  lemma SomePartReady(todo: set<Part>)
    requires todo != {} && todo <= ALL && Orderly(ALL - todo)
    ensures exists part :: part in todo && Needs(part) <= ALL - todo
  {
    var next :=
      if Entry in todo then Entry
      else if Ref in todo then Ref
      else if Directory in todo then Directory
      else if Commondir in todo then Commondir
      else if Lock in todo then Lock
      else if Pointer in todo then Pointer
      else if Attach in todo then Attach
      else Unlock;
    assert next in todo && Needs(next) <= ALL - todo;
  }

  /** Every orderly set of parts is a crash point of creating the lane: a branch alone, a directory alone, an unreadable
      entry, a locked entry with no branch and no pointer, and whatever else git's order may leave. */
  lemma {:induction false} PartlyReached(lanes: set<Lane>, r: Repo, lane: Lane, done: set<Part>)
    returns (steps: seq<Step>)
    requires lane in lanes && lane.Id() !in r.regs && Orderly(done)
    ensures Reaches(lanes, r, steps, Partly(r, lane, done))
    decreases |done|
  {
    hide Reaches, Partly, Take, Enabled, Needs;
    if done == {} {
      steps := [];
      PartlyDone(r, lane);
      NoSteps(lanes, r);
    } else {
      var last := LastPart(done);
      var before := done - {last};
      steps := PartlyReached(lanes, r, lane, before);
      PartIsStep(r, lane, before, last);
      assert before + {last} == done;
      AttachesOwn(lane, last);
      ReachesNext(lanes, r, steps, Partly(r, lane, before), StepOf(lane, last));
      steps := steps + [StepOf(lane, last)];
    }
  }

  lemma NoSteps(lanes: set<Lane>, r: Repo)
    ensures Reaches(lanes, r, [], r)
  {
  }

  lemma AttachesOwn(lane: Lane, part: Part)
    ensures StepOf(lane, part).Attached? ==> StepOf(lane, part).lane == lane
  {
  }

  /** A part no other part done so far needs. */
  lemma LastPart(done: set<Part>) returns (last: Part)
    requires done != {} && Orderly(done)
    ensures last in done && Needs(last) <= done - {last} && Orderly(done - {last})
  {
    last :=
      if Unlock in done then Unlock
      else if Attach in done then Attach
      else if Pointer in done then Pointer
      else if Lock in done then Lock
      else if Commondir in done then Commondir
      else if Entry in done then Entry
      else if Directory in done then Directory
      else Ref;
    assert Needs(last) <= done;
  }
}
