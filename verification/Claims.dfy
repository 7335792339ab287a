/** Write-policy enforcement on a finished lane: which changed paths lie outside the step's claim, and their
    reversion to the base revision. Git is three maps from paths to contents; a git command may also fail for
    reasons of its own, on the paths named in `faults`. */
module Claims {
  import opened Wrappers
  import opened Ordering

  type Tree = map<string, string>

  /** The base revision, the lane's index and working files, and the paths git ignores when untracked. */
  datatype Lane = Lane(base: Tree, index: Tree, files: Tree, ignored: set<string>)

  function At(t: Tree, path: string): Option<string> {
    if path in t then Some(t[path]) else None
  }

  /** `git diff <base>` over the paths of the base and the index, without rename detection: a path missing from the
      index counts as absent. */
  function Differing(l: Lane): set<string> {
    set p | p in l.base.Keys + l.index.Keys && At(l.base, p) != (if p in l.index then At(l.files, p) else None)
  }

  /** `git ls-files --others --exclude-standard`. */
  function Untracked(l: Lane): set<string> {
    l.files.Keys - l.index.Keys - l.ignored
  }

  function Changed(l: Lane): set<string> {
    Differing(l) + Untracked(l)
  }

  // ----- Claims -----

  type Glob = string -> bool

  predicate MatchesAny(file: string, globs: seq<Glob>) {
    exists i :: 0 <= i < |globs| && globs[i](file)
  }

  datatype Claim = Claim(declared: seq<Glob>, excluded: seq<Glob>)
  {
    predicate Contains(file: string) {
      MatchesAny(file, declared) && !MatchesAny(file, excluded)
    }
  }

  datatype Policy = Strict | Warn

  /** The paths a call reverts. */
  predicate Revertable(l: Lane, claim: Claim, policy: Policy, p: string) {
    && p in Changed(l) && !claim.Contains(p)
    && (policy.Strict? || MatchesAny(p, claim.excluded))
  }

  /** Whether the git command chosen for the path succeeds: `checkout` needs the path in the base, `rm -f` needs it in
      the index. */
  predicate GitReverts(l: Lane, faults: set<string>, p: string) {
    p !in faults && (p in l.base || p in l.index)
  }

  /** `t` with exactly these paths put back to their base state. */
  function PutBack(base: Tree, t: Tree, paths: set<string>): Tree {
    map p | p in t.Keys + base.Keys && (if p in paths then p in base else p in t) ::
      if p in paths then base[p] else t[p]
  }

  function Reverted(l: Lane, paths: set<string>): Lane {
    l.(index := PutBack(l.base, l.index, paths), files := PutBack(l.base, l.files, paths))
  }

  datatype Enforcement =
    | Enforced(outOfClaim: seq<string>, reverted: seq<string>)
    | RevertFailed(done: seq<string>, failed: seq<string>)

  // ----- Filtering -----

  /** `names.filter(p)` */
  function Filter(names: seq<string>, p: string -> bool): (r: seq<string>)
    ensures forall n :: n in r <==> n in names && p(n)
  {
    if names == [] then []
    else if p(names[|names| - 1]) then Filter(names[..|names| - 1], p) + [names[|names| - 1]]
    else Filter(names[..|names| - 1], p)
  }

  lemma {:induction false} FilterAscending(names: seq<string>, p: string -> bool)
    requires Ascending(names)
    ensures Ascending(Filter(names, p))
  {
    if names != [] {
      var front, last := names[..|names| - 1], names[|names| - 1];
      FilterAscending(front, p);
      forall i | 0 <= i < |Filter(front, p)|
        ensures Below(Filter(front, p)[i], last)
      {
        assert Filter(front, p)[i] in front;
      }
    }
  }

  lemma FilterSnoc(names: seq<string>, n: string, p: string -> bool)
    ensures Filter(names + [n], p) == Filter(names, p) + (if p(n) then [n] else [])
  {
    assert (names + [n])[..|names|] == names;
    assert Filter(names, p) + [] == Filter(names, p);
  }

  lemma {:induction false} FilterKeepsAll(names: seq<string>, p: string -> bool)
    requires forall n | n in names :: p(n)
    ensures Filter(names, p) == names
  {
    if names != [] {
      FilterKeepsAll(names[..|names| - 1], p);
    }
  }

  // ----- Reverting one path after another -----

  lemma NothingReverted(l: Lane)
    ensures Reverted(l, {}) == l
  {
    assert PutBack(l.base, l.index, {}) == l.index;
    assert PutBack(l.base, l.files, {}) == l.files;
  }

  lemma RevertedTwice(l: Lane, paths: set<string>, p: string)
    ensures Reverted(Reverted(l, paths), {p}) == Reverted(l, paths + {p})
  {
    assert PutBack(l.base, PutBack(l.base, l.index, paths), {p}) == PutBack(l.base, l.index, paths + {p});
    assert PutBack(l.base, PutBack(l.base, l.files, paths), {p}) == PutBack(l.base, l.files, paths + {p});
  }

  /** Reverting other paths does not change what git can do with this one. */
  lemma RevertsAlike(l: Lane, paths: set<string>, faults: set<string>, p: string)
    requires p !in paths
    ensures GitReverts(Reverted(l, paths), faults, p) == GitReverts(l, faults, p)
    ensures p in Reverted(l, paths).index <==> p in l.index
  {
  }

  lemma ElementsSnoc(names: seq<string>, n: string)
    ensures Elements(names + [n]) == Elements(names) + {n}
  {
    assert forall m :: m in names + [n] <==> m in names || m == n;
  }

  /** The revertable paths git can revert. */
  ghost function ToRevert(l: Lane, claim: Claim, policy: Policy, faults: set<string>): set<string> {
    set p | p in Changed(l) && Revertable(l, claim, policy, p) && GitReverts(l, faults, p)
  }

  /** The state a call leaves: exactly those paths are back in their base state. */
  ghost function After(l: Lane, claim: Claim, policy: Policy, faults: set<string>): Lane {
    Reverted(l, ToRevert(l, claim, policy, faults))
  }

  /** Git can revert every path the call has to revert. */
  ghost predicate Succeeds(l: Lane, claim: Claim, policy: Policy, faults: set<string>) {
    forall p | Revertable(l, claim, policy, p) :: GitReverts(l, faults, p)
  }

  // ----- enforceClaim -----

  class Worktree {
    const base: Tree
    const ignored: set<string>
    var index: Tree
    var files: Tree

    constructor (l: Lane)
      ensures State() == l
    {
      base, ignored, index, files := l.base, l.ignored, l.index, l.files;
    }

    function State(): Lane
      reads this
    {
      Lane(base, index, files, ignored)
    }

    method DiffLaneChanges() returns (changed: seq<string>)
      ensures Ascending(changed) && Elements(changed) == Changed(State())
    {
      changed := Sort(Changed(State()));
    }

    /** `git checkout <base> -- <file>` */
    method Checkout(file: string, faults: set<string>) returns (ok: bool)
      requires file in base
      modifies this`index, this`files
      ensures ok == (file !in faults)
      ensures State() == if ok then Reverted(old(State()), {file}) else old(State())
    {
      if file in faults {
        return false;
      }
      index, files := index[file := base[file]], files[file := base[file]];
      assert index == PutBack(base, old(index), {file});
      assert files == PutBack(base, old(files), {file});
      return true;
    }

    /** `git rm -f -- <file>`, which refuses a path the index does not hold. */
    method Remove(file: string, faults: set<string>) returns (ok: bool)
      requires file !in base
      modifies this`index, this`files
      ensures ok == (file !in faults && file in old(index))
      ensures State() == if ok then Reverted(old(State()), {file}) else old(State())
    {
      if file in faults || file !in index {
        return false;
      }
      index, files := index - {file}, files - {file};
      assert index == PutBack(base, old(index), {file});
      assert files == PutBack(base, old(files), {file});
      return true;
    }

    /** Every revertable path is attempted even after a failure. The call returns exactly when git can revert all of
        them; otherwise it throws, naming which were reverted and which were not. Either way exactly the reverted
        paths are back in their base state and nothing else has moved. */
    method EnforceClaim(claim: Claim, policy: Policy, faults: set<string>) returns (r: Enforcement)
      modifies this`index, this`files
      ensures State() == After(old(State()), claim, policy, faults)
      ensures r.Enforced? <==> Succeeds(old(State()), claim, policy, faults)
      ensures r.Enforced? ==>
        && Ascending(r.outOfClaim) && Ascending(r.reverted)
        && (forall p :: p in r.outOfClaim <==> p in Changed(old(State())) && !claim.Contains(p))
        && (forall p :: p in r.reverted <==> Revertable(old(State()), claim, policy, p))
      ensures r.RevertFailed? ==>
        && Ascending(r.done) && Ascending(r.failed) && r.failed != []
        && (forall p :: p in r.done <==>
              Revertable(old(State()), claim, policy, p) && GitReverts(old(State()), faults, p))
        && (forall p :: p in r.failed <==>
              Revertable(old(State()), claim, policy, p) && !GitReverts(old(State()), faults, p))
    {
      hide Changed, PutBack, Below;
      ghost var start := State();
      var changed := DiffLaneChanges();
      var outOfClaim := Filter(changed, f => !claim.Contains(f));
      var revertable := if policy.Strict? then outOfClaim
                        else Filter(outOfClaim, f => MatchesAny(f, claim.excluded));
      FilterAscending(changed, f => !claim.Contains(f));
      FilterAscending(outOfClaim, f => MatchesAny(f, claim.excluded));
      assert forall p :: p in changed <==> p in Elements(changed);
      NothingReverted(start);
      assert forall p :: p in revertable <==> Revertable(start, claim, policy, p);
      if revertable == [] {
        assert ToRevert(start, claim, policy, faults) == {};
        return Enforced(outOfClaim, []);
      }
      r := RevertEach(revertable, faults);
      if r.Enforced? {
        assert Elements(revertable) == ToRevert(start, claim, policy, faults);
        r := Enforced(outOfClaim, r.reverted);
      } else {
        assert Elements(r.done) == ToRevert(start, claim, policy, faults);
        assert r.failed[0] in r.failed;
      }
    }

    /** Checkout for a path of the base, removal for any other. */
    method RevertOne(file: string, faults: set<string>) returns (ok: bool)
      modifies this`index, this`files
      ensures ok == GitReverts(old(State()), faults, file)
      ensures State() == if ok then Reverted(old(State()), {file}) else old(State())
    {
      if file in base {
        ok := Checkout(file, faults);
      } else {
        ok := Remove(file, faults);
      }
    }

    /** The loop over the revertable paths. */
    method RevertEach(revertable: seq<string>, faults: set<string>) returns (r: Enforcement)
      requires Ascending(revertable)
      modifies this`index, this`files
      ensures r.Enforced? ==>
        && r.outOfClaim == [] && r.reverted == revertable
        && (forall p | p in revertable :: GitReverts(old(State()), faults, p))
        && State() == Reverted(old(State()), Elements(revertable))
      ensures r.RevertFailed? ==>
        && Ascending(r.done) && Ascending(r.failed) && r.failed != []
        && (forall p :: p in r.done <==> p in revertable && GitReverts(old(State()), faults, p))
        && (forall p :: p in r.failed <==> p in revertable && !GitReverts(old(State()), faults, p))
        && State() == Reverted(old(State()), Elements(r.done))
    {
      hide PutBack, Reverted, GitReverts, Done, Undone, Elements, Ascending, Below, Filter;
      ghost var start := State();
      var done: seq<string>, failed: seq<string> := [], [];
      NothingDone(start, faults);
      assert revertable[..0] == [];
      for k := 0 to |revertable|
        invariant State() == Reverted(start, Elements(done))
        invariant done == Done(start, faults, revertable[..k]) && failed == Undone(start, faults, revertable[..k])
      {
        var file := revertable[k];
        OneMore(start, faults, revertable, k);
        var ok := RevertOne(file, faults);
        if ok {
          done := done + [file];
        } else {
          failed := failed + [file];
        }
      }
      assert revertable[..|revertable|] == revertable;
      Partitioned(start, faults, revertable);
      if failed != [] {
        return RevertFailed(done, failed);
      }
      return Enforced([], done);
    }
  }

  /** The paths git reverts, and those it cannot, in the given order. */
  ghost function Done(l: Lane, faults: set<string>, names: seq<string>): seq<string> {
    Filter(names, f => GitReverts(l, faults, f))
  }

  ghost function Undone(l: Lane, faults: set<string>, names: seq<string>): seq<string> {
    Filter(names, f => !GitReverts(l, faults, f))
  }

  lemma NothingDone(l: Lane, faults: set<string>)
    ensures Done(l, faults, []) == [] == Undone(l, faults, []) && Reverted(l, Elements([])) == l
  {
    NothingReverted(l);
    assert Elements([]) == {};
  }

  /** One round of the loop: what git can do with the next path is as it was at the start, and reverting it adds it to
      the reverted ones. */
  lemma OneMore(l: Lane, faults: set<string>, names: seq<string>, k: nat)
    requires Ascending(names) && k < |names|
    ensures var file, done, undone := names[k], Done(l, faults, names[..k]), Undone(l, faults, names[..k]);
      && GitReverts(Reverted(l, Elements(done)), faults, file) == GitReverts(l, faults, file)
      && Reverted(Reverted(l, Elements(done)), {file}) == Reverted(l, Elements(done + [file]))
      && Done(l, faults, names[..k + 1]) == done + (if GitReverts(l, faults, file) then [file] else [])
      && Undone(l, faults, names[..k + 1]) == undone + (if GitReverts(l, faults, file) then [] else [file])
  {
    hide GitReverts, Reverted, Ascending, Elements;
    var file, done := names[k], Done(l, faults, names[..k]);
    assert names[..k + 1] == names[..k] + [file];
    FilterSnoc(names[..k], file, f => GitReverts(l, faults, f));
    FilterSnoc(names[..k], file, f => !GitReverts(l, faults, f));
    NotYetReverted(names, k, done);
    RevertsAlike(l, Elements(done), faults, file);
    ElementsSnoc(done, file);
    RevertedTwice(l, Elements(done), file);
  }

  lemma Partitioned(l: Lane, faults: set<string>, names: seq<string>)
    requires Ascending(names)
    ensures var done, undone := Done(l, faults, names), Undone(l, faults, names);
      && Ascending(done) && Ascending(undone)
      && (forall p :: p in done <==> p in names && GitReverts(l, faults, p))
      && (forall p :: p in undone <==> p in names && !GitReverts(l, faults, p))
      && (undone == [] ==> done == names && forall p | p in names :: GitReverts(l, faults, p))
  {
    hide GitReverts, Ascending;
    FilterAscending(names, f => GitReverts(l, faults, f));
    FilterAscending(names, f => !GitReverts(l, faults, f));
    if Undone(l, faults, names) == [] {
      assert forall p | p in names :: p !in Undone(l, faults, names);
      FilterKeepsAll(names, f => GitReverts(l, faults, f));
    }
  }

  lemma NotYetReverted(names: seq<string>, k: nat, done: seq<string>)
    requires Ascending(names) && k < |names| && forall n | n in done :: n in names[..k]
    ensures names[k] !in Elements(done)
  {
    BelowTotal(names[k], names[k]);
  }

  // ----- What a call leaves behind -----

  /** Whether a path is in its base state and out of the next diff. */
  ghost predicate Settled(l: Lane, p: string) {
    At(l.files, p) == At(l.base, p) && p !in Changed(l)
  }

  lemma UnchangedIsAtBase(l: Lane, p: string)
    requires p !in Changed(l) && p !in l.ignored
    ensures At(l.files, p) == At(l.base, p)
  {
  }

  lemma RevertedIsAtBase(l: Lane, paths: set<string>, p: string)
    ensures p in paths ==> Settled(Reverted(l, paths), p)
    ensures p !in paths ==> At(Reverted(l, paths).files, p) == At(l.files, p)
                            && At(Reverted(l, paths).index, p) == At(l.index, p)
                            && (p in Changed(Reverted(l, paths)) <==> p in Changed(l))
  {
  }

  /** What counts as changed: content that is not the base's, or a path of the base taken out of the index; a path git
      ignores only counts if the base or the index has it. */
  lemma ChangedExactly(l: Lane, p: string)
    ensures p in Changed(l) <==>
      && (At(l.files, p) != At(l.base, p) || (p in l.base && p !in l.index))
      && (p in l.base || p in l.index || p !in l.ignored)
  {
  }

  /** What a call does to one path, whether it returns or throws: file and index entry are put back to the base exactly
      when the path is changed, no declared glob or some excluded one matches it, the policy is strict or an excluded
      glob matches it, git has it in the base or the index, and its git command does not fail; all else stays. */
  lemma EnforcedExactly(l: Lane, claim: Claim, policy: Policy, faults: set<string>, p: string)
    ensures var l' := After(l, claim, policy, faults);
      var declared := exists i | 0 <= i < |claim.declared| :: claim.declared[i](p);
      var excluded := exists i | 0 <= i < |claim.excluded| :: claim.excluded[i](p);
      && l'.base == l.base && l'.ignored == l.ignored
      && if p in Changed(l) && (!declared || excluded) && (policy == Strict || excluded)
            && (p in l.base || p in l.index) && p !in faults then
           At(l'.files, p) == At(l.base, p) && At(l'.index, p) == At(l.base, p)
         else
           At(l'.files, p) == At(l.files, p) && At(l'.index, p) == At(l.index, p)
  {
    hide Changed;
    assert p in ToRevert(l, claim, policy, faults) <==>
      p in Changed(l) && Revertable(l, claim, policy, p) && GitReverts(l, faults, p);
  }

  /** When a call throws: some path it has to revert is in neither the base nor the index, or its git command fails. */
  lemma SucceedsExactly(l: Lane, claim: Claim, policy: Policy, faults: set<string>)
    ensures Succeeds(l, claim, policy, faults) <==>
      forall p | p in Changed(l) ::
        var declared := exists i | 0 <= i < |claim.declared| :: claim.declared[i](p);
        var excluded := exists i | 0 <= i < |claim.excluded| :: claim.excluded[i](p);
        (declared && !excluded) || (policy == Warn && !excluded) || ((p in l.base || p in l.index) && p !in faults)
  {
    hide Changed;
    forall p | p in Changed(l)
      ensures
        var declared := exists i | 0 <= i < |claim.declared| :: claim.declared[i](p);
        var excluded := exists i | 0 <= i < |claim.excluded| :: claim.excluded[i](p);
        !((declared && !excluded) || (policy == Warn && !excluded)) <==> Revertable(l, claim, policy, p)
      ensures GitReverts(l, faults, p) <==> (p in l.base || p in l.index) && p !in faults
    {
    }
    hide GitReverts;
    assert forall p :: Revertable(l, claim, policy, p) ==> p in Changed(l);
  }

  /** After a strict call that returns: every path outside the claim that git does not ignore has its base content or
      absence, no path inside the claim has moved, and a second call finds nothing out of claim. */
  lemma StrictRestoresBase(l: Lane, claim: Claim, faults: set<string>, p: string)
    requires Succeeds(l, claim, Strict, faults)
    ensures var l' := After(l, claim, Strict, faults);
      var declared := exists i | 0 <= i < |claim.declared| :: claim.declared[i](p);
      var excluded := exists i | 0 <= i < |claim.excluded| :: claim.excluded[i](p);
      && (!(declared && !excluded) && p !in l.ignored ==> At(l'.files, p) == At(l.base, p))
      && (declared && !excluded ==> At(l'.files, p) == At(l.files, p) && At(l'.index, p) == At(l.index, p))
      && (p in Changed(l') ==> declared && !excluded)
  {
    var paths := ToRevert(l, claim, Strict, faults);
    RevertedIsAtBase(l, paths, p);
    if p !in Changed(l) && p !in l.ignored {
      UnchangedIsAtBase(l, p);
    }
  }

  /** After a warn call that returns, the same holds of the excluded paths only; every other path is untouched. */
  lemma WarnRestoresExcluded(l: Lane, claim: Claim, faults: set<string>, p: string)
    requires Succeeds(l, claim, Warn, faults)
    ensures var l' := After(l, claim, Warn, faults);
      var excluded := exists i | 0 <= i < |claim.excluded| :: claim.excluded[i](p);
      && (excluded && p !in l.ignored ==> At(l'.files, p) == At(l.base, p))
      && (excluded ==> p !in Changed(l'))
      && (!excluded ==> At(l'.files, p) == At(l.files, p) && At(l'.index, p) == At(l.index, p))
  {
    var paths := ToRevert(l, claim, Warn, faults);
    RevertedIsAtBase(l, paths, p);
    if p !in Changed(l) && p !in l.ignored {
      UnchangedIsAtBase(l, p);
    }
  }

  /** After a call that throws, what a rerun has to revert is exactly what failed. */
  lemma RerunNeedsOnlyFailed(l: Lane, claim: Claim, policy: Policy, faults: set<string>, p: string)
    ensures Revertable(After(l, claim, policy, faults), claim, policy, p) <==>
            Revertable(l, claim, policy, p) && !GitReverts(l, faults, p)
  {
    var paths := ToRevert(l, claim, policy, faults);
    RevertedIsAtBase(l, paths, p);
  }

  /** "Strict removes a path that did not exist at the base" is false of an untracked one: with no fault at all, the
      call returns exactly when every revertable path is in the base or in the index. */
  lemma SucceedsExactlyWhenTracked(l: Lane, claim: Claim, policy: Policy)
    ensures Succeeds(l, claim, policy, {}) <==>
            forall p | p in Changed(l) && p !in l.base && p !in l.index ::
              claim.Contains(p) || (policy.Warn? && !MatchesAny(p, claim.excluded))
  {
    forall p | p in Changed(l) && p !in l.base && p !in l.index
      ensures GitReverts(l, {}, p) == false
      ensures Revertable(l, claim, policy, p) <==>
              !(claim.Contains(p) || (policy.Warn? && !MatchesAny(p, claim.excluded)))
    {
      assert MatchesAny(p, claim.excluded) ==> !claim.Contains(p);
    }
  }

  /** One new, never staged file outside the claim is enough for a strict call to throw and leave the file there. */
  lemma UntrackedFileStays()
    ensures var l := Lane(map[], map[], map["a.txt" := "x"], {});
      !Succeeds(l, Claim([], []), Strict, {}) && After(l, Claim([], []), Strict, {}) == l
  {
    var l := Lane(map[], map[], map["a.txt" := "x"], {});
    assert "a.txt" in Changed(l) && Revertable(l, Claim([], []), Strict, "a.txt");
    NothingReverted(l);
    assert ToRevert(l, Claim([], []), Strict, {}) == {};
  }
}
