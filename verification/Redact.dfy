/** The event-payload redactor: a walk over an object graph that may share nodes and may contain cycles,
    producing a new tree in which secrets are replaced by a marker. */
module Redact {
  import opened Wrappers

  const MARKER := "[REDACTED]"

  type Ref = nat

  /** A payload value. `Opaque` stands for everything the walk copies unchanged: numbers, booleans, null,
      and objects whose prototype is neither Object.prototype nor null. */
  datatype Value = Text(text: string) | Opaque(tag: nat) | Node(ref: Ref)

  /** What a reference denotes: an array, or a plain object's own enumerable entries in order. */
  datatype Cell = Arr(items: seq<Value>) | Obj(entries: seq<(string, Value)>)

  type Heap = map<Ref, Cell>

  /** A payload with no sharing left: what redaction returns. */
  datatype Tree =
    | TText(text: string)
    | TOpaque(tag: nat)
    | TArr(items: seq<Tree>)
    | TObj(entries: seq<(string, Tree)>)

  /** The three independent checks; regular expressions are abstract predicates on the tested string. */
  datatype Policy = Policy(keyMatches: string -> bool, secrets: seq<string>, valueMatches: string -> bool)
  {
    predicate Sensitive(s: string) {
      s in secrets || valueMatches(s)
    }

    function Scrub(s: string): string {
      if Sensitive(s) then MARKER else s
    }
  }

  datatype Error = Circular

  // ----- The object graph -----

  predicate ValueIn(h: Heap, v: Value) {
    v.Node? ==> v.ref in h
  }

  predicate CellIn(h: Heap, cell: Cell) {
    match cell
    case Arr(items) => forall v | v in items :: ValueIn(h, v)
    case Obj(entries) => forall e | e in entries :: ValueIn(h, e.1)
  }

  /** Every reference stored in the graph denotes a cell of the graph. */
  predicate Closed(h: Heap) {
    forall r | r in h :: CellIn(h, h[r])
  }

  /** `b` is stored in `a` as an array item or under a key that no pattern matches. */
  ghost predicate Child(h: Heap, p: Policy, a: Ref, b: Ref) {
    && a in h
    && match h[a]
       case Arr(items) => Node(b) in items
       case Obj(entries) => exists e :: e in entries && e.1 == Node(b) && !p.keyMatches(e.0)
  }

  /** A walk through the graph along `Child` edges. */
  ghost predicate Walk(h: Heap, p: Policy, w: seq<Ref>) {
    && |w| >= 1
    && (forall i | 0 <= i < |w| :: w[i] in h)
    && (forall i | 0 < i < |w| :: Child(h, p, w[i - 1], w[i]))
  }

  ghost predicate Repeats(w: seq<Ref>) {
    exists i, j :: 0 <= i < j < |w| && w[i] == w[j]
  }

  // ----- redactValue -----

  function Redacted(h: Heap, p: Policy, v: Value, ancestors: set<Ref>): Result<Tree, Error>
    requires Closed(h) && ValueIn(h, v)
    decreases h.Keys - ancestors, 0, 0
  {
    match v
    case Text(s) => Ok(TText(p.Scrub(s)))
    case Opaque(tag) => Ok(TOpaque(tag))
    case Node(r) =>
      if r in ancestors then Err(Circular)
      else
        assert r in h.Keys - ancestors;
        match h[r]
        case Arr(items) =>
          (match RedactedItems(h, p, items, ancestors + {r})
           case Ok(trees) => Ok(TArr(trees))
           case Err(e) => Err(e))
        case Obj(entries) =>
          (match RedactedEntries(h, p, entries, ancestors + {r})
           case Ok(trees) => Ok(TObj(trees))
           case Err(e) => Err(e))
  }

  function RedactedItems(h: Heap, p: Policy, items: seq<Value>, ancestors: set<Ref>): Result<seq<Tree>, Error>
    requires Closed(h) && forall v | v in items :: ValueIn(h, v)
    decreases h.Keys - ancestors, 1, |items|
  {
    if items == [] then Ok([])
    else
      match Redacted(h, p, items[0], ancestors)
      case Err(e) => Err(e)
      case Ok(tree) =>
        match RedactedItems(h, p, items[1..], ancestors)
        case Err(e) => Err(e)
        case Ok(trees) => Ok([tree] + trees)
  }

  /** The value stored for one object entry. */
  function RedactedEntry(h: Heap, p: Policy, entry: (string, Value), ancestors: set<Ref>): Result<Tree, Error>
    requires Closed(h) && ValueIn(h, entry.1)
    decreases h.Keys - ancestors, 1, 0
  {
    if p.keyMatches(entry.0) then Ok(TText(MARKER)) else Redacted(h, p, entry.1, ancestors)
  }

  function RedactedEntries(h: Heap, p: Policy, entries: seq<(string, Value)>, ancestors: set<Ref>):
    Result<seq<(string, Tree)>, Error>
    requires Closed(h) && forall e | e in entries :: ValueIn(h, e.1)
    decreases h.Keys - ancestors, 2, |entries|
  {
    if entries == [] then Ok([])
    else
      match RedactedEntry(h, p, entries[0], ancestors)
      case Err(e) => Err(e)
      case Ok(tree) =>
        match RedactedEntries(h, p, entries[1..], ancestors)
        case Err(e) => Err(e)
        case Ok(trees) => Ok([(entries[0].0, tree)] + trees)
  }

  /** `redactPayload`: the walk starts with no ancestors. */
  function RedactPayload(h: Heap, p: Policy, v: Value): Result<Tree, Error>
    requires Closed(h) && ValueIn(h, v)
  {
    Redacted(h, p, v, {})
  }

  // ----- The walk as the source writes it -----

  /** The object branch fills its result key by key; an error raised for one entry ends the walk. */
  method RedactValue(h: Heap, p: Policy, v: Value, ancestors: set<Ref>) returns (r: Result<Tree, Error>)
    requires Closed(h) && ValueIn(h, v)
    ensures r == Redacted(h, p, v, ancestors)
    decreases h.Keys - ancestors
  {
    match v
    case Text(s) =>
      if s in p.secrets {
        return Ok(TText(MARKER));
      }
      return Ok(TText(if p.valueMatches(s) then MARKER else s));
    case Opaque(tag) =>
      return Ok(TOpaque(tag));
    case Node(ref) =>
      if ref in ancestors {
        return Err(Circular);
      }
      assert ref in h.Keys - ancestors;
      var nextAncestors := ancestors + {ref};
      match h[ref]
      case Arr(items) =>
        var trees := [];
        var i := 0;
        assert items[0..] == items;
        PrependedNothing(RedactedItems(h, p, items, nextAncestors));
        while i < |items|
          invariant 0 <= i <= |items|
          invariant RedactedItems(h, p, items, nextAncestors) ==
                    Prepended(trees, RedactedItems(h, p, items[i..], nextAncestors))
        {
          var item := RedactValue(h, p, items[i], nextAncestors);
          if item.Err? {
            return Err(item.error);
          }
          assert items[i..][0] == items[i] && items[i..][1..] == items[i + 1..];
          PrependedAssociative(trees, item.value, RedactedItems(h, p, items[i + 1..], nextAncestors));
          trees := trees + [item.value];
          i := i + 1;
        }
        assert items[i..] == [] && trees + [] == trees;
        return Ok(TArr(trees));
      case Obj(entries) =>
        var result := [];
        var i := 0;
        assert entries[0..] == entries;
        PrependedNothing(RedactedEntries(h, p, entries, nextAncestors));
        while i < |entries|
          invariant 0 <= i <= |entries|
          invariant RedactedEntries(h, p, entries, nextAncestors) ==
                    Prepended(result, RedactedEntries(h, p, entries[i..], nextAncestors))
        {
          var (key, entryValue) := entries[i];
          assert entries[i..][0] == entries[i] && entries[i..][1..] == entries[i + 1..];
          var stored: Tree := TText(MARKER);
          if !p.keyMatches(key) {
            var redacted := RedactValue(h, p, entryValue, nextAncestors);
            if redacted.Err? {
              return Err(redacted.error);
            }
            stored := redacted.value;
          }
          PrependedAssociative(result, (key, stored), RedactedEntries(h, p, entries[i + 1..], nextAncestors));
          result := result + [(key, stored)];
          i := i + 1;
        }
        assert entries[i..] == [] && result + [] == result;
        return Ok(TObj(result));
  }

  ghost function Prepended<T>(done: seq<T>, rest: Result<seq<T>, Error>): Result<seq<T>, Error> {
    match rest
    case Ok(trees) => Ok(done + trees)
    case Err(e) => Err(e)
  }

  lemma PrependedNothing<T>(rest: Result<seq<T>, Error>)
    ensures Prepended([], rest) == rest
  {
    if rest.Ok? {
      assert [] + rest.value == rest.value;
    }
  }

  lemma PrependedAssociative<T>(done: seq<T>, next: T, rest: Result<seq<T>, Error>)
    ensures Prepended(done, Prepended([next], rest)) == Prepended(done + [next], rest)
  {
    if rest.Ok? {
      assert done + ([next] + rest.value) == done + [next] + rest.value;
    }
  }

  // ----- Element-wise reading of the sequence walks -----

  lemma {:induction false} ItemsPointwise(h: Heap, p: Policy, items: seq<Value>, ancestors: set<Ref>)
    requires Closed(h) && forall v | v in items :: ValueIn(h, v)
    ensures var r := RedactedItems(h, p, items, ancestors);
      && (r.Ok? <==> forall i | 0 <= i < |items| :: Redacted(h, p, items[i], ancestors).Ok?)
      && (r.Ok? ==> |r.value| == |items| &&
                    forall i | 0 <= i < |items| :: Redacted(h, p, items[i], ancestors) == Ok(r.value[i]))
  {
    if items != [] {
      ItemsPointwise(h, p, items[1..], ancestors);
      assert forall i | 0 < i < |items| :: items[i] == items[1..][i - 1];
      assert forall i | 0 <= i < |items[1..]| :: items[1..][i] == items[i + 1];
    }
  }

  lemma {:induction false} EntriesPointwise(h: Heap, p: Policy, entries: seq<(string, Value)>, ancestors: set<Ref>)
    requires Closed(h) && forall e | e in entries :: ValueIn(h, e.1)
    ensures var r := RedactedEntries(h, p, entries, ancestors);
      && (r.Ok? <==> forall i | 0 <= i < |entries| :: RedactedEntry(h, p, entries[i], ancestors).Ok?)
      && (r.Ok? ==> |r.value| == |entries| &&
                    forall i | 0 <= i < |entries| ::
                      && r.value[i].0 == entries[i].0
                      && RedactedEntry(h, p, entries[i], ancestors) == Ok(r.value[i].1))
  {
    if entries != [] {
      EntriesPointwise(h, p, entries[1..], ancestors);
      assert forall i | 0 < i < |entries| :: entries[i] == entries[1..][i - 1];
      assert forall i | 0 <= i < |entries[1..]| :: entries[1..][i] == entries[i + 1];
    }
  }

  // ----- The circular error: raised exactly when an unmatched-key cycle is reachable -----

  ghost function Elements(w: seq<Ref>): set<Ref> {
    set r | r in w
  }

  /** From an error, the walk that closes the cycle; `path` is the recursion path the ancestors record. */
  lemma {:induction false} CycleBehindError(h: Heap, p: Policy, path: seq<Ref>, r: Ref) returns (w: seq<Ref>)
    requires Closed(h) && r in h && Walk(h, p, path + [r])
    requires Redacted(h, p, Node(r), Elements(path)).Err?
    ensures Walk(h, p, w) && Repeats(w) && w[0] == (path + [r])[0]
    decreases h.Keys - Elements(path)
  {
    var here := path + [r];
    if r in path {
      var i :| 0 <= i < |path| && path[i] == r;
      assert here[i] == here[|path|];
      w := here;
    } else {
      assert r in h.Keys - Elements(path);
      assert Elements(path) + {r} == Elements(here);
      var next: Ref;
      match h[r] {
        case Arr(items) =>
          ItemsPointwise(h, p, items, Elements(here));
          var i :| 0 <= i < |items| && Redacted(h, p, items[i], Elements(here)).Err?;
          assert items[i] in items;
          next := items[i].ref;
        case Obj(entries) =>
          EntriesPointwise(h, p, entries, Elements(here));
          var i :| 0 <= i < |entries| && RedactedEntry(h, p, entries[i], Elements(here)).Err?;
          assert entries[i] in entries && !p.keyMatches(entries[i].0);
          assert Redacted(h, p, entries[i].1, Elements(here)).Err?;
          next := entries[i].1.ref;
      }
      assert Child(h, p, r, next);
      assert Walk(h, p, here + [next]);
      w := CycleBehindError(h, p, here, next);
    }
  }

  /** After a successful walk, no path from the value revisits a node or an ancestor. */
  lemma {:induction false} SuccessForbidsRepeats(h: Heap, p: Policy, w: seq<Ref>, ancestors: set<Ref>)
    requires Closed(h) && Walk(h, p, w)
    requires Redacted(h, p, Node(w[0]), ancestors).Ok?
    ensures !Repeats(w) && Elements(w) !! ancestors
    decreases |w|
  {
    if |w| > 1 {
      var r, next := w[0], w[1];
      assert Child(h, p, r, next);
      match h[r] {
        case Arr(items) =>
          ItemsPointwise(h, p, items, ancestors + {r});
        case Obj(entries) =>
          EntriesPointwise(h, p, entries, ancestors + {r});
          var e :| e in entries && e.1 == Node(next) && !p.keyMatches(e.0);
          var i :| 0 <= i < |entries| && entries[i] == e;
          assert RedactedEntry(h, p, entries[i], ancestors + {r}).Ok?;
      }
      var tail := w[1..];
      assert forall i | 0 < i < |tail| :: Child(h, p, tail[i - 1], tail[i]) by {
        assert forall i | 0 < i < |tail| :: tail[i] == w[i + 1] && tail[i - 1] == w[i];
      }
      SuccessForbidsRepeats(h, p, tail, ancestors + {r});
      assert forall i | 0 < i < |w| :: w[i] == tail[i - 1] && w[i] in Elements(tail);
      assert w == [r] + tail;
    }
  }

  /** The circular error is raised exactly when some walk from the root, through array items and unmatched
      keys only, visits a node twice. In particular a node reached twice along two different paths is fine. */
  lemma CircularExactly(h: Heap, p: Policy, root: Ref)
    requires Closed(h) && root in h
    ensures RedactPayload(h, p, Node(root)).Err? <==>
            exists w :: Walk(h, p, w) && w[0] == root && Repeats(w)
  {
    if RedactPayload(h, p, Node(root)).Err? {
      assert Elements([]) == {};
      assert [] + [root] == [root];
      var w := CycleBehindError(h, p, [], root);
    } else {
      forall w | Walk(h, p, w) && w[0] == root
        ensures !Repeats(w)
      {
        SuccessForbidsRepeats(h, p, w, {});
      }
    }
  }

  // ----- Redaction of a tree, and sharing -----

  function RedactTree(p: Policy, t: Tree): Tree
  {
    match t
    case TText(s) => TText(p.Scrub(s))
    case TOpaque(tag) => t
    case TArr(items) => TArr(seq(|items|, i requires 0 <= i < |items| => RedactTree(p, items[i])))
    case TObj(entries) =>
      TObj(seq(|entries|, i requires 0 <= i < |entries| =>
                 (entries[i].0,
                  if p.keyMatches(entries[i].0) then TText(MARKER) else RedactTree(p, entries[i].1))))
  }

  /** `t` is the graph below `v` with every shared node copied. */
  ghost predicate Unfolds(h: Heap, v: Value, t: Tree)
    decreases t
  {
    match t
    case TText(s) => v == Text(s)
    case TOpaque(tag) => v == Opaque(tag)
    case TArr(trees) =>
      && v.Node? && v.ref in h && h[v.ref].Arr?
      && var items := h[v.ref].items;
         |items| == |trees| && forall i | 0 <= i < |trees| :: Unfolds(h, items[i], trees[i])
    case TObj(trees) =>
      && v.Node? && v.ref in h && h[v.ref].Obj?
      && var entries := h[v.ref].entries;
         |entries| == |trees| &&
         forall i | 0 <= i < |trees| :: trees[i].0 == entries[i].0 && Unfolds(h, entries[i].1, trees[i].1)
  }

  lemma UnfoldingUnique(h: Heap, v: Value, t: Tree, u: Tree)
    requires Unfolds(h, v, t) && Unfolds(h, v, u)
    ensures t == u
    decreases t
  {
    match t
    case TText(_) =>
    case TOpaque(_) =>
    case TArr(trees) =>
      assert u.TArr?;
      forall i | 0 <= i < |trees| ensures trees[i] == u.items[i] {
        UnfoldingUnique(h, h[v.ref].items[i], trees[i], u.items[i]);
      }
      assert trees == u.items;
    case TObj(trees) =>
      assert u.TObj?;
      forall i | 0 <= i < |trees| ensures trees[i] == u.entries[i] {
        UnfoldingUnique(h, h[v.ref].entries[i].1, trees[i].1, u.entries[i].1);
      }
      assert trees == u.entries;
  }

  /** Number of nodes, used only to tell an unfolding from its proper parts. */
  ghost function Size(t: Tree): nat {
    match t
    case TText(_) => 1
    case TOpaque(_) => 1
    case TArr(items) => 1 + SizeItems(items)
    case TObj(entries) => 1 + SizeEntries(entries)
  }

  ghost function SizeItems(items: seq<Tree>): nat {
    if items == [] then 0 else Size(items[0]) + SizeItems(items[1..])
  }

  ghost function SizeEntries(entries: seq<(string, Tree)>): nat {
    if entries == [] then 0
    else
      var e := entries[0];
      assert e.1 < e;
      Size(e.1) + SizeEntries(entries[1..])
  }

  lemma {:induction false} ItemSmaller(items: seq<Tree>, i: nat)
    requires i < |items|
    ensures Size(items[i]) <= SizeItems(items)
  {
    if i > 0 { ItemSmaller(items[1..], i - 1); }
  }

  lemma {:induction false} EntrySmaller(entries: seq<(string, Tree)>, i: nat)
    requires i < |entries|
    ensures Size(entries[i].1) <= SizeEntries(entries)
  {
    if i > 0 { EntrySmaller(entries[1..], i - 1); }
  }

  /** Every ancestor unfolds to something strictly larger than `t`, so none of them can occur below it. */
  ghost predicate Above(h: Heap, ancestors: set<Ref>, t: Tree) {
    forall a | a in ancestors :: exists u :: Unfolds(h, Node(a), u) && Size(u) > Size(t)
  }

  lemma {:induction false} RedactedFollowsUnfolding(h: Heap, p: Policy, v: Value, t: Tree, ancestors: set<Ref>)
    requires Closed(h) && ValueIn(h, v) && Unfolds(h, v, t) && Above(h, ancestors, t)
    ensures Redacted(h, p, v, ancestors) == Ok(RedactTree(p, t))
    decreases t
  {
    match t
    case TText(_) =>
    case TOpaque(_) =>
    case TArr(trees) =>
      NotItsOwnAncestor(h, v.ref, t, ancestors);
      var next := ancestors + {v.ref};
      var items := h[v.ref].items;
      forall i | 0 <= i < |items|
        ensures Redacted(h, p, items[i], next) == Ok(RedactTree(p, trees[i]))
      {
        ItemSmaller(trees, i);
        AboveChild(h, v.ref, t, trees[i], ancestors);
        RedactedFollowsUnfolding(h, p, items[i], trees[i], next);
      }
      ItemsPointwise(h, p, items, next);
      assert RedactedItems(h, p, items, next).value == RedactTree(p, t).items;
    case TObj(trees) =>
      NotItsOwnAncestor(h, v.ref, t, ancestors);
      var next := ancestors + {v.ref};
      var entries := h[v.ref].entries;
      forall i | 0 <= i < |entries|
        ensures RedactedEntry(h, p, entries[i], next) == Ok(RedactTree(p, t).entries[i].1)
      {
        EntrySmaller(trees, i);
        AboveChild(h, v.ref, t, trees[i].1, ancestors);
        RedactedFollowsUnfolding(h, p, entries[i].1, trees[i].1, next);
      }
      EntriesPointwise(h, p, entries, next);
      assert RedactedEntries(h, p, entries, next).value == RedactTree(p, t).entries;
  }

  lemma NotItsOwnAncestor(h: Heap, r: Ref, t: Tree, ancestors: set<Ref>)
    requires Unfolds(h, Node(r), t) && Above(h, ancestors, t)
    ensures r !in ancestors
  {
    if r in ancestors {
      var u :| Unfolds(h, Node(r), u) && Size(u) > Size(t);
      UnfoldingUnique(h, Node(r), t, u);
    }
  }

  lemma AboveChild(h: Heap, r: Ref, t: Tree, child: Tree, ancestors: set<Ref>)
    requires Unfolds(h, Node(r), t) && Above(h, ancestors, t) && Size(child) < Size(t)
    ensures Above(h, ancestors + {r}, child)
  {
    forall a | a in ancestors + {r}
      ensures exists u :: Unfolds(h, Node(a), u) && Size(u) > Size(child)
    {
      if a != r {
        var u :| Unfolds(h, Node(a), u) && Size(u) > Size(t);
      }
    }
  }

  /** Shared but acyclic references never raise the error, and the result is the redaction of the tree
      obtained by copying every shared node. */
  lemma SharingIsInvisible(h: Heap, p: Policy, v: Value, t: Tree)
    requires Closed(h) && ValueIn(h, v) && Unfolds(h, v, t)
    ensures RedactPayload(h, p, v) == Ok(RedactTree(p, t))
  {
    RedactedFollowsUnfolding(h, p, v, t, {});
  }

  /** A policy that matches nothing: walks along its `Child` edges take every item and every key. */
  const OPEN := Policy((_: string) => false, [], (_: string) => false)

  lemma {:induction false} OpenRedactionUnfolds(h: Heap, v: Value, ancestors: set<Ref>)
    requires Closed(h) && ValueIn(h, v) && Redacted(h, OPEN, v, ancestors).Ok?
    ensures Unfolds(h, v, Redacted(h, OPEN, v, ancestors).value)
    decreases h.Keys - ancestors
  {
    if v.Node? {
      assert v.ref in h.Keys - ancestors;
      var next := ancestors + {v.ref};
      match h[v.ref] {
        case Arr(items) =>
          ItemsPointwise(h, OPEN, items, next);
          forall i | 0 <= i < |items|
            ensures Unfolds(h, items[i], Redacted(h, OPEN, items[i], next).value)
          {
            OpenRedactionUnfolds(h, items[i], next);
          }
        case Obj(entries) =>
          EntriesPointwise(h, OPEN, entries, next);
          forall i | 0 <= i < |entries|
            ensures Unfolds(h, entries[i].1, RedactedEntry(h, OPEN, entries[i], next).value)
          {
            assert RedactedEntry(h, OPEN, entries[i], next) == Redacted(h, OPEN, entries[i].1, next);
            OpenRedactionUnfolds(h, entries[i].1, next);
          }
      }
    }
  }

  /** A graph can be unfolded into a tree exactly when no walk from its root, through whatever items and keys, visits a
      node twice. */
  lemma UnfoldsExactlyWhenAcyclic(h: Heap, root: Ref)
    requires Closed(h) && root in h
    ensures (exists t :: Unfolds(h, Node(root), t)) <==>
            !(exists w :: Walk(h, OPEN, w) && w[0] == root && Repeats(w))
  {
    CircularExactly(h, OPEN, root);
    if RedactPayload(h, OPEN, Node(root)).Ok? {
      OpenRedactionUnfolds(h, Node(root), {});
      assert Unfolds(h, Node(root), RedactPayload(h, OPEN, Node(root)).value);
    }
    forall t | Unfolds(h, Node(root), t)
      ensures RedactPayload(h, OPEN, Node(root)).Ok?
    {
      SharingIsInvisible(h, OPEN, Node(root), t);
    }
  }

  /** So every acyclic graph, shared nodes and all, is redacted without error and as if each were copied. */
  lemma AcyclicGraphRedacts(h: Heap, p: Policy, root: Ref) returns (t: Tree)
    requires Closed(h) && root in h
    requires forall w | Walk(h, OPEN, w) && w[0] == root :: !Repeats(w)
    ensures Unfolds(h, Node(root), t) && RedactPayload(h, p, Node(root)) == Ok(RedactTree(p, t))
  {
    UnfoldsExactlyWhenAcyclic(h, root);
    t :| Unfolds(h, Node(root), t);
    SharingIsInvisible(h, p, Node(root), t);
  }

  // ----- What a redacted payload guarantees -----

  /** Every string leaf is the marker or is neither a known secret nor a value-pattern match. */
  ghost predicate LeavesClean(p: Policy, t: Tree) {
    match t
    case TText(s) => s == MARKER || (s !in p.secrets && !p.valueMatches(s))
    case TOpaque(_) => true
    case TArr(items) => forall i | 0 <= i < |items| :: LeavesClean(p, items[i])
    case TObj(entries) => forall i | 0 <= i < |entries| :: LeavesClean(p, entries[i].1)
  }

  /** Every value stored under a matched key is exactly the marker. */
  ghost predicate KeysClean(p: Policy, t: Tree) {
    match t
    case TText(_) => true
    case TOpaque(_) => true
    case TArr(items) => forall i | 0 <= i < |items| :: KeysClean(p, items[i])
    case TObj(entries) =>
      forall i | 0 <= i < |entries| ::
        if p.keyMatches(entries[i].0) then entries[i].1 == TText(MARKER) else KeysClean(p, entries[i].1)
  }

  /** Outside redacted keys the result has the graph's array lengths, key lists and opaque leaves, and exactly the
      strings that are known secrets or match a value pattern have become the marker. */
  ghost predicate SameShape(h: Heap, p: Policy, v: Value, t: Tree)
    decreases t
  {
    match t
    case TText(s) => v.Text? && s == if v.text in p.secrets || p.valueMatches(v.text) then MARKER else v.text
    case TOpaque(tag) => v == Opaque(tag)
    case TArr(trees) =>
      && v.Node? && v.ref in h && h[v.ref].Arr?
      && var items := h[v.ref].items;
         |items| == |trees| && forall i | 0 <= i < |trees| :: SameShape(h, p, items[i], trees[i])
    case TObj(trees) =>
      && v.Node? && v.ref in h && h[v.ref].Obj?
      && var entries := h[v.ref].entries;
         |entries| == |trees| &&
         forall i | 0 <= i < |trees| ::
           && trees[i].0 == entries[i].0
           && (p.keyMatches(entries[i].0) || SameShape(h, p, entries[i].1, trees[i].1))
  }

  lemma {:induction false} RedactedGuarantees(h: Heap, p: Policy, v: Value, ancestors: set<Ref>)
    requires Closed(h) && ValueIn(h, v)
    requires Redacted(h, p, v, ancestors).Ok?
    ensures var t := Redacted(h, p, v, ancestors).value;
      LeavesClean(p, t) && KeysClean(p, t) && SameShape(h, p, v, t)
    decreases h.Keys - ancestors
  {
    if v.Node? {
      assert v.ref in h.Keys - ancestors;
      var next := ancestors + {v.ref};
      var t := Redacted(h, p, v, ancestors).value;
      match h[v.ref] {
        case Arr(items) =>
          ItemsPointwise(h, p, items, next);
          forall i | 0 <= i < |items|
            ensures LeavesClean(p, t.items[i]) && KeysClean(p, t.items[i]) && SameShape(h, p, items[i], t.items[i])
          {
            RedactedGuarantees(h, p, items[i], next);
          }
        case Obj(entries) =>
          EntriesPointwise(h, p, entries, next);
          forall i | 0 <= i < |entries| && !p.keyMatches(entries[i].0)
            ensures LeavesClean(p, t.entries[i].1) && KeysClean(p, t.entries[i].1)
            ensures SameShape(h, p, entries[i].1, t.entries[i].1)
          {
            assert RedactedEntry(h, p, entries[i], next) == Redacted(h, p, entries[i].1, next);
            RedactedGuarantees(h, p, entries[i].1, next);
          }
      }
    }
  }

  /** Redaction leaves a tree alone exactly when it is already clean. */
  lemma {:induction false} FixedExactlyWhenClean(p: Policy, t: Tree)
    ensures RedactTree(p, t) == t <==> LeavesClean(p, t) && KeysClean(p, t)
  {
    match t
    case TText(_) =>
    case TOpaque(_) =>
    case TArr(items) =>
      var r := RedactTree(p, t).items;
      assert r == items <==> forall i | 0 <= i < |items| :: r[i] == items[i];
      forall i | 0 <= i < |items|
        ensures r[i] == items[i] <==> LeavesClean(p, items[i]) && KeysClean(p, items[i])
      {
        FixedExactlyWhenClean(p, items[i]);
      }
    case TObj(entries) =>
      var r := RedactTree(p, t).entries;
      assert r == entries <==> forall i | 0 <= i < |entries| :: r[i] == entries[i];
      forall i | 0 <= i < |entries|
        ensures r[i] == entries[i] <==>
                LeavesClean(p, entries[i].1) &&
                if p.keyMatches(entries[i].0) then entries[i].1 == TText(MARKER) else KeysClean(p, entries[i].1)
      {
        assert r[i].0 == entries[i].0;
        if !p.keyMatches(entries[i].0) {
          FixedExactlyWhenClean(p, entries[i].1);
        }
      }
  }

  /** A payload comes back unchanged exactly when no string in it is sensitive and no matched key holds
      anything but the marker. */
  lemma UnchangedExactlyWhenClean(h: Heap, p: Policy, v: Value, t: Tree)
    requires Closed(h) && ValueIn(h, v) && Unfolds(h, v, t)
    ensures RedactPayload(h, p, v) == Ok(t) <==> LeavesClean(p, t) && KeysClean(p, t)
  {
    SharingIsInvisible(h, p, v, t);
    FixedExactlyWhenClean(p, t);
  }

  /** Redacting any graph that unfolds to an already redacted payload returns that payload again. */
  lemma RedactionIdempotent(h: Heap, p: Policy, v: Value, h': Heap, v': Value)
    requires Closed(h) && ValueIn(h, v) && RedactPayload(h, p, v).Ok?
    requires Closed(h') && ValueIn(h', v') && Unfolds(h', v', RedactPayload(h, p, v).value)
    ensures RedactPayload(h', p, v') == RedactPayload(h, p, v)
  {
    RedactedGuarantees(h, p, v, {});
    UnchangedExactlyWhenClean(h', p, v', RedactPayload(h, p, v).value);
  }
}
