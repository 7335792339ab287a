/** A git commit graph: commits name parents that existed before them. */
module CommitGraph {

  type Id = string

  /** The parents of each commit, the content it records, and the order commits were made in. */
  datatype Graph = Graph(parents: map<Id, seq<Id>>, trees: map<Id, string>, age: map<Id, nat>)
  {
    ghost predicate Valid() {
      && parents.Keys == trees.Keys == age.Keys
      && forall c, k | c in parents && 0 <= k < |parents[c]| ::
           parents[c][k] in parents && age[parents[c][k]] < age[c]
    }
  }

  /** `a` is an ancestor of `b` or `b` itself. */
  predicate Reachable(g: Graph, a: Id, b: Id)
    requires g.Valid() && b in g.parents
    decreases g.age[b]
  {
    a == b || exists k :: 0 <= k < |g.parents[b]| && Reachable(g, a, g.parents[b][k])
  }

  /** `g'` holds every commit of `g` unchanged. */
  ghost predicate Extends(g: Graph, g': Graph) {
    forall c | c in g.parents :: c in g'.parents && g'.parents[c] == g.parents[c]
  }

  /** A new commit on top of existing ones. */
  function Commit(g: Graph, id: Id, parents: seq<Id>, tree: string, age: nat): Graph {
    Graph(g.parents[id := parents], g.trees[id := tree], g.age[id := age])
  }

  lemma CommitValid(g: Graph, id: Id, parents: seq<Id>, tree: string, age: nat)
    requires g.Valid() && id !in g.parents
    requires forall k | 0 <= k < |parents| :: parents[k] in g.parents && g.age[parents[k]] < age
    ensures Commit(g, id, parents, tree, age).Valid() && Extends(g, Commit(g, id, parents, tree, age))
  {
  }

  lemma {:induction false} ReachableTransitive(g: Graph, a: Id, b: Id, c: Id)
    requires g.Valid() && b in g.parents && c in g.parents
    requires Reachable(g, a, b) && Reachable(g, b, c)
    ensures Reachable(g, a, c)
    decreases g.age[c]
  {
    if b != c {
      var k :| 0 <= k < |g.parents[c]| && Reachable(g, b, g.parents[c][k]);
      ReachableTransitive(g, a, b, g.parents[c][k]);
    }
  }

  lemma {:induction false} ReachableOlder(g: Graph, a: Id, b: Id)
    requires g.Valid() && b in g.parents && Reachable(g, a, b)
    ensures a in g.parents && (a == b || g.age[a] < g.age[b])
    decreases g.age[b]
  {
    if a != b {
      var k :| 0 <= k < |g.parents[b]| && Reachable(g, a, g.parents[b][k]);
      ReachableOlder(g, a, g.parents[b][k]);
    }
  }

  /** No two different commits are ancestors of each other. */
  lemma NoCycles(g: Graph, a: Id, b: Id)
    requires g.Valid() && a in g.parents && b in g.parents
    requires Reachable(g, a, b) && Reachable(g, b, a)
    ensures a == b
  {
    ReachableOlder(g, a, b);
    ReachableOlder(g, b, a);
  }

  lemma {:induction false} ReachableExtends(g: Graph, g': Graph, a: Id, b: Id)
    requires g.Valid() && g'.Valid() && Extends(g, g') && b in g.parents && Reachable(g, a, b)
    ensures Reachable(g', a, b)
    decreases g.age[b]
  {
    if a != b {
      var k :| 0 <= k < |g.parents[b]| && Reachable(g, a, g.parents[b][k]);
      ReachableExtends(g, g', a, g.parents[b][k]);
      assert g'.parents[b][k] == g.parents[b][k];
    }
  }
}
