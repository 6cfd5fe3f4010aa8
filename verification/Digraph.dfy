/** Finite directed graphs over names: paths, reachability, closed sets and
    strongly connected components. Every graph argument of the project (module
    imports, package dependencies, stratum edges) is phrased in these terms. */
module Digraph {

  /** Adjacency. A name that is not a key simply has no successor. */
  type Adj = map<string, set<string>>

  function Succ(g: Adj, u: string): set<string> {
    if u in g then g[u] else {}
  }

  function Nodes(g: Adj): set<string> {
    g.Keys + set u, v | u in g && v in g[u] :: v
  }

  /** `p` lists the nodes visited after `u`, ending in `v`. */
  ghost predicate IsPath(g: Adj, u: string, p: seq<string>, v: string)
    decreases |p|
  {
    if p == [] then u == v else p[0] in Succ(g, u) && IsPath(g, p[0], p[1..], v)
  }

  ghost predicate Reaches(g: Adj, u: string, v: string) {
    exists p :: IsPath(g, u, p, v)
  }

  ghost predicate Mutual(g: Adj, u: string, v: string) {
    Reaches(g, u, v) && Reaches(g, v, u)
  }

  ghost predicate Closed(g: Adj, s: set<string>) {
    forall u, v {:trigger v in Succ(g, u)} :: u in s && v in Succ(g, u) ==> v in s
  }

  /** A maximal set of mutually reachable nodes. */
  ghost predicate IsScc(g: Adj, c: set<string>) {
    c != {} && forall u :: u in c ==> forall v :: v in c <==> Mutual(g, u, v)
  }

  lemma ReachesSelf(g: Adj, u: string)
    ensures Reaches(g, u, u)
  {
    assert IsPath(g, u, [], u);
  }

  lemma ReachesEdge(g: Adj, u: string, v: string)
    requires v in Succ(g, u)
    ensures Reaches(g, u, v)
  {
    assert IsPath(g, v, [], v);
    assert [v][1..] == [];
    assert IsPath(g, u, [v], v);
  }

  lemma {:induction false} PathConcat(g: Adj, u: string, p: seq<string>, v: string, q: seq<string>, w: string)
    requires IsPath(g, u, p, v) && IsPath(g, v, q, w)
    ensures IsPath(g, u, p + q, w)
    decreases |p|
  {
    if p == [] {
      assert p + q == q;
    } else {
      PathConcat(g, p[0], p[1..], v, q, w);
      assert (p + q)[1..] == p[1..] + q;
    }
  }

  lemma ReachesTrans(g: Adj, u: string, v: string, w: string)
    requires Reaches(g, u, v) && Reaches(g, v, w)
    ensures Reaches(g, u, w)
  {
    var p :| IsPath(g, u, p, v);
    var q :| IsPath(g, v, q, w);
    PathConcat(g, u, p, v, q, w);
  }

  lemma {:induction false} PathStaysIn(g: Adj, s: set<string>, u: string, p: seq<string>, v: string)
    requires Closed(g, s) && u in s && IsPath(g, u, p, v)
    ensures v in s
    decreases |p|
  {
    if p == [] {
    } else {
      PathStaysIn(g, s, p[0], p[1..], v);
    }
  }

  /** Reachability never leaves a set closed under successors. */
  lemma ClosedReach(g: Adj, s: set<string>, u: string, v: string)
    requires Closed(g, s) && u in s && Reaches(g, u, v)
    ensures v in s
  {
    var p :| IsPath(g, u, p, v);
    PathStaysIn(g, s, u, p, v);
  }

  /** The first edge of a path between two different nodes. */
  lemma FirstEdge(g: Adj, u: string, v: string) returns (w: string)
    requires Reaches(g, u, v) && u != v
    ensures w in Succ(g, u) && Reaches(g, w, v)
  {
    var p :| IsPath(g, u, p, v);
    w := p[0];
    assert IsPath(g, w, p[1..], v);
  }

  lemma {:induction false} PathInNodes(g: Adj, u: string, p: seq<string>, v: string)
    requires IsPath(g, u, p, v) && u in Nodes(g)
    ensures v in Nodes(g)
    decreases |p|
  {
    if p == [] {
    } else {
      assert u in g && p[0] in g[u];
      PathInNodes(g, p[0], p[1..], v);
    }
  }

  /** Two components that share a node are the same component. */
  lemma SccsAgree(g: Adj, c: set<string>, d: set<string>, u: string)
    requires IsScc(g, c) && IsScc(g, d) && u in c && u in d
    ensures c == d
  {
    assert forall v :: v in c <==> Mutual(g, u, v);
    assert forall v :: v in d <==> Mutual(g, u, v);
  }

  /** The components of two or more nodes. */
  ghost function Sccs(g: Adj): (r: set<set<string>>) {
    set c | c <= Nodes(g) && IsScc(g, c) && |c| >= 2
  }

  /** Every component of two or more nodes lies inside the graph, so `Sccs`
      misses none, and all its nodes have successors. */
  lemma LargeScc(g: Adj, c: set<string>)
    requires IsScc(g, c) && |c| >= 2
    ensures c in Sccs(g)
    ensures c <= g.Keys
  {
    forall u | u in c ensures u in g {
      assert |{u}| == 1;
      assert c != {u};
      var v :| v in c && v != u;
      assert Mutual(g, u, v);
      var w := FirstEdge(g, u, v);
    }
  }
}
