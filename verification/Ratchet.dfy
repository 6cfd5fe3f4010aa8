/** The ratchet itself: how the measured components of a crate's module graph
    are compared with its baseline rows, and what the report is worth. */
module Ratchet {
  import opened Digraph

  datatype Site = Site(path: string, line: nat)

  /** Module -> imported module -> the places that import it. */
  type Graph = map<string, map<string, seq<Site>>>

  function Edges(graph: Graph): Adj {
    map u | u in graph :: graph[u].Keys
  }

  /** An edge is recorded by appending a site, so it has at least one. */
  ghost predicate Sited(graph: Graph) {
    forall u, v :: u in graph && v in graph[u] ==> graph[u][v] != []
  }

  /** What a baseline loads as: rows of two or more modules, pairwise disjoint. */
  ghost predicate Rows(baseline: set<set<string>>) {
    && (forall r :: r in baseline ==> |r| >= 2)
    && (forall r, s, x :: r in baseline && s in baseline && x in r && x in s ==> r == s)
  }

  predicate InOneRow(baseline: set<set<string>>, u: string, v: string) {
    exists row :: row in baseline && u in row && v in row
  }

  datatype Import = Import(source: string, target: string, site: Site)

  datatype Report = Report(grew: set<(set<string>, set<Import>)>, stale: set<(set<string>, set<set<string>>)>)

  function Grown(measured: set<set<string>>, baseline: set<set<string>>): set<set<string>> {
    set s | s in measured && !exists row :: row in baseline && s <= row
  }

  /** The imports listed under a grown component. */
  function Closing(s: set<string>, baseline: set<set<string>>, graph: Graph): set<Import> {
    set u, v, i | u in s && u in graph && v in graph[u] && v in s && !InOneRow(baseline, u, v)
                  && 0 <= i < |graph[u][v]| :: Import(u, v, graph[u][v][i])
  }

  function Stale(measured: set<set<string>>, baseline: set<set<string>>): set<set<string>> {
    set row | row in baseline && row !in measured && !exists s :: s in Grown(measured, baseline) && row <= s
  }

  function Compare(measured: set<set<string>>, baseline: set<set<string>>, graph: Graph): Report {
    Report(set s | s in Grown(measured, baseline) :: (s, Closing(s, baseline, graph)),
           set row | row in Stale(measured, baseline) :: (row, set s | s in measured && s <= row))
  }

  lemma SccsDisjoint(g: Adj)
    ensures Rows(Sccs(g))
  {
    forall r, s, x | r in Sccs(g) && s in Sccs(g) && x in r && x in s ensures r == s {
      SccsAgree(g, r, s, x);
    }
  }

  /** A clean report is exactly equality with the baseline. */
  lemma CleanIffEqual(measured: set<set<string>>, baseline: set<set<string>>, graph: Graph)
    requires Rows(measured) && Rows(baseline)
    ensures Compare(measured, baseline, graph) == Report({}, {}) <==> measured == baseline
  {
    var report := Compare(measured, baseline, graph);
    assert forall s :: s in Grown(measured, baseline) ==> (s, Closing(s, baseline, graph)) in report.grew;
    assert forall row :: row in Stale(measured, baseline) ==>
        (row, set s | s in measured && s <= row) in report.stale;
    if report == Report({}, {}) {
      assert Grown(measured, baseline) == {} == Stale(measured, baseline);
      assert forall row :: row in baseline ==> row !in Stale(measured, baseline);
      forall s | s in measured ensures s in baseline {
        assert s !in Grown(measured, baseline);
        var row :| row in baseline && s <= row;
        var x :| x in s;
      }
    }
    if measured == baseline {
      assert Grown(measured, baseline) == {};
      assert Stale(measured, baseline) == {};
    }
  }

  /** A row is stale exactly when no measured component contains it any more:
      it shrank or dissolved. */
  lemma StaleIffShrunk(measured: set<set<string>>, baseline: set<set<string>>, row: set<string>)
    requires Rows(measured) && Rows(baseline) && row in baseline
    ensures row in Stale(measured, baseline) <==> forall s :: s in measured ==> !(row <= s)
  {
    forall s | s in measured && row <= s ensures row !in Stale(measured, baseline) {
      if s !in Grown(measured, baseline) {
        var r :| r in baseline && s <= r;
        var x :| x in row;
        assert r == row;
        assert s == row;
      }
    }
  }

  // ---- what deleting the listed imports does ----

  /** The graph without the edges in `cut`. */
  function Without(g: Adj, cut: set<(string, string)>): Adj {
    map u | u in g :: set v | v in g[u] && (u, v) !in cut
  }

  function EdgesOf(imports: set<Import>): set<(string, string)> {
    set i | i in imports :: (i.source, i.target)
  }

  lemma {:induction false} PathWithout(g: Adj, cut: set<(string, string)>, u: string, p: seq<string>, v: string)
    requires IsPath(Without(g, cut), u, p, v)
    ensures IsPath(g, u, p, v)
    decreases |p|
  {
    if p == [] {
    } else {
      PathWithout(g, cut, p[0], p[1..], v);
    }
  }

  lemma ReachesWithout(g: Adj, cut: set<(string, string)>, u: string, v: string)
    requires Reaches(Without(g, cut), u, v)
    ensures Reaches(g, u, v)
  {
    var p :| IsPath(Without(g, cut), u, p, v);
    PathWithout(g, cut, u, p, v);
  }

  /** The edges between two modules of one component that survive the cut all
      stay inside a row. */
  ghost predicate EdgesInRows(g: Adj, c: set<string>, baseline: set<set<string>>) {
    forall u, v :: u in c && v in c && v in Succ(g, u) && u != v ==> InOneRow(baseline, u, v)
  }

  lemma {:induction false} RowAlongPath(g: Adj, c: set<string>, baseline: set<set<string>>, row: set<string>,
                                        u: string, p: seq<string>, v: string)
    requires IsScc(g, c) && EdgesInRows(g, c, baseline) && Rows(baseline)
    requires row in baseline && u in row && u in c && v in c && IsPath(g, u, p, v)
    ensures v in row
    decreases |p|
  {
    if p == [] {
    } else {
      var w := p[0];
      ReachesEdge(g, u, w);
      assert Reaches(g, w, v) by { assert IsPath(g, w, p[1..], v); }
      assert Mutual(g, u, v);
      ReachesTrans(g, w, v, u);
      assert Mutual(g, u, w);
      assert w in row;
      RowAlongPath(g, c, baseline, row, w, p[1..], v);
    }
  }

  /** A component all of whose edges stay inside rows is inside one row. */
  lemma SccInOneRow(g: Adj, c: set<string>, baseline: set<set<string>>) returns (row: set<string>)
    requires IsScc(g, c) && |c| >= 2 && EdgesInRows(g, c, baseline) && Rows(baseline)
    ensures row in baseline && c <= row
  {
    var x :| x in c;
    assert |{x}| == 1;
    assert c != {x};
    var y :| y in c && y != x;
    assert Mutual(g, x, y);
    row := LeavingRow(g, c, baseline, x, y);
    forall z | z in c ensures z in row {
      assert Mutual(g, x, z);
      var p :| IsPath(g, x, p, z);
      RowAlongPath(g, c, baseline, row, x, p, z);
    }
  }

  lemma LeavingRow(g: Adj, c: set<string>, baseline: set<set<string>>, x: string, y: string) returns (row: set<string>)
    requires IsScc(g, c) && EdgesInRows(g, c, baseline) && x in c && y in c && x != y
    ensures row in baseline && x in row
  {
    assert Mutual(g, x, y);
    var p :| IsPath(g, x, p, y);
    row := FirstRow(g, c, baseline, x, p, y);
  }

  /** The first edge of the path that is no self-loop names `x`'s row. */
  lemma {:induction false} FirstRow(g: Adj, c: set<string>, baseline: set<set<string>>,
                                    x: string, p: seq<string>, y: string) returns (row: set<string>)
    requires IsScc(g, c) && EdgesInRows(g, c, baseline) && x in c && y in c && x != y && IsPath(g, x, p, y)
    ensures row in baseline && x in row
    decreases |p|
  {
    var w := p[0];
    if w == x {
      row := FirstRow(g, c, baseline, x, p[1..], y);
    } else {
      ReachesEdge(g, x, w);
      assert Reaches(g, w, y) by { assert IsPath(g, w, p[1..], y); }
      assert Mutual(g, x, y);
      ReachesTrans(g, w, y, x);
      assert Mutual(g, x, w);
      row :| row in baseline && x in row && w in row;
    }
  }

  lemma ListedUnlessInRow(graph: Graph, baseline: set<set<string>>, s: set<string>, u: string, v: string)
    requires Sited(graph) && u in s && v in s && u in graph && v in graph[u] && !InOneRow(baseline, u, v)
    ensures (u, v) in EdgesOf(Closing(s, baseline, graph))
  {
    assert Import(u, v, graph[u][v][0]) in Closing(s, baseline, graph);
  }

  lemma ClosingCut(graph: Graph, baseline: set<set<string>>, s: set<string>, c: set<string>)
    requires Sited(graph) && c <= s
    ensures EdgesInRows(Without(Edges(graph), EdgesOf(Closing(s, baseline, graph))), c, baseline)
  {
    var g := Without(Edges(graph), EdgesOf(Closing(s, baseline, graph)));
    forall u, v | u in c && v in c && v in Succ(g, u) ensures InOneRow(baseline, u, v) {
      if !InOneRow(baseline, u, v) {
        ListedUnlessInRow(graph, baseline, s, u, v);
      }
    }
  }

  /** Deleting every import listed under a grown component leaves, among its
      modules, only components that fit into one baseline row. */
  lemma DeletingClosingImports(graph: Graph, baseline: set<set<string>>, s: set<string>, c: set<string>)
    requires Sited(graph) && Rows(baseline) && IsScc(Edges(graph), s)
    requires IsScc(Without(Edges(graph), EdgesOf(Closing(s, baseline, graph))), c) && |c| >= 2 && c * s != {}
    ensures c <= s && exists row :: row in baseline && c <= row
  {
    var g := Edges(graph);
    var cut := EdgesOf(Closing(s, baseline, graph));
    var x :| x in c * s;
    forall y | y in c ensures y in s {
      assert Mutual(Without(g, cut), x, y);
      ReachesWithout(g, cut, x, y);
      ReachesWithout(g, cut, y, x);
      assert Mutual(g, x, y);
    }
    ClosingCut(graph, baseline, s, c);
    var row := SccInOneRow(Without(g, cut), c, baseline);
  }

  /** Every grown component lists at least one import. */
  lemma GrownListsImports(graph: Graph, baseline: set<set<string>>, s: set<string>)
    requires Sited(graph) && Rows(baseline) && s in Grown(Sccs(Edges(graph)), baseline)
    ensures Closing(s, baseline, graph) != {}
  {
    var g := Edges(graph);
    if Closing(s, baseline, graph) == {} {
      assert EdgesOf(Closing(s, baseline, graph)) == {};
      assert forall u :: u in g ==> Without(g, {})[u] == g[u];
      assert Without(g, {}) == g;
      assert s * s == s;
      DeletingClosingImports(graph, baseline, s, s);
    }
  }

  // ---- what is listed, and nothing else ----

  /** Every edge inside `s`, loops included, has both ends in one row. */
  ghost predicate InsideRows(g: Adj, s: set<string>, baseline: set<set<string>>) {
    forall u, v :: u in s && v in s && v in Succ(g, u) ==> InOneRow(baseline, u, v)
  }

  ghost predicate GrewWith(measured: set<set<string>>, baseline: set<set<string>>, graph: Graph,
                           s: set<string>, listed: set<Import>) {
    (s, listed) in Compare(measured, baseline, graph).grew
  }

  lemma ListedIsClosing(measured: set<set<string>>, baseline: set<set<string>>, graph: Graph,
                        s: set<string>, listed: set<Import>)
    requires GrewWith(measured, baseline, graph, s, listed)
    ensures s in measured && listed == Closing(s, baseline, graph)
  {
  }

  /** The edges listed under a grown component are the least cut of the graph that
      leaves, among its modules, only edges inside baseline rows. */
  lemma ListedIsLeastCut(measured: set<set<string>>, baseline: set<set<string>>, graph: Graph,
                         s: set<string>, listed: set<Import>)
    requires Sited(graph) && GrewWith(measured, baseline, graph, s, listed)
    ensures InsideRows(Without(Edges(graph), EdgesOf(listed)), s, baseline)
    ensures forall cut :: InsideRows(Without(Edges(graph), cut), s, baseline) ==> EdgesOf(listed) <= cut
  {
    ListedIsClosing(measured, baseline, graph, s, listed);
    forall u, v | u in s && v in s && v in Succ(Without(Edges(graph), EdgesOf(listed)), u)
      ensures InOneRow(baseline, u, v)
    {
      if !InOneRow(baseline, u, v) {
        ListedUnlessInRow(graph, baseline, s, u, v);
      }
    }
    forall cut, e | InsideRows(Without(Edges(graph), cut), s, baseline) && e in EdgesOf(listed)
      ensures e in cut
    {
      assert e.1 in Succ(Edges(graph), e.0) && !InOneRow(baseline, e.0, e.1);
      assert e !in cut ==> e.1 in Succ(Without(Edges(graph), cut), e.0);
    }
  }

  /** The listed imports spare the baseline: every edge between two modules of one
      row stays when they are deleted. */
  lemma RowsAreSpared(measured: set<set<string>>, baseline: set<set<string>>, graph: Graph,
                      s: set<string>, listed: set<Import>, row: set<string>, u: string, v: string)
    requires GrewWith(measured, baseline, graph, s, listed)
    requires row in baseline && u in row && v in row && v in Succ(Edges(graph), u)
    ensures v in Succ(Without(Edges(graph), EdgesOf(listed)), u)
  {
    ListedIsClosing(measured, baseline, graph, s, listed);
    assert InOneRow(baseline, u, v);
  }

  ghost predicate HasSite(graph: Graph, i: Import) {
    i.source in graph && i.target in graph[i.source] && i.site in graph[i.source][i.target]
  }

  /** With an edge all of its sites are listed, each of them a place of the graph
      that imports from the component into it. */
  lemma ListedSites(measured: set<set<string>>, baseline: set<set<string>>, graph: Graph,
                    s: set<string>, listed: set<Import>, i: Import)
    requires GrewWith(measured, baseline, graph, s, listed)
    ensures i in listed ==> HasSite(graph, i) && i.source in s && i.target in s
    ensures i in listed <==> HasSite(graph, i) && (i.source, i.target) in EdgesOf(listed)
  {
    ListedIsClosing(measured, baseline, graph, s, listed);
    if HasSite(graph, i) && (i.source, i.target) in EdgesOf(listed) {
      var k :| 0 <= k < |graph[i.source][i.target]| && graph[i.source][i.target][k] == i.site;
      assert i == Import(i.source, i.target, graph[i.source][i.target][k]);
    }
  }

  /** Two modules that reach each other are in one component. */
  lemma SharedScc(g: Adj, u: string, v: string) returns (c: set<string>)
    requires u != v && Mutual(g, u, v)
    ensures c in Sccs(g) && u in c && v in c
  {
    c := set w | w in Nodes(g) && Mutual(g, u, w);
    var first := FirstEdge(g, u, v);
    assert u in Nodes(g);
    forall w | Mutual(g, u, w)
      ensures w in Nodes(g)
    {
      var p :| IsPath(g, u, p, w);
      PathInNodes(g, u, p, w);
    }
    ReachesSelf(g, u);
    forall x, y | x in c
      ensures y in c <==> Mutual(g, x, y)
    {
      if Mutual(g, x, y) {
        ReachesTrans(g, u, x, y);
        ReachesTrans(g, y, x, u);
      }
      if y in c {
        ReachesTrans(g, x, u, y);
        ReachesTrans(g, y, u, x);
      }
    }
    assert {u, v} <= c && |{u, v}| == 2;
    assert c == {u, v} + (c - {u, v});
    LargeScc(g, c);
  }

  /** What a STALE line shows of its row: the components left inside it. Two of
      its modules that still reach each other are in one of those, or in a
      component that is reported as grown. */
  lemma StaleRemains(g: Adj, baseline: set<set<string>>, graph: Graph, row: set<string>, left: set<set<string>>,
                     u: string, v: string)
    requires Rows(baseline) && (row, left) in Compare(Sccs(g), baseline, graph).stale
    ensures forall c :: c in left <==> IsScc(g, c) && |c| >= 2 && c <= row
    ensures u in row && v in row && u != v && Mutual(g, u, v) ==>
              exists c :: u in c && v in c && (c in left || c in Grown(Sccs(g), baseline))
  {
    forall c | IsScc(g, c) && |c| >= 2
      ensures c in Sccs(g)
    {
      LargeScc(g, c);
    }
    if u in row && v in row && u != v && Mutual(g, u, v) {
      var c := SharedScc(g, u, v);
      assert c in left || c in Grown(Sccs(g), baseline);
    }
  }

  // ---- what deleting a single edge does ----

  lemma {:induction false} Reroute(g: Adj, u: string, v: string, a: string, p: seq<string>, b: string)
    requires IsPath(g, a, p, b) && Reaches(Without(g, {(u, v)}), u, v)
    ensures Reaches(Without(g, {(u, v)}), a, b)
    decreases |p|
  {
    var h := Without(g, {(u, v)});
    if p == [] {
      ReachesSelf(h, a);
    } else {
      Reroute(g, u, v, p[0], p[1..], b);
      if (a, p[0]) != (u, v) {
        ReachesEdge(h, a, p[0]);
      }
      ReachesTrans(h, a, p[0], b);
    }
  }

  /** Deleting one edge inside a component breaks the component exactly when
      its source no longer reaches its target some other way. */
  lemma OneEdgeBreaksIff(g: Adj, s: set<string>, u: string, v: string)
    requires IsScc(g, s) && u in s && v in s && v in Succ(g, u)
    ensures IsScc(Without(g, {(u, v)}), s) <==> Reaches(Without(g, {(u, v)}), u, v)
  {
    var h := Without(g, {(u, v)});
    if IsScc(h, s) {
      assert Mutual(h, u, v);
    }
    if Reaches(h, u, v) {
      forall x, y | x in s ensures y in s <==> Mutual(h, x, y) {
        if y in s {
          assert Mutual(g, x, y);
          var p :| IsPath(g, x, p, y);
          Reroute(g, u, v, x, p, y);
          var q :| IsPath(g, y, q, x);
          Reroute(g, u, v, y, q, x);
        } else if Mutual(h, x, y) {
          ReachesWithout(g, {(u, v)}, x, y);
          ReachesWithout(g, {(u, v)}, y, x);
        }
      }
    }
  }

  // ---- what moving a single import does ----

  /** The graph after the import at one of the sites of an edge has gone; the
      edge goes with its last site. */
  function Moved(graph: Graph, u: string, v: string, i: nat): Graph
    requires u in graph && v in graph[u] && i < |graph[u][v]|
  {
    var left := graph[u][v][..i] + graph[u][v][i + 1..];
    graph[u := if left == [] then graph[u] - {v} else graph[u][v := left]]
  }

  lemma MovedEdges(graph: Graph, u: string, v: string, i: nat)
    requires u in graph && v in graph[u] && i < |graph[u][v]|
    ensures Edges(Moved(graph, u, v, i)) ==
            if |graph[u][v]| == 1 then Without(Edges(graph), {(u, v)}) else Edges(graph)
  {
    var after, g := Moved(graph, u, v, i), Edges(graph);
    var want := if |graph[u][v]| == 1 then Without(g, {(u, v)}) else g;
    assert |graph[u][v][..i] + graph[u][v][i + 1..]| == |graph[u][v]| - 1;
    assert Edges(after).Keys == graph.Keys == want.Keys;
    forall x | x in graph
      ensures Edges(after)[x] == want[x]
    {
      if x != u {
        assert want[x] == g[x];
      } else if |graph[u][v]| == 1 {
        assert after[u].Keys == graph[u].Keys - {v};
      } else {
        assert after[u].Keys == graph[u].Keys + {v};
      }
    }
  }

  /** Moving one listed import breaks the component exactly when it is the only
      import of its edge and the edge is the only way from its source to its
      target. */
  lemma OneImportBreaksIff(graph: Graph, s: set<string>, u: string, v: string, i: nat)
    requires IsScc(Edges(graph), s) && u in s && v in s
    requires u in graph && v in graph[u] && i < |graph[u][v]|
    ensures !IsScc(Edges(Moved(graph, u, v, i)), s) <==>
            |graph[u][v]| == 1 && !Reaches(Without(Edges(graph), {(u, v)}), u, v)
  {
    MovedEdges(graph, u, v, i);
    OneEdgeBreaksIff(Edges(graph), s, u, v);
  }

  const ABC := {"a", "b", "c"}

  /** Three modules that all import each other. */
  const TRIANGLE: Graph := map[
    "a" := map["b" := [Site("a.rs", 1)], "c" := [Site("a.rs", 2)]],
    "b" := map["a" := [Site("b.rs", 1)], "c" := [Site("b.rs", 2)]],
    "c" := map["a" := [Site("c.rs", 1)], "b" := [Site("c.rs", 2)]]]

  lemma CompleteIsScc(g: Adj, s: set<string>)
    requires s != {} && forall x :: x in s ==> x in g && g[x] == s - {x}
    ensures IsScc(g, s)
  {
    forall x, y | x in s ensures y in s <==> Mutual(g, x, y) {
      if y in s {
        if x == y { ReachesSelf(g, x); } else { ReachesEdge(g, x, y); ReachesEdge(g, y, x); }
      } else if Mutual(g, x, y) {
        ClosedReach(g, s, x, y);
      }
    }
  }

  lemma TriangleEdges()
    ensures Edges(TRIANGLE).Keys == ABC
    ensures Edges(TRIANGLE)["a"] == {"b", "c"} && Edges(TRIANGLE)["b"] == {"a", "c"}
    ensures Edges(TRIANGLE)["c"] == {"a", "b"}
  {
    assert TRIANGLE["a"].Keys == {"b", "c"};
    assert TRIANGLE["b"].Keys == {"a", "c"};
    assert TRIANGLE["c"].Keys == {"a", "b"};
  }

  lemma TriangleIsSited()
    ensures Sited(TRIANGLE)
  {
  }

  lemma TriangleIsScc(g: Adj)
    requires g.Keys == ABC && g["a"] == {"b", "c"} && g["b"] == {"a", "c"} && g["c"] == {"a", "b"}
    ensures IsScc(g, ABC) && ABC in Sccs(g)
  {
    assert ABC - {"a"} == {"b", "c"} && ABC - {"b"} == {"a", "c"} && ABC - {"c"} == {"a", "b"};
    CompleteIsScc(g, ABC);
    assert |ABC| == 3;
    LargeScc(g, ABC);
  }

  /** The report on a graph without a baseline lists this import under `s`. */
  ghost predicate Lists(graph: Graph, s: set<string>, i: Import) {
    exists listed :: (s, listed) in Compare(Sccs(Edges(graph)), {}, graph).grew && i in listed
  }

  /** Without any baseline every import inside a component is listed under it. */
  lemma AllListed(graph: Graph, s: set<string>, u: string, v: string, i: nat)
    requires s in Sccs(Edges(graph)) && u in s && v in s && u in graph && v in graph[u] && i < |graph[u][v]|
    ensures Lists(graph, s, Import(u, v, graph[u][v][i]))
  {
    var measured := Sccs(Edges(graph));
    assert s in Grown(measured, {});
    assert (s, Closing(s, {}, graph)) in Compare(measured, {}, graph).grew;
  }

  /** The report lists the import a -> b under the grown component, and moving
      that import leaves the component as it is: another way leads to b. */
  lemma OneImportMayNotBreak()
    ensures Sited(TRIANGLE) && Lists(TRIANGLE, ABC, Import("a", "b", Site("a.rs", 1)))
    ensures IsScc(Edges(Moved(TRIANGLE, "a", "b", 0)), ABC)
  {
    TriangleEdges();
    TriangleIsSited();
    TriangleIsScc(Edges(TRIANGLE));
    AllListed(TRIANGLE, ABC, "a", "b", 0);
    AroundTheTriangle(Edges(TRIANGLE));
    OneImportBreaksIff(TRIANGLE, ABC, "a", "b", 0);
  }

  /** Two modules, one of which imports the other at two lines. */
  const TWICE: Graph := map[
    "a" := map["b" := [Site("a.rs", 1), Site("a.rs", 2)]],
    "b" := map["a" := [Site("b.rs", 1)]]]

  lemma TwiceEdges()
    ensures Edges(TWICE).Keys == {"a", "b"} && Edges(TWICE)["a"] == {"b"} && Edges(TWICE)["b"] == {"a"}
  {
    assert TWICE["a"].Keys == {"b"};
    assert TWICE["b"].Keys == {"a"};
  }

  lemma TwiceIsSited()
    ensures Sited(TWICE)
  {
  }

  lemma PairIsScc(g: Adj)
    requires g.Keys == {"a", "b"} && g["a"] == {"b"} && g["b"] == {"a"}
    ensures IsScc(g, {"a", "b"}) && {"a", "b"} in Sccs(g)
  {
    var s := {"a", "b"};
    assert s - {"a"} == {"b"} && s - {"b"} == {"a"};
    CompleteIsScc(g, s);
    assert |s| == 2;
    LargeScc(g, s);
  }

  lemma OnlyWay(g: Adj, u: string, v: string)
    requires u != v && Succ(g, u) == {v}
    ensures !Reaches(Without(g, {(u, v)}), u, v)
  {
    var h := Without(g, {(u, v)});
    assert Succ(h, u) == {};
    if Reaches(h, u, v) {
      var w := FirstEdge(h, u, v);
    }
  }

  /** Both imports a -> b are listed and the edge is the only way to b, yet
      moving either of them leaves the component whole. */
  lemma OneOfTwoDoesNotBreak(i: nat)
    requires i < 2
    ensures Sited(TWICE) && Lists(TWICE, {"a", "b"}, Import("a", "b", TWICE["a"]["b"][i]))
    ensures !Reaches(Without(Edges(TWICE), {("a", "b")}), "a", "b")
    ensures IsScc(Edges(Moved(TWICE, "a", "b", i)), {"a", "b"})
  {
    TwiceEdges();
    TwiceIsSited();
    PairIsScc(Edges(TWICE));
    AllListed(TWICE, {"a", "b"}, "a", "b", i);
    OnlyWay(Edges(TWICE), "a", "b");
    OneImportBreaksIff(TWICE, {"a", "b"}, "a", "b", i);
  }

  lemma AroundTheTriangle(g: Adj)
    requires "c" in Succ(g, "a") && "b" in Succ(g, "c")
    ensures Reaches(Without(g, {("a", "b")}), "a", "b")
  {
    var h := Without(g, {("a", "b")});
    ReachesEdge(h, "a", "c");
    ReachesEdge(h, "c", "b");
    ReachesTrans(h, "a", "c", "b");
  }
}
