/** Two closures over cargo metadata: the members whose test compilation
    reaches a seed crate, and the reverse-dependency closure over every
    dependency kind. Each worklist computes its reachability set, and the
    first closure is inside the second. */
module Closures {
  import opened Digraph
  import opened Outcomes

  datatype Kind = Normal | Build | Dev | Other

  datatype Dep = Dep(pkg: string, kinds: set<Kind>)

  /** Package ids, the name each id carries, and each id's resolved deps. */
  datatype Metadata = Metadata(members: set<string>, names: map<string, string>, nodes: map<string, seq<Dep>>)

  /** Edges compiled transitively. */
  function NormalEdges(m: Metadata): Adj {
    map u | u in m.nodes :: set d | d in m.nodes[u] && (Normal in d.kinds || Build in d.kinds) :: d.pkg
  }

  /** Edges compiled for the tested package only. */
  function DevEdges(m: Metadata): Adj {
    map u | u in m.nodes :: set d | d in m.nodes[u] && Dev in d.kinds :: d.pkg
  }

  /** Who depends on a member, inside the workspace, for whatever kind. */
  function Dependents(m: Metadata): Adj {
    map v | v in m.members :: set u | u in m.nodes && u in m.members && exists d :: d in m.nodes[u] && d.pkg == v
  }

  function SeedIds(m: Metadata, seeds: set<string>): set<string> {
    set i | i in m.names && m.names[i] in seeds
  }

  // ---- the worklists ----

  method ListOf(s: set<string>) returns (q: seq<string>)
    ensures forall x :: x in q <==> x in s
  {
    q := [];
    var todo := s;
    while todo != {}
      invariant todo <= s && forall x :: x in q <==> x in s - todo
      decreases todo
    {
      var x :| x in todo;
      q := q + [x];
      todo := todo - {x};
    }
  }

  ghost predicate ReachedFrom(g: Adj, seeds: set<string>, x: string) {
    exists s :: s in seeds && Reaches(g, s, x)
  }

  /** Everything found is reachable; everything expanded has its successors
      found. */
  ghost predicate Found(g: Adj, seeds: set<string>, visited: set<string>, queue: seq<string>) {
    && (forall x :: x in visited || x in queue ==> ReachedFrom(g, seeds, x))
    && (forall x :: x in seeds ==> x in visited || x in queue)
  }

  lemma FoundAll(g: Adj, seeds: set<string>, visited: set<string>)
    requires Found(g, seeds, visited, []) && Closed(g, visited)
    ensures forall x :: x in visited <==> ReachedFrom(g, seeds, x)
  {
    forall x | ReachedFrom(g, seeds, x) ensures x in visited {
      var s :| s in seeds && Reaches(g, s, x);
      ClosedReach(g, visited, s, x);
    }
  }

  lemma ReachedStep(g: Adj, seeds: set<string>, u: string, v: string)
    requires ReachedFrom(g, seeds, u) && v in Succ(g, u)
    ensures ReachedFrom(g, seeds, v)
  {
    var s :| s in seeds && Reaches(g, s, u);
    ReachesEdge(g, u, v);
    ReachesTrans(g, s, u, v);
  }

  ghost predicate Expanded(g: Adj, visited: set<string>, queue: seq<string>) {
    forall u, v {:trigger v in Succ(g, u)} :: u in visited && v in Succ(g, u) ==> v in visited || v in queue
  }

  /** Mark on pop: a node may be queued often and is expanded once. */
  method NormalClosure(g: Adj, start: string) returns (visited: set<string>)
    ensures forall x :: x in visited <==> Reaches(g, start, x)
  {
    visited := {};
    var queue := [start];
    ReachesSelf(g, start);
    while queue != []
      invariant Found(g, {start}, visited, queue) && Expanded(g, visited, queue)
      invariant visited <= Nodes(g) + {start} && forall x :: x in queue ==> x in Nodes(g) + {start}
      decreases Nodes(g) + {start} - visited, |queue|
    {
      var last := |queue| - 1;
      var curr := queue[last];
      assert queue == queue[..last] + [curr];
      queue := queue[..last];
      if curr !in visited {
        forall v | v in Succ(g, curr) ensures ReachedFrom(g, {start}, v) && v in Nodes(g) {
          ReachedStep(g, {start}, curr, v);
          assert curr in g && v in g[curr];
        }
        visited := visited + {curr};
        var next := ListOf(Succ(g, curr));
        queue := queue + next;
      }
    }
    FoundAll(g, {start}, visited);
    assert forall x :: ReachedFrom(g, {start}, x) <==> Reaches(g, start, x);
  }

  /** The inner loop: queue and mark what is not marked yet. */
  method PushNew(next: set<string>, visited: set<string>, queue: seq<string>) returns (v: set<string>, q: seq<string>)
    ensures v == visited + next
    ensures forall x :: x in q <==> x in queue || x in next - visited
    ensures v == visited ==> q == queue
  {
    v, q := visited, queue;
    var todo := next;
    while todo != {}
      invariant todo <= next && v == visited + (next - todo)
      invariant forall x :: x in q <==> x in queue || x in (next - todo) - visited
      invariant v == visited ==> q == queue
      decreases todo
    {
      var x :| x in todo;
      todo := todo - {x};
      if x !in v {
        v := v + {x};
        q := q + [x];
      }
    }
  }

  /** Marked nodes are reachable, and all but those queued are expanded. */
  ghost predicate Marked(g: Adj, seeds: set<string>, visited: set<string>, queue: seq<string>) {
    && seeds <= visited
    && (forall x {:trigger ReachedFrom(g, seeds, x)} :: x in visited ==> ReachedFrom(g, seeds, x))
    && (forall x :: x in queue ==> x in visited)
    && (forall u, v {:trigger v in Succ(g, u)} :: u in visited && u !in queue && v in Succ(g, u) ==> v in visited)
  }

  lemma MarkedStep(g: Adj, seeds: set<string>, visited: set<string>, queue: seq<string>, curr: string,
                   visited': set<string>, queue': seq<string>)
    requires Marked(g, seeds, visited, queue + [curr])
    requires visited' == visited + Succ(g, curr)
    requires forall x :: x in queue' <==> x in queue || x in Succ(g, curr) - visited
    ensures Marked(g, seeds, visited', queue')
  {
    assert curr in queue + [curr];
    assert forall x :: x in queue + [curr] <==> x in queue || x == curr;
    assert ReachedFrom(g, seeds, curr);
    forall x | x in visited' ensures ReachedFrom(g, seeds, x) {
      if x !in visited {
        ReachedStep(g, seeds, curr, x);
      }
    }
  }

  /** Mark on push: a node is queued at most once. */
  method ReverseReach(g: Adj, seeds: set<string>) returns (visited: set<string>)
    ensures forall x :: x in visited <==> ReachedFrom(g, seeds, x)
  {
    visited := seeds;
    var queue := ListOf(seeds);
    forall x | x in seeds ensures ReachedFrom(g, seeds, x) {
      ReachesSelf(g, x);
    }
    while queue != []
      invariant Marked(g, seeds, visited, queue)
      invariant visited <= Nodes(g) + seeds
      decreases Nodes(g) + seeds - visited, |queue|
    {
      var last := |queue| - 1;
      var curr, rest := queue[last], queue[..last];
      assert queue == rest + [curr];
      ghost var before := visited;
      assert Succ(g, curr) <= Nodes(g);
      visited, queue := PushNew(Succ(g, curr), visited, rest);
      MarkedStep(g, seeds, before, rest, curr, visited, queue);
    }
    FoundAll(g, seeds, visited);
  }

  // ---- the two closures ----

  /** Compiling `u`'s tests compiles `x`: along normal and build edges from
      `u`, or from a direct dev-dependency of `u`. */
  ghost predicate Compiles(m: Metadata, u: string, x: string) {
    Reaches(NormalEdges(m), u, x) || exists d :: d in Succ(DevEdges(m), u) && Reaches(NormalEdges(m), d, x)
  }

  ghost predicate Hits(m: Metadata, seeds: set<string>, u: string) {
    exists x :: x in SeedIds(m, seeds) && Compiles(m, u, x)
  }

  ghost function CompileNames(m: Metadata, seeds: set<string>): set<string> {
    set u | u in m.members && u in m.names && Hits(m, seeds, u) :: m.names[u]
  }

  ghost function ReverseNames(m: Metadata, seeds: set<string>): set<string> {
    set u | u in m.members && u in m.names && ReachedFrom(Dependents(m), SeedIds(m, seeds), u) :: m.names[u]
  }

  // ---- the same, told on the recorded dependencies ----

  /** A dependency that is compiled: of kind normal or build, or dev as well when
      it is the first of its chain. */
  predicate CompiledAs(d: Dep, first: bool) {
    Normal in d.kinds || Build in d.kinds || (first && Dev in d.kinds)
  }

  /** `p` lists recorded dependencies that lead from `u` to `x`. */
  ghost predicate DepChain(m: Metadata, u: string, p: seq<Dep>, x: string, first: bool)
    decreases |p|
  {
    if p == [] then u == x
    else u in m.nodes && p[0] in m.nodes[u] && CompiledAs(p[0], first) && DepChain(m, p[0].pkg, p[1..], x, false)
  }

  /** The same through members, whatever the kinds. */
  ghost predicate MemberChain(m: Metadata, u: string, p: seq<Dep>, x: string)
    decreases |p|
  {
    if p == [] then u == x
    else
      && u in m.members && u in m.nodes && p[0] in m.nodes[u] && p[0].pkg in m.members
      && MemberChain(m, p[0].pkg, p[1..], x)
  }

  ghost predicate Chained(m: Metadata, u: string, x: string) {
    exists p :: DepChain(m, u, p, x, true)
  }

  ghost predicate MemberChained(m: Metadata, u: string, x: string) {
    exists p :: MemberChain(m, u, p, x)
  }

  lemma {:induction false} NormalPathIsChain(m: Metadata, u: string, q: seq<string>, x: string) returns (p: seq<Dep>)
    requires IsPath(NormalEdges(m), u, q, x)
    ensures DepChain(m, u, p, x, false)
    decreases |q|
  {
    if q == [] {
      p := [];
    } else {
      var d :| d in m.nodes[u] && (Normal in d.kinds || Build in d.kinds) && d.pkg == q[0];
      var rest := NormalPathIsChain(m, q[0], q[1..], x);
      p := [d] + rest;
      assert p[1..] == rest;
    }
  }

  lemma {:induction false} ChainIsNormalPath(m: Metadata, u: string, p: seq<Dep>, x: string)
    requires DepChain(m, u, p, x, false)
    ensures Reaches(NormalEdges(m), u, x)
    decreases |p|
  {
    if p == [] {
      ReachesSelf(NormalEdges(m), u);
    } else {
      ChainIsNormalPath(m, p[0].pkg, p[1..], x);
      ReachesEdge(NormalEdges(m), u, p[0].pkg);
      ReachesTrans(NormalEdges(m), u, p[0].pkg, x);
    }
  }

  lemma FirstLinkCounts(m: Metadata, u: string, p: seq<Dep>, x: string)
    requires DepChain(m, u, p, x, false)
    ensures DepChain(m, u, p, x, true)
  {
  }

  /** Compiling `u`'s tests compiles `x` exactly when recorded dependencies lead
      there: the first of any kind but other, the later ones normal or build. */
  lemma CompilesIff(m: Metadata, u: string, x: string)
    ensures Compiles(m, u, x) <==> Chained(m, u, x)
  {
    if Reaches(NormalEdges(m), u, x) {
      var q :| IsPath(NormalEdges(m), u, q, x);
      var p := NormalPathIsChain(m, u, q, x);
      FirstLinkCounts(m, u, p, x);
    } else if Compiles(m, u, x) {
      var v :| v in Succ(DevEdges(m), u) && Reaches(NormalEdges(m), v, x);
      var d :| d in m.nodes[u] && Dev in d.kinds && d.pkg == v;
      var q :| IsPath(NormalEdges(m), v, q, x);
      var rest := NormalPathIsChain(m, v, q, x);
      assert ([d] + rest)[1..] == rest;
      assert DepChain(m, u, [d] + rest, x, true);
    }
    if p :| DepChain(m, u, p, x, true) {
      ChainCompiles(m, u, p, x);
    }
  }

  lemma ChainCompiles(m: Metadata, u: string, p: seq<Dep>, x: string)
    requires DepChain(m, u, p, x, true)
    ensures Compiles(m, u, x)
  {
    if p == [] {
      ReachesSelf(NormalEdges(m), u);
    } else {
      ChainIsNormalPath(m, p[0].pkg, p[1..], x);
      if Dev in p[0].kinds {
        assert p[0].pkg in Succ(DevEdges(m), u);
      } else {
        ReachesEdge(NormalEdges(m), u, p[0].pkg);
        ReachesTrans(NormalEdges(m), u, p[0].pkg, x);
      }
    }
  }

  ghost predicate SeedNamed(m: Metadata, seeds: set<string>, x: string) {
    x in m.names && m.names[x] in seeds
  }

  /** A member is named by the compile closure exactly when a chain of recorded
      dependencies leads from it to a package with a seed's name. */
  lemma CompileNamesIff(m: Metadata, seeds: set<string>, n: string)
    ensures n in CompileNames(m, seeds) <==>
            exists u, x ::
              u in m.members && u in m.names && m.names[u] == n && SeedNamed(m, seeds, x) && Chained(m, u, x)
  {
    forall u, x
      ensures Compiles(m, u, x) <==> Chained(m, u, x)
    {
      CompilesIff(m, u, x);
    }
    if n in CompileNames(m, seeds) {
      var u :| u in m.members && u in m.names && Hits(m, seeds, u) && m.names[u] == n;
      var x :| x in SeedIds(m, seeds) && Compiles(m, u, x);
      assert SeedNamed(m, seeds, x) && Chained(m, u, x);
    }
    if u, x :| u in m.members && u in m.names && m.names[u] == n && SeedNamed(m, seeds, x) && Chained(m, u, x) {
      assert x in SeedIds(m, seeds) && Compiles(m, u, x);
      assert Hits(m, seeds, u);
    }
  }

  lemma {:induction false} MemberChainAppend(m: Metadata, u: string, p: seq<Dep>, v: string, d: Dep)
    requires MemberChain(m, u, p, v) && v in m.members && v in m.nodes && d in m.nodes[v] && d.pkg in m.members
    ensures MemberChain(m, u, p + [d], d.pkg)
    decreases |p|
  {
    if p == [] {
      assert ([d])[1..] == [];
      assert p + [d] == [d];
    } else {
      MemberChainAppend(m, p[0].pkg, p[1..], v, d);
      assert (p + [d])[0] == p[0] && (p + [d])[1..] == p[1..] + [d];
    }
  }

  lemma {:induction false} ReverseIsChain(m: Metadata, x: string, q: seq<string>, u: string) returns (p: seq<Dep>)
    requires IsPath(Dependents(m), x, q, u)
    ensures MemberChain(m, u, p, x)
    decreases |q|
  {
    if q == [] {
      p := [];
    } else {
      var rest := ReverseIsChain(m, q[0], q[1..], u);
      var d :| d in m.nodes[q[0]] && d.pkg == x;
      MemberChainAppend(m, u, rest, q[0], d);
      p := rest + [d];
    }
  }

  lemma {:induction false} ChainIsReverse(m: Metadata, u: string, p: seq<Dep>, x: string)
    requires MemberChain(m, u, p, x)
    ensures Reaches(Dependents(m), x, u)
    decreases |p|
  {
    if p == [] {
      ReachesSelf(Dependents(m), u);
    } else {
      ChainIsReverse(m, p[0].pkg, p[1..], x);
      assert u in Succ(Dependents(m), p[0].pkg);
      ReachesEdge(Dependents(m), p[0].pkg, u);
      ReachesTrans(Dependents(m), x, p[0].pkg, u);
    }
  }

  /** A member is named by the reverse closure exactly when a chain of recorded
      dependencies, of any kinds but through members only, leads from it to a
      package with a seed's name. */
  lemma ReverseNamesIff(m: Metadata, seeds: set<string>, n: string)
    ensures n in ReverseNames(m, seeds) <==>
            exists u, x ::
              u in m.members && u in m.names && m.names[u] == n && SeedNamed(m, seeds, x) && MemberChained(m, u, x)
  {
    if n in ReverseNames(m, seeds) {
      var u :| u in m.members && u in m.names && ReachedFrom(Dependents(m), SeedIds(m, seeds), u) && m.names[u] == n;
      var x :| x in SeedIds(m, seeds) && Reaches(Dependents(m), x, u);
      var q :| IsPath(Dependents(m), x, q, u);
      var p := ReverseIsChain(m, x, q, u);
      assert SeedNamed(m, seeds, x) && MemberChained(m, u, x);
    }
    if u, x :| u in m.members && u in m.names && m.names[u] == n && SeedNamed(m, seeds, x) && MemberChained(m, u, x) {
      var p :| MemberChain(m, u, p, x);
      ChainIsReverse(m, u, p, x);
      assert x in SeedIds(m, seeds);
      assert ReachedFrom(Dependents(m), SeedIds(m, seeds), u);
    }
  }

  /** Everything compiled for `u`'s tests. */
  method Compiled(normal: Adj, dev: Adj, u: string) returns (compiled: set<string>)
    ensures forall x :: x in compiled <==>
              Reaches(normal, u, x) || exists d :: d in Succ(dev, u) && Reaches(normal, d, x)
  {
    compiled := NormalClosure(normal, u);
    var todo := Succ(dev, u);
    while todo != {}
      invariant todo <= Succ(dev, u)
      invariant forall x :: x in compiled <==>
                  Reaches(normal, u, x) || exists d :: d in Succ(dev, u) - todo && Reaches(normal, d, x)
      decreases todo
    {
      var d :| d in todo;
      todo := todo - {d};
      var more := NormalClosure(normal, d);
      compiled := compiled + more;
    }
  }

  /** Succeeds unless a member that compiles a seed has no package record, and
      then names exactly the members whose test compilation reaches a seed. */
  method CompileClosure(m: Metadata, seeds: set<string>) returns (r: Result<set<string>>)
    ensures r.Ok? <==> forall u :: u in m.members && Hits(m, seeds, u) ==> u in m.names
    ensures r.Ok? ==> r.value == CompileNames(m, seeds)
  {
    var normal, dev, seedIds := NormalEdges(m), DevEdges(m), SeedIds(m, seeds);
    var result: set<string> := {};
    var todo := m.members;
    while todo != {}
      invariant todo <= m.members
      invariant forall u :: u in m.members - todo && Hits(m, seeds, u) ==> u in m.names
      invariant result == set u | u in m.members - todo && u in m.names && Hits(m, seeds, u) :: m.names[u]
      decreases todo
    {
      var u :| u in todo;
      todo := todo - {u};
      var compiled := Compiled(normal, dev, u);
      assert forall x :: x in compiled <==> Compiles(m, u, x);
      if compiled * seedIds != {} {
        assert Hits(m, seeds, u) by {
          var x :| x in compiled * seedIds;
        }
        if u !in m.names {
          return Err;
        }
        result := result + {m.names[u]};
      } else {
        assert forall x :: x in seedIds ==> x !in compiled * seedIds;
        assert !Hits(m, seeds, u);
      }
    }
    r := Ok(result);
  }

  method ReverseClosure(m: Metadata, seeds: set<string>) returns (r: set<string>)
    ensures r == ReverseNames(m, seeds)
  {
    var visited := ReverseReach(Dependents(m), SeedIds(m, seeds));
    r := set u | u in visited && u in m.members && u in m.names :: m.names[u];
  }

  // ---- inclusion ----

  /** A normal or build path from `x` to `z` that meets no member before `z`. */
  ghost predicate Outside(m: Metadata, x: string, p: seq<string>, z: string)
    decreases |p|
  {
    if p == [] then x == z
    else x !in m.members && p[0] in Succ(NormalEdges(m), x) && Outside(m, p[0], p[1..], z)
  }

  ghost predicate ReachesOutside(m: Metadata, x: string, z: string) {
    exists p :: Outside(m, x, p, z)
  }

  ghost predicate FirstStep(m: Metadata, u: string, x: string) {
    x in Succ(NormalEdges(m), u) || x in Succ(DevEdges(m), u)
  }

  /** A dependency chain leaves the workspace at `u`, by an edge of any kind, and
      runs outside it to `z`, which may be a member again. */
  ghost predicate Leaves(m: Metadata, u: string, z: string) {
    exists x :: x !in m.members && FirstStep(m, u, x) && ReachesOutside(m, x, z)
  }

  lemma {:induction false} OutsideIsPath(m: Metadata, x: string, p: seq<string>, z: string)
    requires Outside(m, x, p, z)
    ensures IsPath(NormalEdges(m), x, p, z)
    decreases |p|
  {
    if p == [] {
    } else {
      OutsideIsPath(m, p[0], p[1..], z);
    }
  }

  lemma OutsideStep(m: Metadata, x: string, w: string, z: string)
    requires x !in m.members && w in Succ(NormalEdges(m), x) && ReachesOutside(m, w, z)
    ensures ReachesOutside(m, x, z)
  {
    var p :| Outside(m, w, p, z);
    assert ([w] + p)[1..] == p;
    assert Outside(m, x, [w] + p, z);
  }

  lemma LeavesCompiles(m: Metadata, u: string, z: string)
    requires Leaves(m, u, z)
    ensures Compiles(m, u, z)
  {
    var x :| x !in m.members && FirstStep(m, u, x) && ReachesOutside(m, x, z);
    var p :| Outside(m, x, p, z);
    OutsideIsPath(m, x, p, z);
    assert Reaches(NormalEdges(m), x, z);
    if x in Succ(NormalEdges(m), u) {
      ReachesEdge(NormalEdges(m), u, x);
      ReachesTrans(NormalEdges(m), u, x, z);
    }
  }

  lemma EdgeReversed(m: Metadata, u: string, v: string)
    requires u in m.members && v in m.members && FirstStep(m, u, v)
    ensures Reaches(Dependents(m), v, u)
  {
    assert u in Succ(Dependents(m), v);
    ReachesEdge(Dependents(m), v, u);
  }

  /** Every chain that leaves the workspace and ends in a member is matched by
      members that depend on each other. */
  ghost predicate ReturnsMatched(m: Metadata) {
    forall u, v :: u in m.members && v in m.members && Leaves(m, u, v) ==> Reaches(Dependents(m), v, u)
  }

  /** Every chain that leaves the workspace and ends in `x` is matched from `y`. */
  ghost predicate EndMatched(m: Metadata, x: string, y: string) {
    forall u :: u in m.members && Leaves(m, u, x) ==> Reaches(Dependents(m), y, u)
  }

  /** Where a path to `x` stands: a member is a dependent of `y`; a package
      outside runs on outside to `x` or to a member that is. */
  ghost predicate Stands(m: Metadata, a: string, x: string, y: string) {
    if a in m.members then Reaches(Dependents(m), y, a)
    else
      || ReachesOutside(m, a, x)
      || exists v :: v in m.members && ReachesOutside(m, a, v) && Reaches(Dependents(m), y, v)
  }

  lemma MemberLeaves(m: Metadata, u: string, w: string, x: string, y: string)
    requires ReturnsMatched(m) && EndMatched(m, x, y)
    requires u in m.members && w !in m.members && FirstStep(m, u, w) && Stands(m, w, x, y)
    ensures Stands(m, u, x, y)
  {
    if ReachesOutside(m, w, x) {
      assert Leaves(m, u, x);
    } else {
      var v :| v in m.members && ReachesOutside(m, w, v) && Reaches(Dependents(m), y, v);
      assert Leaves(m, u, v);
      ReachesTrans(Dependents(m), y, v, u);
    }
  }

  lemma StepStands(m: Metadata, u: string, w: string, x: string, y: string)
    requires ReturnsMatched(m) && EndMatched(m, x, y) && Stands(m, w, x, y)
    requires w in Succ(NormalEdges(m), u) || (u in m.members && FirstStep(m, u, w))
    ensures Stands(m, u, x, y)
  {
    if u in m.members && w in m.members {
      EdgeReversed(m, u, w);
      ReachesTrans(Dependents(m), y, w, u);
    } else if u in m.members {
      MemberLeaves(m, u, w, x, y);
    } else if w in m.members {
      assert Outside(m, w, [], w);
      OutsideStep(m, u, w, w);
    } else if ReachesOutside(m, w, x) {
      OutsideStep(m, u, w, x);
    } else {
      var v :| v in m.members && ReachesOutside(m, w, v) && Reaches(Dependents(m), y, v);
      OutsideStep(m, u, w, v);
    }
  }

  lemma {:induction false} PathStands(m: Metadata, a: string, p: seq<string>, x: string, y: string)
    requires ReturnsMatched(m) && EndMatched(m, x, y) && (x in m.members ==> x == y)
    requires IsPath(NormalEdges(m), a, p, x)
    ensures Stands(m, a, x, y)
    decreases |p|
  {
    if p == [] {
      ReachesSelf(Dependents(m), y);
      assert Outside(m, a, [], x);
    } else {
      PathStands(m, p[0], p[1..], x, y);
      StepStands(m, a, p[0], x, y);
    }
  }

  lemma CompiledIsDependent(m: Metadata, u: string, x: string, y: string)
    requires ReturnsMatched(m) && EndMatched(m, x, y) && (x in m.members ==> x == y)
    requires u in m.members && Compiles(m, u, x)
    ensures Reaches(Dependents(m), y, u)
  {
    if Reaches(NormalEdges(m), u, x) {
      var p :| IsPath(NormalEdges(m), u, p, x);
      PathStands(m, u, p, x, y);
    } else {
      var d :| d in Succ(DevEdges(m), u) && Reaches(NormalEdges(m), d, x);
      var p :| IsPath(NormalEdges(m), d, p, x);
      PathStands(m, d, p, x, y);
      StepStands(m, u, d, x, y);
    }
  }

  /** Member by member: whatever compiles a member depends on it through members
      exactly when all chains that leave the workspace and return are matched. */
  lemma MembersIncludedIff(m: Metadata)
    ensures (forall u, s :: u in m.members && s in m.members && Compiles(m, u, s) ==> Reaches(Dependents(m), s, u))
            <==> ReturnsMatched(m)
  {
    if ReturnsMatched(m) {
      forall u, s | u in m.members && s in m.members && Compiles(m, u, s)
        ensures Reaches(Dependents(m), s, u)
      {
        CompiledIsDependent(m, u, s, s);
      }
    } else {
      var u, v :| u in m.members && v in m.members && Leaves(m, u, v) && !Reaches(Dependents(m), v, u);
      LeavesCompiles(m, u, v);
    }
  }

  // ---- inclusion by name ----

  function MemberNames(m: Metadata): set<string> {
    set u | u in m.members && u in m.names :: m.names[u]
  }

  /** What cargo guarantees of a workspace: members have records, and no two of
      them share a name. */
  ghost predicate ProperMembers(m: Metadata) {
    && m.members <= m.names.Keys
    && forall u, v :: u in m.members && v in m.members && m.names[u] == m.names[v] ==> u == v
  }

  /** `x` carries the name of the member `y`, which may be `x` itself. */
  predicate NamedLike(m: Metadata, x: string, y: string) {
    x in m.names && y in m.members && y in m.names && m.names[x] == m.names[y]
  }

  /** Every chain that leaves the workspace and ends in a member, or in a package
      with a member's name, is matched from that member. */
  ghost predicate NamesMatched(m: Metadata) {
    forall x, y :: NamedLike(m, x, y) ==> EndMatched(m, x, y)
  }

  ghost predicate Included(m: Metadata, seeds: set<string>) {
    CompileNames(m, seeds) <= ReverseNames(m, seeds)
  }

  /** Nothing but a member depends on anything in this graph. */
  lemma OutsideReachesSelf(m: Metadata, x: string, u: string)
    requires x !in m.members && Reaches(Dependents(m), x, u)
    ensures u == x
  {
    if u != x {
      var w := FirstEdge(Dependents(m), x, u);
    }
  }

  lemma NamesMatchedIncludes(m: Metadata, seeds: set<string>)
    requires ProperMembers(m) && NamesMatched(m) && seeds <= MemberNames(m)
    ensures Included(m, seeds)
  {
    forall n | n in CompileNames(m, seeds)
      ensures n in ReverseNames(m, seeds)
    {
      var u :| u in m.members && u in m.names && Hits(m, seeds, u) && m.names[u] == n;
      var x :| x in SeedIds(m, seeds) && Compiles(m, u, x);
      var y :| y in m.members && y in m.names && m.names[y] == m.names[x];
      assert NamedLike(m, x, y);
      assert ReturnsMatched(m) by {
        forall w, v | w in m.members && v in m.members && Leaves(m, w, v)
          ensures Reaches(Dependents(m), v, w)
        {
          assert NamedLike(m, v, v);
        }
      }
      CompiledIsDependent(m, u, x, y);
      assert y in SeedIds(m, seeds);
    }
  }

  lemma IncludedMatches(m: Metadata, u: string, x: string, y: string)
    requires ProperMembers(m) && NamedLike(m, x, y) && Included(m, {m.names[y]})
    requires u in m.members && Leaves(m, u, x)
    ensures Reaches(Dependents(m), y, u)
  {
    var seeds := {m.names[y]};
    LeavesCompiles(m, u, x);
    assert x in SeedIds(m, seeds);
    assert Hits(m, seeds, u);
    assert m.names[u] in CompileNames(m, seeds);
    var u' :| u' in m.members && ReachedFrom(Dependents(m), SeedIds(m, seeds), u') && m.names[u'] == m.names[u];
    var y' :| y' in SeedIds(m, seeds) && Reaches(Dependents(m), y', u);
    if y' !in m.members {
      OutsideReachesSelf(m, y', u);
    }
  }

  /** The compile closure is inside the reverse closure, for all seeds that name
      members, exactly when every chain that leaves the workspace and ends in a
      member or under a member's name is matched by dependent members. */
  lemma IncludedIff(m: Metadata)
    requires ProperMembers(m)
    ensures (forall seeds :: seeds <= MemberNames(m) ==> Included(m, seeds)) <==> NamesMatched(m)
  {
    if NamesMatched(m) {
      forall seeds | seeds <= MemberNames(m)
        ensures Included(m, seeds)
      {
        NamesMatchedIncludes(m, seeds);
      }
    }
    if forall seeds :: seeds <= MemberNames(m) ==> Included(m, seeds) {
      forall x, y, u | NamedLike(m, x, y) && u in m.members && Leaves(m, u, x)
        ensures Reaches(Dependents(m), y, u)
      {
        assert {m.names[y]} <= MemberNames(m);
        IncludedMatches(m, u, x, y);
      }
    }
  }

  /** Nothing outside the workspace depends on a member. */
  ghost predicate OnlyMembersDependOnMembers(m: Metadata) {
    forall u, d :: u in m.nodes && d in m.nodes[u] && d.pkg in m.members ==> u in m.members
  }

  lemma {:induction false} NoReturn(m: Metadata, x: string, p: seq<string>, z: string)
    requires OnlyMembersDependOnMembers(m) && x !in m.members && Outside(m, x, p, z)
    ensures z !in m.members
    decreases |p|
  {
    if p == [] {
    } else {
      assert p[0] !in m.members;
      NoReturn(m, p[0], p[1..], z);
    }
  }

  /** In the ordinary workspace, where only members depend on members and every
      package with a seed's name is a member, the inclusion holds. */
  lemma CompileInsideReverse(m: Metadata, seeds: set<string>)
    requires OnlyMembersDependOnMembers(m) && SeedIds(m, seeds) <= m.members
    ensures Included(m, seeds)
  {
    forall u, v | u in m.members && v in m.members
      ensures !Leaves(m, u, v)
    {
      forall x, p | x !in m.members && Outside(m, x, p, v)
        ensures false
      {
        NoReturn(m, x, p, v);
      }
    }
    forall n | n in CompileNames(m, seeds)
      ensures n in ReverseNames(m, seeds)
    {
      var u :| u in m.members && u in m.names && Hits(m, seeds, u) && m.names[u] == n;
      var x :| x in SeedIds(m, seeds) && Compiles(m, u, x);
      CompiledIsDependent(m, u, x, x);
    }
  }

  /** A package outside the workspace that sits between two members. */
  const DETOUR := Metadata({"app", "core"},
                           map["app" := "app", "core" := "core", "shim" := "shim"],
                           map["app" := [Dep("shim", {Normal})], "shim" := [Dep("core", {Normal})], "core" := []])

  lemma OnlyItself(m: Metadata, s: string, u: string)
    requires Succ(Dependents(m), s) == {} && u != s
    ensures !ReachedFrom(Dependents(m), {s}, u)
  {
    if ReachedFrom(Dependents(m), {s}, u) {
      var w := FirstEdge(Dependents(m), s, u);
    }
  }

  lemma Escapes(m: Metadata, seeds: set<string>, u: string, x: string)
    requires ProperMembers(m) && u in m.members && x in SeedIds(m, seeds) && Compiles(m, u, x)
    requires !ReachedFrom(Dependents(m), SeedIds(m, seeds), u)
    ensures !Included(m, seeds)
  {
    assert Hits(m, seeds, u);
    assert m.names[u] in CompileNames(m, seeds);
  }

  /** The chain app, shim, core is not matched, and the inclusion fails. */
  lemma DetourEscapes()
    ensures ProperMembers(DETOUR) && SeedIds(DETOUR, {"core"}) <= DETOUR.members && !Included(DETOUR, {"core"})
  {
    var m := DETOUR;
    assert SeedIds(m, {"core"}) == {"core"};
    assert Dep("shim", {Normal}) in m.nodes["app"] && Dep("core", {Normal}) in m.nodes["shim"];
    ReachesEdge(NormalEdges(m), "app", "shim");
    ReachesEdge(NormalEdges(m), "shim", "core");
    ReachesTrans(NormalEdges(m), "app", "shim", "core");
    OnlyItself(m, "core", "app");
    Escapes(m, {"core"}, "app", "core");
  }

  /** A package outside the workspace with a member's name. */
  const TWIN := Metadata({"app", "core"},
                         map["app" := "app", "core" := "core", "core 0.1" := "core"],
                         map["app" := [Dep("core 0.1", {Normal})], "core 0.1" := [], "core" := []])

  /** Only members depend on members, but the seed's name is also carried by an
      outside package that a member compiles, and the inclusion fails. */
  lemma TwinEscapes()
    ensures ProperMembers(TWIN) && OnlyMembersDependOnMembers(TWIN) && !Included(TWIN, {"core"})
  {
    var m := TWIN;
    assert SeedIds(m, {"core"}) == {"core", "core 0.1"};
    assert Dep("core 0.1", {Normal}) in m.nodes["app"];
    ReachesEdge(NormalEdges(m), "app", "core 0.1");
    OnlyItself(m, "core", "app");
    OnlyItself(m, "core 0.1", "app");
    Escapes(m, {"core"}, "app", "core 0.1");
  }
}
