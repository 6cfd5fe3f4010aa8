/** Keeping the feature-union crate off the host side: the check looks at
    single dependency edges, and that is enough for whole paths. */
module HostUnion {
  import opened Digraph
  import opened Sequences

  const UNION_CRATE := "workspace-feature-union"

  datatype Section = Normal | Build | Dev

  datatype Dependency = Dependency(name: string, section: Section)

  datatype Package = Package(dependencies: set<Dependency>, procMacro: bool)

  /** The workspace packages by name, the union crate among them if it exists. */
  type Packages = map<string, Package>

  datatype Member = Member(name: string, dependencies: set<Dependency>, buildDependents: set<string>, procMacro: bool) {
    /** Compiled for the host wherever another member uses it. */
    predicate HostSide() {
      procMacro || buildDependents != {}
    }
  }

  function MemberOf(ps: Packages, name: string): Member
    requires name in ps
  {
    Member(name, ps[name].dependencies,
           (set d | d in ps && Dependency(name, Build) in ps[d].dependencies), ps[name].procMacro)
  }

  /** The members the check works on: every package but the union crate. */
  ghost predicate Lists(members: seq<Member>, ps: Packages) {
    forall m :: m in members <==> m.name in ps && m.name != UNION_CRATE && m == MemberOf(ps, m.name)
  }

  /** The names that must not appear on the host side. */
  function BringsUnion(members: seq<Member>): set<string> {
    (set m | m in members && !m.HostSide() :: m.name) + {UNION_CRATE}
  }

  predicate CompiledForHost(parent: Member, edge: Dependency) {
    !edge.section.Dev? && (parent.HostSide() || edge.section.Build?)
  }

  datatype Finding = Finding(parent: Member, edge: Dependency)

  ghost predicate Offends(members: seq<Member>, f: Finding) {
    && f.parent in members && f.edge in f.parent.dependencies
    && f.edge.name in BringsUnion(members) && CompiledForHost(f.parent, f.edge)
  }

  /** One finding per edge that brings the union or a covered member onto the
      host side. */
  method HostUnionFindings(members: seq<Member>) returns (found: seq<Finding>)
    ensures forall f :: f in found <==> Offends(members, f)
    ensures Distinct(members) ==> Distinct(found)
  {
    var brings := BringsUnion(members);
    found := [];
    for i := 0 to |members|
      invariant forall f :: f in found <==> Offends(members, f) && f.parent in members[..i]
      invariant Distinct(members) ==> Distinct(found)
    {
      var parent := members[i];
      assert Distinct(members) ==> parent !in members[..i];
      var todo := parent.dependencies;
      assert members[..i + 1] == members[..i] + [parent];
      while todo != {}
        invariant todo <= parent.dependencies && (Distinct(members) ==> Distinct(found))
        invariant forall f :: f in found <==>
                    Offends(members, f) && (f.parent in members[..i] || (f.parent == parent && f.edge !in todo))
        decreases todo
      {
        var edge :| edge in todo;
        todo := todo - {edge};
        if edge.name in brings && CompiledForHost(parent, edge) {
          found := found + [Finding(parent, edge)];
        }
      }
    }
    assert members[..|members|] == members;
  }

  // ---- what building for the host reaches ----

  /** Proc-macro members, and everything a workspace package build-depends on. */
  function HostRoots(ps: Packages): set<string> {
    (set n | n in ps && n != UNION_CRATE && ps[n].procMacro)
    + (set p, d | p in ps && d in ps[p].dependencies && d.section.Build? :: d.name)
  }

  /** Normal and build edges of members. */
  function HostEdges(ps: Packages): Adj {
    map n | n in ps && n != UNION_CRATE :: set d | d in ps[n].dependencies && !d.section.Dev? :: d.name
  }

  function Covered(ps: Packages): set<string> {
    set n | n in ps && n != UNION_CRATE && !MemberOf(ps, n).HostSide()
  }

  /** Nothing compiled for the host is the union crate or a covered member. */
  ghost predicate HostSideClean(ps: Packages) {
    forall r, t :: r in HostRoots(ps) && Reaches(HostEdges(ps), r, t) ==> t !in Covered(ps) + {UNION_CRATE}
  }

  lemma BringsAreCovered(members: seq<Member>, ps: Packages)
    requires Lists(members, ps)
    ensures BringsUnion(members) == Covered(ps) + {UNION_CRATE}
  {
    forall n | n in Covered(ps) ensures n in BringsUnion(members) {
      assert MemberOf(ps, n) in members;
    }
  }

  ghost predicate NoFinding(members: seq<Member>) {
    forall f :: !Offends(members, f)
  }

  /** A package that is neither covered nor the union leads only to such
      packages. */
  lemma EdgeStaysClean(members: seq<Member>, ps: Packages, u: string, v: string)
    requires Lists(members, ps) && NoFinding(members)
    requires u !in Covered(ps) + {UNION_CRATE} && v in Succ(HostEdges(ps), u)
    ensures v !in Covered(ps) + {UNION_CRATE}
  {
    BringsAreCovered(members, ps);
    var d :| d in ps[u].dependencies && !d.section.Dev? && d.name == v;
    assert MemberOf(ps, u) in members && MemberOf(ps, u).HostSide();
    assert !Offends(members, Finding(MemberOf(ps, u), d));
  }

  lemma {:induction false} PathStaysClean(members: seq<Member>, ps: Packages, u: string, p: seq<string>, v: string)
    requires Lists(members, ps) && NoFinding(members)
    requires u !in Covered(ps) + {UNION_CRATE} && IsPath(HostEdges(ps), u, p, v)
    ensures v !in Covered(ps) + {UNION_CRATE}
    decreases |p|
  {
    if p == [] {
    } else {
      EdgeStaysClean(members, ps, u, p[0]);
      PathStaysClean(members, ps, p[0], p[1..], v);
    }
  }

  /** The union crate build-depends on itself. Cargo rejects such a package,
      and the check does not look for it. */
  predicate SelfBuilding(ps: Packages) {
    UNION_CRATE in ps && Dependency(UNION_CRATE, Build) in ps[UNION_CRATE].dependencies
  }

  lemma RootIsClean(members: seq<Member>, ps: Packages, r: string)
    requires Lists(members, ps) && NoFinding(members) && !SelfBuilding(ps) && r in HostRoots(ps)
    ensures r !in Covered(ps) + {UNION_CRATE}
  {
    BringsAreCovered(members, ps);
    if p, d :| p in ps && d in ps[p].dependencies && d.section.Build? && d.name == r {
      assert d == Dependency(r, Build);
      if p != UNION_CRATE {
        assert MemberOf(ps, p) in members;
        assert !Offends(members, Finding(MemberOf(ps, p), d));
      } else if r in ps {
        assert p in MemberOf(ps, r).buildDependents;
      }
    }
  }

  lemma FindingIsPath(members: seq<Member>, ps: Packages, f: Finding)
    requires Lists(members, ps) && Offends(members, f)
    ensures !HostSideClean(ps)
  {
    BringsAreCovered(members, ps);
    var n, t := f.parent.name, f.edge.name;
    if f.edge.section.Build? {
      assert t in HostRoots(ps);
      ReachesSelf(HostEdges(ps), t);
    } else {
      assert n in HostRoots(ps) by {
        if !ps[n].procMacro {
          var d :| d in f.parent.buildDependents;
          assert Dependency(n, Build) in ps[d].dependencies;
        }
      }
      assert t in Succ(HostEdges(ps), n);
      ReachesEdge(HostEdges(ps), n, t);
    }
  }

  /** No finding, and no self-building union crate, is exactly: no path from a
      proc-macro or a build-dependency reaches the union or a covered member. */
  lemma NoFindingIffClean(members: seq<Member>, ps: Packages)
    requires Lists(members, ps)
    ensures NoFinding(members) && !SelfBuilding(ps) <==> HostSideClean(ps)
  {
    if NoFinding(members) && !SelfBuilding(ps) {
      forall r, t | r in HostRoots(ps) && Reaches(HostEdges(ps), r, t) ensures t !in Covered(ps) + {UNION_CRATE} {
        RootIsClean(members, ps, r);
        var p :| IsPath(HostEdges(ps), r, p, t);
        PathStaysClean(members, ps, r, p, t);
      }
    }
    if f :| Offends(members, f) {
      FindingIsPath(members, ps, f);
    }
    if SelfBuilding(ps) {
      assert UNION_CRATE in HostRoots(ps);
      ReachesSelf(HostEdges(ps), UNION_CRATE);
    }
  }

  /** The union crate alone, build-depending on itself. */
  const SELF_BUILDING: Packages := map[UNION_CRATE := Package({Dependency(UNION_CRATE, Build)}, false)]

  /** It has no members, so nothing is found, and the union is on the host side. */
  lemma SelfBuildingEscapes()
    ensures Lists([], SELF_BUILDING) && NoFinding([]) && !HostSideClean(SELF_BUILDING)
  {
    assert Dependency(UNION_CRATE, Build) in SELF_BUILDING[UNION_CRATE].dependencies;
    NoFindingIffClean([], SELF_BUILDING);
  }
}
