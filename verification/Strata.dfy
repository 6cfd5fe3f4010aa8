/** The crate strata table: what loading accepts, what a clean check means,
    and that no dependency cycle crosses a stratum. */
module Strata {
  import opened Digraph
  import opened Outcomes

  datatype Stratum = Stratum(name: string, mayDependOn: set<string>, packages: set<string>)

  datatype Edge = Edge(source: string, target: string)

  /** `only`: sources may depend on targets alone; otherwise never on them. */
  datatype Rule = Rule(sources: set<string>, only: bool, targets: set<string>) {
    predicate Breaks(e: Edge) {
      e.source in sources && (if only then e.target !in targets else e.target in targets)
    }
  }

  datatype Problem = Itself | Undefined | Later

  function LayeringProblem(s: Stratum, dependency: string, earlier: seq<string>,
                           defined: set<string>): Option<Problem> {
    if dependency == s.name then Some(Itself)
    else if dependency !in defined then Some(Undefined)
    else if dependency !in earlier then Some(Later)
    else None
  }

  function NamesOf(strata: seq<Stratum>): seq<string> {
    seq(|strata|, i requires 0 <= i < |strata| => strata[i].name)
  }

  /** Names are distinct and each stratum names only strata listed before it. */
  ghost predicate Layered(strata: seq<Stratum>) {
    && (forall i, j :: 0 <= i < j < |strata| ==> strata[i].name != strata[j].name)
    && (forall i, d :: 0 <= i < |strata| && d in strata[i].mayDependOn ==> d in NamesOf(strata[..i]))
  }

  method LoadStrata(entries: seq<Stratum>) returns (r: Result<seq<Stratum>>)
    ensures r.Ok? <==> Layered(entries)
    ensures r.Ok? ==> r.value == entries
  {
    var names := NamesOf(entries);
    for i := 0 to |entries|
      invariant forall a, b :: 0 <= a < b < i ==> entries[a].name != entries[b].name
    {
      if entries[i].name in names[..i] {
        ghost var a :| 0 <= a < i && names[a] == entries[i].name;
        assert entries[a].name == entries[i].name;
        return Err;
      }
      assert forall a :: 0 <= a < i ==> names[..i][a] == entries[a].name;
    }
    var defined := set x | x in names;
    for position := 0 to |entries|
      invariant forall i, d :: 0 <= i < position && d in entries[i].mayDependOn ==> d in NamesOf(entries[..i])
    {
      var s := entries[position];
      assert NamesOf(entries[..position]) == names[..position];
      var bad := set d | d in s.mayDependOn && LayeringProblem(s, d, names[..position], defined) != None;
      if bad != {} {
        ghost var d :| d in bad;
        ProblemIsNotEarlier(entries, position, d);
        return Err;
      }
      assert forall d :: d in s.mayDependOn ==> d !in bad;
    }
    r := Ok(entries);
  }

  /** The three complaints together say: not listed before. */
  lemma ProblemIsNotEarlier(entries: seq<Stratum>, i: nat, d: string)
    requires i < |entries| && forall a, b :: 0 <= a < b < |entries| ==> entries[a].name != entries[b].name
    ensures LayeringProblem(entries[i], d, NamesOf(entries)[..i], set x | x in NamesOf(entries)) == None
            <==> d in NamesOf(entries[..i])
  {
    assert NamesOf(entries[..i]) == NamesOf(entries)[..i];
    assert forall k :: 0 <= k < i ==> NamesOf(entries)[k] == entries[k].name;
    assert forall x :: x in NamesOf(entries)[..i] ==> x in NamesOf(entries);
  }

  ghost predicate Listed(strata: seq<Stratum>, i: int, p: string) {
    0 <= i < |strata| && p in strata[i].packages
  }

  /** The first `n` strata list no package twice. */
  ghost predicate Separate(strata: seq<Stratum>, n: nat) {
    forall i, j, p {:trigger Listed(strata, i, p), Listed(strata, j, p)} ::
      i < n && j < n && Listed(strata, i, p) && Listed(strata, j, p) ==> i == j
  }

  /** `stratumOf` sends every package of the first `n` strata to its stratum. */
  ghost predicate Classifies(strata: seq<Stratum>, n: nat, stratumOf: map<string, string>)
    requires n <= |strata|
  {
    && (forall p {:trigger p in stratumOf} :: p in stratumOf ==>
          exists i :: i < n && Listed(strata, i, p) && stratumOf[p] == strata[i].name)
    && (forall i, p {:trigger Listed(strata, i, p)} :: i < n && Listed(strata, i, p) ==>
          p in stratumOf && stratumOf[p] == strata[i].name)
  }

  method Classify(strata: seq<Stratum>) returns (r: Result<map<string, string>>)
    ensures r.Ok? <==> Separate(strata, |strata|)
    ensures r.Ok? ==> Classifies(strata, |strata|, r.value)
  {
    var stratumOf: map<string, string> := map[];
    for n := 0 to |strata|
      invariant Separate(strata, n) && Classifies(strata, n, stratumOf)
    {
      var s := strata[n];
      var twice := set p | p in s.packages && p in stratumOf;
      if twice != {} {
        ghost var p :| p in twice;
        ghost var j :| j < n && Listed(strata, j, p);
        assert Listed(strata, n, p);
        return Err;
      }
      assert forall p :: p in s.packages ==> p !in twice;
      ClassifyOne(strata, n, stratumOf);
      stratumOf := stratumOf + map p | p in s.packages :: s.name;
    }
    r := Ok(stratumOf);
  }

  lemma ClassifyOne(strata: seq<Stratum>, n: nat, stratumOf: map<string, string>)
    requires n < |strata| && Separate(strata, n) && Classifies(strata, n, stratumOf)
    requires forall p :: p in strata[n].packages ==> p !in stratumOf
    ensures Separate(strata, n + 1)
    ensures Classifies(strata, n + 1, stratumOf + map p | p in strata[n].packages :: strata[n].name)
  {
    var after := stratumOf + map p | p in strata[n].packages :: strata[n].name;
    forall p | p in after ensures exists i :: i < n + 1 && Listed(strata, i, p) && after[p] == strata[i].name {
      if p in strata[n].packages {
        assert Listed(strata, n, p);
      }
    }
  }

  // ---- the check ----

  datatype Table = Table(strata: seq<Stratum>, stratumOf: map<string, string>, rules: seq<Rule>, exceptions: set<Edge>)

  datatype Workspace = Workspace(packages: set<string>, edges: set<Edge>)

  /** What loading guarantees of a table. */
  ghost predicate Accepted(t: Table) {
    && Layered(t.strata) && Separate(t.strata, |t.strata|) && Classifies(t.strata, |t.strata|, t.stratumOf)
    && forall e :: e in t.exceptions ==> e.source in t.stratumOf && e.target in t.stratumOf
  }

  /** Counted edges run between workspace packages. */
  ghost predicate WellFormed(w: Workspace) {
    forall e :: e in w.edges ==> e.source in w.packages && e.target in w.packages
  }

  datatype Reason = StratumRule | CrateRule(index: nat)

  predicate StratumAllows(t: Table, e: Edge)
    requires e.source in t.stratumOf && e.target in t.stratumOf
  {
    || t.stratumOf[e.target] == t.stratumOf[e.source]
    || exists i :: 0 <= i < |t.strata| && t.strata[i].name == t.stratumOf[e.source]
                   && t.stratumOf[e.target] in t.strata[i].mayDependOn
  }

  function BrokenRules(t: Table, e: Edge): set<Reason>
    requires e.source in t.stratumOf && e.target in t.stratumOf
  {
    (if StratumAllows(t, e) then {} else {StratumRule})
    + (set i: nat | i < |t.rules| && t.rules[i].Breaks(e) :: CrateRule(i))
  }

  datatype Findings = Findings(
    unclassified: set<string>, staleStrata: set<string>, violations: set<(Edge, Reason)>, staleExceptions: set<Edge>)

  function Checked(t: Table, w: Workspace): set<Edge> {
    set e | e in w.edges && e.source in t.stratumOf && e.target in t.stratumOf
  }

  function Violating(t: Table, w: Workspace): set<Edge> {
    set e | e in Checked(t, w) && BrokenRules(t, e) != {}
  }

  function Check(t: Table, w: Workspace): Findings {
    Findings(w.packages - t.stratumOf.Keys,
             t.stratumOf.Keys - w.packages,
             set e, r | e in Checked(t, w) && e !in t.exceptions && r in BrokenRules(t, e) :: (e, r),
             t.exceptions - Violating(t, w))
  }

  const CLEAN := Findings({}, {}, {}, {})

  /** Nothing to report is exactly: every workspace package is classified and
      nothing else is, and the exceptions are the rule-breaking edges. */
  lemma CleanIff(t: Table, w: Workspace)
    requires Accepted(t) && WellFormed(w)
    ensures Check(t, w) == CLEAN <==> w.packages == t.stratumOf.Keys && t.exceptions == Violating(t, w)
  {
    var f := Check(t, w);
    if f == CLEAN {
      assert forall p :: p in w.packages ==> p !in f.unclassified;
      assert forall p :: p in t.stratumOf ==> p !in f.staleStrata;
      assert forall e :: e in t.exceptions ==> e !in f.staleExceptions;
      forall e | e in Violating(t, w) ensures e in t.exceptions {
        var r :| r in BrokenRules(t, e);
        assert (e, r) !in f.violations;
      }
    }
  }

  /** The packages that `p` depends on by edges no exception covers. */
  function Allowed(t: Table, w: Workspace, p: string): set<string> {
    set e | e in w.edges && e.source == p && e !in t.exceptions :: e.target
  }

  /** `q` sits in the stratum of `p` or in one that it may depend on. */
  ghost predicate Below(t: Table, p: string, q: string) {
    exists i, j ::
      Listed(t.strata, i, p) && Listed(t.strata, j, q) && (i == j || t.strata[j].name in t.strata[i].mayDependOn)
  }

  /** What the rule asks of one source with these dependencies. */
  predicate Obeys(r: Rule, deps: set<string>) {
    if r.only then deps <= r.targets else deps !! r.targets
  }

  lemma AllowsIff(t: Table, e: Edge)
    requires Accepted(t) && e.source in t.stratumOf && e.target in t.stratumOf
    ensures StratumAllows(t, e) <==> Below(t, e.source, e.target)
  {
    var i := LayerOf(t, e.source);
    var j := LayerOf(t, e.target);
    if StratumAllows(t, e) {
      if t.stratumOf[e.target] == t.stratumOf[e.source] {
        assert i == j;
      }
    }
    if a, b :| Listed(t.strata, a, e.source) && Listed(t.strata, b, e.target)
               && (a == b || t.strata[b].name in t.strata[a].mayDependOn) {
      assert a == i && b == j;
    }
  }

  /** What each kind of finding says: which packages, and for an edge between
      classified packages that no exception covers, which rules it is against. */
  lemma ReportedIff(t: Table, w: Workspace, p: string, e: Edge)
    requires Accepted(t) && WellFormed(w)
    ensures var f := Check(t, w);
            && (p in f.unclassified <==> p in w.packages && forall i :: !Listed(t.strata, i, p))
            && (p in f.staleStrata <==> p !in w.packages && exists i :: Listed(t.strata, i, p))
    ensures e in w.edges && e !in t.exceptions && e.source in t.stratumOf && e.target in t.stratumOf ==>
              var f := Check(t, w);
              && ((e, StratumRule) in f.violations <==> !Below(t, e.source, e.target))
              && forall i: nat ::
                   (e, CrateRule(i)) in f.violations <==>
                   i < |t.rules| && e.source in t.rules[i].sources && !Obeys(t.rules[i], {e.target})
    ensures e in t.exceptions ==>
              (e in Check(t, w).staleExceptions <==> e !in w.edges || BrokenRules(t, e) == {})
  {
    if p in t.stratumOf {
      var i := LayerOf(t, p);
    }
    if e.source in t.stratumOf && e.target in t.stratumOf {
      AllowsIff(t, e);
    }
  }

  /** After a clean check, package by package: what it depends on without an
      exception lies below it and obeys every rule it is a source of. */
  lemma CleanPackages(t: Table, w: Workspace, p: string)
    requires Accepted(t) && WellFormed(w) && Check(t, w) == CLEAN && p in w.packages
    ensures forall q :: q in Allowed(t, w, p) ==> Below(t, p, q)
    ensures forall i :: 0 <= i < |t.rules| && p in t.rules[i].sources ==> Obeys(t.rules[i], Allowed(t, w, p))
  {
    CleanIff(t, w);
    forall q | q in Allowed(t, w, p)
      ensures Below(t, p, q)
      ensures forall i :: 0 <= i < |t.rules| && p in t.rules[i].sources ==>
                if t.rules[i].only then q in t.rules[i].targets else q !in t.rules[i].targets
    {
      var e := Edge(p, q);
      assert e !in Violating(t, w) && BrokenRules(t, e) == {};
      assert StratumRule !in BrokenRules(t, e);
      AllowsIff(t, e);
      forall i: nat | i < |t.rules| && p in t.rules[i].sources
        ensures !t.rules[i].Breaks(e)
      {
        assert CrateRule(i) !in BrokenRules(t, e);
      }
    }
  }

  /** An exception that a clean check keeps is an edge that does lie wrong: not
      below its source, or against a rule. */
  lemma CleanExceptions(t: Table, w: Workspace, e: Edge)
    requires Accepted(t) && WellFormed(w) && Check(t, w) == CLEAN && e in t.exceptions
    ensures e in w.edges
    ensures || !Below(t, e.source, e.target)
            || exists i :: 0 <= i < |t.rules| && e.source in t.rules[i].sources && !Obeys(t.rules[i], {e.target})
  {
    CleanIff(t, w);
    AllowsIff(t, e);
    var r :| r in BrokenRules(t, e);
    if r.CrateRule? {
      assert t.rules[r.index].Breaks(e);
    }
  }

  /** The dependency graph without the excepted edges. */
  function Unexcepted(t: Table, w: Workspace): Adj {
    map p | p in w.packages :: set e | e in w.edges && e.source == p && e !in t.exceptions :: e.target
  }

  /** An allowed edge never leads to a later stratum. */
  lemma EdgeGoesDown(t: Table, e: Edge, i: nat, j: nat)
    requires Accepted(t) && Listed(t.strata, i, e.source) && Listed(t.strata, j, e.target)
    requires e.source in t.stratumOf && e.target in t.stratumOf && StratumAllows(t, e)
    ensures j <= i
  {
    assert t.stratumOf[e.source] == t.strata[i].name && t.stratumOf[e.target] == t.strata[j].name;
    if t.stratumOf[e.target] != t.stratumOf[e.source] {
      var k :| 0 <= k < |t.strata| && t.strata[k].name == t.stratumOf[e.source]
               && t.stratumOf[e.target] in t.strata[k].mayDependOn;
      assert k == i;
      var h :| 0 <= h < i && NamesOf(t.strata[..i])[h] == t.strata[j].name;
      assert h == j;
    }
  }

  lemma LayerOf(t: Table, p: string) returns (i: nat)
    requires Accepted(t) && p in t.stratumOf
    ensures Listed(t.strata, i, p) && t.stratumOf[p] == t.strata[i].name
  {
    i :| i < |t.strata| && Listed(t.strata, i, p) && t.stratumOf[p] == t.strata[i].name;
  }

  lemma {:induction false} PathGoesDown(t: Table, w: Workspace, u: string, p: seq<string>, v: string, i: nat, j: nat)
    requires Accepted(t) && WellFormed(w) && Check(t, w) == CLEAN
    requires Listed(t.strata, i, u) && Listed(t.strata, j, v) && IsPath(Unexcepted(t, w), u, p, v)
    ensures j <= i
    decreases |p|
  {
    if p == [] {
      assert i == j;
    } else {
      CleanIff(t, w);
      var e := Edge(u, p[0]);
      assert e in w.edges && e !in t.exceptions;
      assert e !in Violating(t, w);
      assert StratumRule !in BrokenRules(t, e);
      var k := LayerOf(t, p[0]);
      EdgeGoesDown(t, e, i, k);
      PathGoesDown(t, w, p[0], p[1..], v, k, j);
    }
  }

  /** After a clean check, packages on a common dependency cycle that uses no
      excepted edge sit in one stratum. */
  lemma CyclesStayInOneStratum(t: Table, w: Workspace, u: string, v: string)
    requires Accepted(t) && WellFormed(w) && Check(t, w) == CLEAN
    requires u in w.packages && v in w.packages && Mutual(Unexcepted(t, w), u, v)
    ensures u in t.stratumOf && v in t.stratumOf && t.stratumOf[u] == t.stratumOf[v]
  {
    CleanIff(t, w);
    var i := LayerOf(t, u);
    var j := LayerOf(t, v);
    var p :| IsPath(Unexcepted(t, w), u, p, v);
    PathGoesDown(t, w, u, p, v, i, j);
    var q :| IsPath(Unexcepted(t, w), v, q, u);
    PathGoesDown(t, w, v, q, u, j, i);
  }
}
