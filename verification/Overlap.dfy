/** The crate-graph overlap detector: footprints of changesets, and why two
    changesets that touch the same file always overlap. */
module Overlap {
  import opened Outcomes
  import opened Closures
  import Digraph

  /** What path attribution says of one path. */
  datatype Facts = Facts(isGlobal: bool, seeds: set<string>, unioned: set<string>)

  /** A footprint member; `Everything` is the fail-wide sentinel. */
  datatype Mark = Crate(name: string) | File(path: string) | Everything

  /** Marks of a seed set's reverse closure. No metadata, or a seed that the
      closure does not return, fails wide. */
  ghost function ClosureMarks(metadata: Option<Metadata>, seeds: set<string>): set<Mark> {
    match metadata
    case None => {Everything}
    case Some(m) =>
      (set c | c in ReverseNames(m, seeds) :: Crate(c))
      + (if seeds <= ReverseNames(m, seeds) then {} else {Everything})
  }

  function Seeds(facts: string -> Facts, paths: set<string>): set<string> {
    set p, c | p in paths && c in facts(p).seeds :: c
  }

  function Unioned(facts: string -> Facts, paths: set<string>): set<string> {
    set p, c | p in paths && c in facts(p).unioned :: c
  }

  /** The paths that no crate owns. */
  function FileMarks(facts: string -> Facts, paths: set<string>): set<Mark> {
    set p | p in paths && facts(p).seeds == {} :: File(p)
  }

  ghost function GraphMarks(facts: string -> Facts, paths: set<string>, metadata: Option<Metadata>): set<Mark> {
    if Seeds(facts, paths) == {} then {} else ClosureMarks(metadata, Seeds(facts, paths))
  }

  function UnionMarks(facts: string -> Facts, paths: set<string>): set<Mark> {
    set c | c in Unioned(facts, paths) :: Crate(c)
  }

  ghost predicate Global(facts: string -> Facts, paths: set<string>) {
    exists p :: p in paths && facts(p).isGlobal
  }

  ghost function Footprint(facts: string -> Facts, paths: set<string>, metadata: Option<Metadata>): set<Mark> {
    if Global(facts, paths) then {Everything}
    else FileMarks(facts, paths) + GraphMarks(facts, paths, metadata) + UnionMarks(facts, paths)
  }

  /** Whether a footprint consults the crate graph at all. */
  ghost predicate NeedsGraph(facts: string -> Facts, paths: set<string>) {
    Seeds(facts, paths) != {} && !Global(facts, paths)
  }

  predicate Overlaps(a: set<Mark>, b: set<Mark>) {
    a != {} && b != {} && (Everything in a || Everything in b || a * b != {})
  }

  class Detector {
    const facts: string -> Facts
    /** The metadata of the first successful load, kept for good. */
    var cache: Option<Metadata>

    constructor (facts: string -> Facts)
      ensures this.facts == facts && cache == None
    {
      this.facts := facts;
      cache := None;
    }

    /** `loaded` is what the loader returns if it is asked now; None stands for
        a loader that raises. A failed load is retried on the next call. */
    method ClosureMembers(seeds: set<string>, loaded: Option<Metadata>) returns (marks: set<Mark>)
      modifies this`cache
      ensures cache == if old(cache).Some? then old(cache) else loaded
      ensures marks == ClosureMarks(cache, seeds)
    {
      if cache.None? {
        cache := loaded;
      }
      if cache.None? {
        return {Everything};
      }
      var closure := ReverseClosure(cache.value, seeds);
      marks := set c | c in closure :: Crate(c);
      assert forall x :: x in seeds ==> x in closure || x in seeds - closure;
      if seeds - closure != {} {
        marks := marks + {Everything};
      }
    }

    method FootprintOf(paths: seq<string>, loaded: Option<Metadata>) returns (marks: set<Mark>)
      modifies this`cache
      ensures cache == if old(cache).None? && NeedsGraph(facts, set p | p in paths) then loaded else old(cache)
      ensures marks == Footprint(facts, set p | p in paths, if old(cache).Some? then old(cache) else loaded)
    {
      if exists p :: p in paths && facts(p).isGlobal {
        return {Everything};
      }
      marks := {};
      var seeds, unioned: set<string> := {}, {};
      for i := 0 to |paths|
        invariant marks == set p | p in paths[..i] && facts(p).seeds == {} :: File(p)
        invariant seeds == Seeds(facts, set p | p in paths[..i])
        invariant unioned == Unioned(facts, set p | p in paths[..i])
      {
        var fact := facts(paths[i]);
        assert paths[..i + 1] == paths[..i] + [paths[i]];
        if fact.seeds != {} {
          seeds := seeds + fact.seeds;
        } else {
          marks := marks + {File(paths[i])};
        }
        unioned := unioned + fact.unioned;
      }
      assert paths[..|paths|] == paths;
      if seeds != {} {
        var closure := ClosureMembers(seeds, loaded);
        marks := marks + closure;
      }
      marks := marks + set c | c in unioned :: Crate(c);
    }
  }

  // ---- what the detector guarantees ----

  /** A path leaves a mark that any other footprint with the same path meets. */
  lemma PathMarked(facts: string -> Facts, paths: set<string>, metadata: Option<Metadata>, p: string)
    requires p in paths
    ensures var f := Footprint(facts, paths, metadata);
            || Everything in f
            || (facts(p).seeds == {} && File(p) in f)
            || (facts(p).seeds != {} && forall c :: c in facts(p).seeds ==> Crate(c) in f)
  {
    var seeds := Seeds(facts, paths);
    forall c | c in facts(p).seeds ensures c in seeds {
    }
    if metadata.Some? && seeds <= ReverseNames(metadata.value, seeds) {
      forall c | c in facts(p).seeds ensures Crate(c) in ClosureMarks(metadata, seeds) {
        assert c in ReverseNames(metadata.value, seeds);
      }
    }
  }

  /** Two changesets that share a path overlap, whatever the crate graph and
      whatever either call gets from the loader. */
  lemma SharedPathOverlaps(facts: string -> Facts, a: set<string>, b: set<string>,
                           forA: Option<Metadata>, forB: Option<Metadata>, p: string)
    requires p in a && p in b
    ensures Overlaps(Footprint(facts, a, forA), Footprint(facts, b, forB))
  {
    PathMarked(facts, a, forA, p);
    PathMarked(facts, b, forB, p);
    var f, g := Footprint(facts, a, forA), Footprint(facts, b, forB);
    if Everything !in f && Everything !in g {
      if facts(p).seeds == {} {
        assert File(p) in f * g;
      } else {
        var c :| c in facts(p).seeds;
        assert Crate(c) in f * g;
      }
    }
  }

  /** The default detector: one mark per changed path. */
  function DefaultFootprint(paths: set<string>): set<Mark> {
    set p | p in paths :: File(p)
  }

  /** The maintained contract: whatever the default detector calls an overlap,
      this one does too. */
  lemma RefinesDefault(facts: string -> Facts, a: set<string>, b: set<string>,
                       forA: Option<Metadata>, forB: Option<Metadata>)
    requires Overlaps(DefaultFootprint(a), DefaultFootprint(b))
    ensures Overlaps(Footprint(facts, a, forA), Footprint(facts, b, forB))
  {
    var m :| m in DefaultFootprint(a) * DefaultFootprint(b);
    SharedPathOverlaps(facts, a, b, forA, forB, m.path);
  }

  lemma ReverseNamesGrow(m: Metadata, s: set<string>, t: set<string>)
    requires s <= t
    ensures ReverseNames(m, s) <= ReverseNames(m, t)
  {
    assert SeedIds(m, s) <= SeedIds(m, t);
  }

  /** A seed missing from its own closure is missing from every larger one. */
  lemma MissingStays(m: Metadata, s: set<string>, t: set<string>, c: string)
    requires s <= t && c in s && c !in ReverseNames(m, s)
    ensures c !in ReverseNames(m, t)
  {
    if c in ReverseNames(m, t) {
      var u :| u in m.members && u in m.names && m.names[u] == c;
      assert u in SeedIds(m, s);
      Seeded(m, s, u);
    }
  }

  lemma Seeded(m: Metadata, s: set<string>, u: string)
    requires u in SeedIds(m, s) && u in m.members
    ensures m.names[u] in ReverseNames(m, s)
  {
    Digraph.ReachesSelf(Dependents(m), u);
  }

  lemma ClosureMarksGrow(metadata: Option<Metadata>, s: set<string>, t: set<string>)
    requires s <= t
    ensures ClosureMarks(metadata, s) <= ClosureMarks(metadata, t)
  {
    if metadata.Some? {
      var m := metadata.value;
      ReverseNamesGrow(m, s, t);
      if !(s <= ReverseNames(m, s)) {
        var c :| c in s && c !in ReverseNames(m, s);
        MissingStays(m, s, t, c);
      }
    }
  }

  lemma GraphMarksGrow(facts: string -> Facts, a: set<string>, b: set<string>, metadata: Option<Metadata>)
    requires a <= b
    ensures GraphMarks(facts, a, metadata) <= GraphMarks(facts, b, metadata)
  {
    assert Seeds(facts, a) <= Seeds(facts, b);
    ClosureMarksGrow(metadata, Seeds(facts, a), Seeds(facts, b));
  }

  lemma OtherMarksGrow(facts: string -> Facts, a: set<string>, b: set<string>)
    requires a <= b
    ensures FileMarks(facts, a) <= FileMarks(facts, b) && UnionMarks(facts, a) <= UnionMarks(facts, b)
  {
    assert Unioned(facts, a) <= Unioned(facts, b);
  }

  lemma FootprintGrows(facts: string -> Facts, a: set<string>, b: set<string>, metadata: Option<Metadata>)
    requires a <= b
    ensures || Footprint(facts, a, metadata) <= Footprint(facts, b, metadata)
            || Footprint(facts, b, metadata) == {Everything}
  {
    GraphMarksGrow(facts, a, b, metadata);
    OtherMarksGrow(facts, a, b);
    assert Global(facts, a) ==> Global(facts, b);
  }

  /** For one loader outcome, adding changed paths to either side never turns
      an overlap into a non-overlap. */
  lemma AddingPathsKeepsOverlap(facts: string -> Facts, a: set<string>, a': set<string>, b: set<string>,
                                metadata: Option<Metadata>)
    requires a <= a' && Overlaps(Footprint(facts, a, metadata), Footprint(facts, b, metadata))
    ensures Overlaps(Footprint(facts, a', metadata), Footprint(facts, b, metadata))
    ensures Overlaps(Footprint(facts, b, metadata), Footprint(facts, a', metadata))
  {
    FootprintGrows(facts, a, a', metadata);
    var f, f', g := Footprint(facts, a, metadata), Footprint(facts, a', metadata), Footprint(facts, b, metadata);
    assert f <= f' ==> f * g <= f' * g && f' * g == g * f';
  }

  // ---- exactly when two changesets overlap ----

  /** A seed of some changed path cannot be looked up: no metadata, or no member
      of its name. */
  ghost predicate Unknown(facts: string -> Facts, paths: set<string>, metadata: Option<Metadata>) {
    exists p, c :: p in paths && c in facts(p).seeds && Unlisted(metadata, c)
  }

  predicate Unlisted(metadata: Option<Metadata>, c: string) {
    metadata.None? || c !in MemberNames(metadata.value)
  }

  /** Such a seed, or a global path. */
  ghost predicate Wide(facts: string -> Facts, paths: set<string>, metadata: Option<Metadata>) {
    (exists p :: p in paths && facts(p).isGlobal) || Unknown(facts, paths, metadata)
  }

  /** A changed path unions `c` in, or seeds the name of a package that a chain of
      dependencies through members leads to from a member named `c`. */
  ghost predicate Touches(facts: string -> Facts, paths: set<string>, metadata: Option<Metadata>, c: string) {
    || (exists p :: p in paths && c in facts(p).unioned)
    || exists p, u, x ::
         p in paths && metadata.Some? && Depends(metadata.value, u, x, c) && SeedOf(facts, p, metadata.value, x)
  }

  ghost predicate SeedOf(facts: string -> Facts, p: string, m: Metadata, x: string) {
    x in m.names && m.names[x] in facts(p).seeds
  }

  /** The member `u`, named `c`, depends on `x` through members. */
  ghost predicate Depends(m: Metadata, u: string, x: string, c: string) {
    u in m.members && u in m.names && m.names[u] == c && MemberChained(m, u, x)
  }

  /** A seed is in its own reverse closure exactly when a member has its name. */
  lemma SeedFoundIff(m: Metadata, seeds: set<string>, c: string)
    requires c in seeds
    ensures c in ReverseNames(m, seeds) <==> c in MemberNames(m)
  {
    if c in MemberNames(m) {
      var u :| u in m.members && u in m.names && m.names[u] == c;
      Seeded(m, seeds, u);
    }
  }

  lemma SeedsFoundIff(m: Metadata, seeds: set<string>)
    ensures seeds <= ReverseNames(m, seeds) <==> seeds <= MemberNames(m)
  {
    forall c | c in seeds
      ensures c in ReverseNames(m, seeds) <==> c in MemberNames(m)
    {
      SeedFoundIff(m, seeds, c);
    }
  }

  /** Every seed comes from a path. */
  lemma SeedHasPath(facts: string -> Facts, paths: set<string>, c: string)
    ensures c in Seeds(facts, paths) <==> exists p :: p in paths && c in facts(p).seeds
  {
  }

  lemma UnknownIff(facts: string -> Facts, paths: set<string>, metadata: Option<Metadata>)
    ensures var seeds := Seeds(facts, paths);
            Unknown(facts, paths, metadata) <==>
            seeds != {} && (metadata.None? || !(seeds <= MemberNames(metadata.value)))
  {
    var seeds := Seeds(facts, paths);
    if p, c :| p in paths && c in facts(p).seeds && Unlisted(metadata, c) {
      assert c in seeds;
    }
    if seeds != {} && (metadata.None? || !(seeds <= MemberNames(metadata.value))) {
      var c :| c in seeds && Unlisted(metadata, c);
      SeedHasPath(facts, paths, c);
    }
  }

  lemma EverythingIff(facts: string -> Facts, paths: set<string>, metadata: Option<Metadata>)
    ensures Everything in Footprint(facts, paths, metadata) <==> Wide(facts, paths, metadata)
  {
    UnknownIff(facts, paths, metadata);
    if metadata.Some? {
      SeedsFoundIff(metadata.value, Seeds(facts, paths));
    }
  }

  lemma FileIff(facts: string -> Facts, paths: set<string>, metadata: Option<Metadata>, p: string)
    requires !Wide(facts, paths, metadata)
    ensures File(p) in Footprint(facts, paths, metadata) <==> p in paths && facts(p).seeds == {}
  {
  }

  lemma CrateIff(facts: string -> Facts, paths: set<string>, metadata: Option<Metadata>, c: string)
    requires !Wide(facts, paths, metadata)
    ensures Crate(c) in Footprint(facts, paths, metadata) <==> Touches(facts, paths, metadata, c)
  {
    var seeds := Seeds(facts, paths);
    if metadata.Some? {
      var m := metadata.value;
      ReverseNamesIff(m, seeds, c);
      if c in ReverseNames(m, seeds) {
        var u, x :|
          u in m.members && u in m.names && m.names[u] == c && SeedNamed(m, seeds, x) && MemberChained(m, u, x);
        var p :| p in paths && m.names[x] in facts(p).seeds;
        assert Depends(m, u, x, c) && SeedOf(facts, p, m, x);
      }
      if p, u, x :| p in paths && Depends(m, u, x, c) && SeedOf(facts, p, m, x) {
        assert m.names[x] in seeds;
        assert SeedNamed(m, seeds, x);
      }
    }
    assert Crate(c) in UnionMarks(facts, paths) <==> exists p :: p in paths && c in facts(p).unioned;
    UnknownIff(facts, paths, metadata);
  }

  lemma NonEmptyIff(facts: string -> Facts, paths: set<string>, metadata: Option<Metadata>)
    ensures Footprint(facts, paths, metadata) != {} <==> paths != {}
  {
    if paths != {} {
      var p :| p in paths;
      PathMarked(facts, paths, metadata, p);
      if facts(p).seeds != {} {
        var c :| c in facts(p).seeds;
      }
    } else {
      assert Seeds(facts, paths) == {} && Unioned(facts, paths) == {};
    }
  }

  /** What the two changesets have in common. */
  ghost predicate Common(facts: string -> Facts, a: set<string>, b: set<string>,
                         forA: Option<Metadata>, forB: Option<Metadata>) {
    || (exists p :: p in a && p in b && facts(p).seeds == {})
    || exists c :: Touches(facts, a, forA, c) && Touches(facts, b, forB, c)
  }

  /** Two changesets overlap exactly when neither is empty and one of them is wide,
      or they share a path without a seed, or both touch one crate: by unioning it
      in, or by changing something it depends on through members. */
  lemma OverlapIff(facts: string -> Facts, a: set<string>, b: set<string>,
                   forA: Option<Metadata>, forB: Option<Metadata>)
    ensures Overlaps(Footprint(facts, a, forA), Footprint(facts, b, forB)) <==>
            && a != {} && b != {}
            && (Wide(facts, a, forA) || Wide(facts, b, forB) || Common(facts, a, b, forA, forB))
  {
    var f, g := Footprint(facts, a, forA), Footprint(facts, b, forB);
    NonEmptyIff(facts, a, forA);
    NonEmptyIff(facts, b, forB);
    EverythingIff(facts, a, forA);
    EverythingIff(facts, b, forB);
    if !Wide(facts, a, forA) && !Wide(facts, b, forB) {
      MarksMeetIff(facts, a, b, forA, forB);
    }
  }

  lemma MarksMeetIff(facts: string -> Facts, a: set<string>, b: set<string>,
                     forA: Option<Metadata>, forB: Option<Metadata>)
    requires !Wide(facts, a, forA) && !Wide(facts, b, forB)
    ensures Footprint(facts, a, forA) * Footprint(facts, b, forB) != {} <==> Common(facts, a, b, forA, forB)
  {
    var f, g := Footprint(facts, a, forA), Footprint(facts, b, forB);
    EverythingIff(facts, a, forA);
    if x :| x in f * g {
      match x
      case File(p) =>
        FileIff(facts, a, forA, p);
        FileIff(facts, b, forB, p);
      case Crate(c) =>
        CrateIff(facts, a, forA, c);
        CrateIff(facts, b, forB, c);
      case Everything =>
    }
    if p :| p in a && p in b && facts(p).seeds == {} {
      FileIff(facts, a, forA, p);
      FileIff(facts, b, forB, p);
      assert File(p) in f * g;
    }
    if c :| Touches(facts, a, forA, c) && Touches(facts, b, forB, c) {
      CrateIff(facts, a, forA, c);
      CrateIff(facts, b, forB, c);
      assert Crate(c) in f * g;
    }
  }

  /** A change to a package and a change to a member that depends on it through
      members overlap, whatever the metadata. */
  lemma DependentOverlaps(facts: string -> Facts, a: set<string>, b: set<string>, m: Metadata,
                          p: string, x: string, q: string, u: string)
    requires p in a && SeedOf(facts, p, m, x)
    requires q in b && u in m.members && u in m.names && m.names[u] in facts(q).seeds && MemberChained(m, u, x)
    ensures Overlaps(Footprint(facts, a, Some(m)), Footprint(facts, b, Some(m)))
  {
    var c := m.names[u];
    assert MemberChain(m, u, [], u);
    assert Depends(m, u, x, c) && Depends(m, u, u, c) && SeedOf(facts, q, m, u);
    assert Touches(facts, a, Some(m), c) && Touches(facts, b, Some(m), c);
    OverlapIff(facts, a, b, Some(m), Some(m));
  }
}
