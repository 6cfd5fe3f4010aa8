/** Where the promises about stamps end: runs that show each condition is
    needed. */
module StalenessLimits {
  import opened Outcomes
  import opened Text
  import opened Manifest
  import opened Staleness
  import opened StalenessRuns

  /** Right after a finished first build of `g` in `out`. */
  ghost function Settled(t: Tools, out: string, g: string): State
    requires Sound(t)
  {
    assert Complete(t.generate(g));
    State(Disk(g, t.generate(g), true, Some(t.sha(g)), Some(Attestation(t, t.generate(g))), map[out := t.content(g)]),
          Idle, Whole)
  }

  lemma SettledIsInitial(t: Tools, out: string, g: string)
    requires Sound(t)
    ensures Initial(t, Settled(t, out, g))
  {
    WrittenPairIff(t, g, g);
  }

  lemma OtherGrammar(t: Tools, g0: string, g1: string)
    requires Sound(t) && !Same(t.generate(g1), t.generate(g0))
    ensures g0 != g1 && t.sha(g0) != t.sha(g1) && t.content(g0) != t.content(g1)
    ensures Trim(t.sha(g0)) == t.sha(g0) && Trim(t.sha(g1)) == t.sha(g1)
    ensures Trim(t.content(g0)) == t.content(g0) && Trim(t.content(g1)) == t.content(g1)
    ensures Complete(t.generate(g0)) && Complete(t.generate(g1))
  {
    TrimColumn(t.sha(g0));
    TrimColumn(t.sha(g1));
    TrimColumn(t.content(g0));
    TrimColumn(t.content(g1));
    assert Complete(t.generate(g0)) && Complete(t.generate(g1));
  }

  /** The rebuild for `g1`, up to the end of generation. */
  lemma RebuildVerified(t: Tools, out: string, g0: string, g1: string) returns (v: State)
    requires Sound(t) && !Same(t.generate(g1), t.generate(g0))
    ensures v.phase == Verified(out, t.content(g1), Some(t.sha(g1)), g1) && v.stamps.Whole?
    ensures v.disk == Settled(t, out, g0).disk.(grammar := g1, outputs := t.generate(g1))
    ensures Reaches(t, Settled(t, out, g0), v, true)
  {
    OtherGrammar(t, g0, g1);
    var a := Settled(t, out, g0);
    ReachesSelf(t, a, true);
    var b := Checkout(a, g1);
    ReachesCheckout(t, a, a, g1, true);
    ReachesReady(t, a, b, out, true);
    ReachesVerified(t, a, ReadyState(t, b, out), true);
    v := VerifiedState(t, ReadyState(t, b, out));
  }

  /** One cut, after the stamp pair and before the output directory's stamp, is
      enough to mislead `needs_generate`, even with a single output directory. */
  lemma OneCutMisleads(t: Tools, out: string, g0: string, g1: string) returns (s: State)
    requires Sound(t) && !Same(t.generate(g1), t.generate(g0))
    ensures Initial(t, Settled(t, out, g0))
    ensures Reaches(t, Settled(t, out, g0), s, true) && s.phase.Idle? && s.stamps.Whole?
    ensures !NeedsGenerate(t, s.disk, out, t.content(s.disk.grammar)) && !Fits(t, s.disk)
  {
    SettledIsInitial(t, out, g0);
    OtherGrammar(t, g0, g1);
    var a := Settled(t, out, g0);
    var v := RebuildVerified(t, out, g0, g1);
    ReachesStamped(t, a, v, true);
    var c := StampedState(t, v);
    ReachesStep(t, a, c, Cut(c), true);
    s := Checkout(Cut(c), g0);
    ReachesCheckout(t, a, Cut(c), g0, true);
    MixedStampsMislead(t, s.disk, out, g1);
  }

  /** After a cut between the two stamps. */
  lemma HalfStampedCut(t: Tools, out: string, g0: string, g1: string) returns (s: State)
    requires Sound(t) && !Same(t.generate(g1), t.generate(g0))
    ensures Reaches(t, Settled(t, out, g0), s, true) && s.phase.Idle? && s.stamps.Half?
    ensures s.disk == Settled(t, out, g0).disk.(outputs := t.generate(g1), grammarStamp := Some(t.sha(g1)))
  {
    OtherGrammar(t, g0, g1);
    var a := Settled(t, out, g0);
    var v := RebuildVerified(t, out, g0, g1);
    ReachesHalf(t, a, v, true);
    var c := HalfState(t, v);
    ReachesStep(t, a, c, Cut(c), true);
    s := Checkout(Cut(c), g0);
    ReachesCheckout(t, a, Cut(c), g0, true);
  }

  /** A cut between the stamps and then a cut generation make the stamps vouch
      for the outputs of another grammar. */
  lemma TwoCutsLie(t: Tools, out: string, g0: string, g1: string) returns (s: State)
    requires Sound(t) && !Same(t.generate(g1), t.generate(g0))
    ensures Initial(t, Settled(t, out, g0))
    ensures Reaches(t, Settled(t, out, g0), s, true) && s.phase.Idle? && s.stamps.Spoiled?
    ensures ShellCurrent(t, s.disk) && !Fits(t, s.disk)
  {
    SettledIsInitial(t, out, g0);
    OtherGrammar(t, g0, g1);
    var a := Settled(t, out, g0);
    var b := HalfStampedCut(t, out, g0, g1);
    FreshHolds(t, t.generate(g0));
    assert NeedsGenerate(t, b.disk, out, t.content(g0)) by {
      if Attests(b.disk.manifest.value, Hashes(t, b.disk.outputs)) {
        AttestedIsUnique(t, b.disk.manifest.value, t.generate(g1), t.generate(g0));
      }
    }
    ReachesReady(t, a, b, out, true);
    ReachesVerified(t, a, ReadyState(t, b, out), true);
    var v := VerifiedState(t, ReadyState(t, b, out));
    ReachesStep(t, a, v, Cut(v), true);
    s := Checkout(Cut(v), g1);
    ReachesCheckout(t, a, Cut(v), g1, true);
    assert s.disk == a.disk.(grammar := g1, grammarStamp := Some(t.sha(g1)));
    NotSameBack(t, g0, g1);
  }

  lemma NotSameBack(t: Tools, g0: string, g1: string)
    requires !Same(t.generate(g1), t.generate(g0))
    ensures !Same(t.generate(g0), t.generate(g1))
  {
  }

  /** An edit that is undone while the generator runs passes the second hash:
      without any cut, the stamps vouch for the wrong outputs. */
  lemma UndoneEditLies(t: Tools, out: string, g0: string, g1: string) returns (s: State)
    requires Sound(t) && !Same(t.generate(g1), t.generate(g0))
    ensures Initial(t, Settled(t, out, g0))
    ensures Reaches(t, Settled(t, out, g0), s, false) && s.stamps.Whole?
    ensures ShellCurrent(t, s.disk) && !Fits(t, s.disk)
  {
    SettledIsInitial(t, out, g0);
    OtherGrammar(t, g0, g1);
    var a := Settled(t, out, g0);
    var b := Checkout(a, g1);
    ReachesSelf(t, a, false);
    ReachesCheckout(t, a, a, g1, false);
    ReachesReady(t, a, b, out, false);
    var c := Checkout(ReadyState(t, b, out), g0);
    ReachesCheckout(t, a, ReadyState(t, b, out), g0, false);
    ReachesVerified(t, a, c, false);
    var v := Checkout(VerifiedState(t, c), g1);
    ReachesCheckout(t, a, VerifiedState(t, c), g1, false);
    ReachesStamped(t, a, v, false);
    s := StampedState(t, v);
    FreshHolds(t, t.generate(g0));
    NotSameBack(t, g0, g1);
  }

  // ---- exactly when a disk can come to lie ----

  /** The stamps call the outputs current and they are not. */
  ghost predicate Lies(t: Tools, d: Disk) {
    ShellCurrent(t, d) && !Fits(t, d)
  }

  /** Two kinds of runs: every generation is cut before its grammar stamp, or no
      generation begins at all. */
  datatype Scope = NoStamp | NoGeneration

  predicate Within(scope: Scope, p: Phase) {
    if scope.NoStamp? then !p.HalfStamped? else !p.Generating?
  }

  ghost predicate RunsWithin(t: Tools, run: seq<State>, faults: bool, scope: Scope, a: State, b: State) {
    && IsRun(t, run, faults) && run[0] == a && run[|run| - 1] == b
    && forall i :: 0 <= i < |run| ==> Within(scope, run[i].phase)
  }

  ghost predicate LeadsTo(t: Tools, a: State, b: State, faults: bool, scope: Scope) {
    exists run :: RunsWithin(t, run, faults, scope, a, b)
  }

  ghost predicate CanLie(t: Tools, s: State, faults: bool, scope: Scope) {
    exists b :: LeadsTo(t, s, b, faults, scope) && Lies(t, b.disk)
  }

  lemma LeadsToSelf(t: Tools, a: State, faults: bool, scope: Scope)
    requires Within(scope, a.phase)
    ensures LeadsTo(t, a, a, faults, scope)
  {
    assert RunsWithin(t, [a], faults, scope, a, a);
  }

  lemma LeadsToStep(t: Tools, a: State, b: State, c: State, faults: bool, scope: Scope)
    requires LeadsTo(t, a, b, faults, scope) && Step(t, b, c, faults) && Within(scope, c.phase)
    ensures LeadsTo(t, a, c, faults, scope)
  {
    var run :| RunsWithin(t, run, faults, scope, a, b);
    var longer := run + [c];
    assert forall i :: 0 <= i < |run| ==> longer[i] == run[i];
    assert RunsWithin(t, longer, faults, scope, a, c);
  }

  /** Short of a grammar stamp, a step leaves both stamps or loses them. */
  lemma UnstampedStep(t: Tools, s: State, s': State, faults: bool)
    requires Step(t, s, s', faults) && !s.phase.HalfStamped? && !s'.phase.HalfStamped?
    ensures MayLose(s.disk.grammarStamp, s'.disk.grammarStamp) && MayLose(s.disk.manifest, s'.disk.manifest)
  {
  }

  /** ... and so keeps a coherent pair coherent. */
  lemma UnstampedStepKeeps(t: Tools, s: State, s': State, faults: bool)
    requires Step(t, s, s', faults) && !s.phase.HalfStamped? && !s'.phase.HalfStamped? && Pair(t, s.disk)
    ensures Pair(t, s'.disk)
  {
    UnstampedStep(t, s, s', faults);
    PairMayLose(t, s.disk, s'.disk);
  }

  /** Short of a generation, every step keeps a pair that stands for the outputs
      on disk. */
  lemma UngeneratedStepKeeps(t: Tools, s: State, s': State, faults: bool)
    requires Step(t, s, s', faults) && Free(s.phase) && !s'.phase.Generating?
    requires s.disk.headers ==> Stands(t, s.disk)
    ensures Free(s'.phase) && (s'.disk.headers ==> Stands(t, s'.disk))
  {
    UngeneratedStep(t, s, s', faults);
    if s'.disk.headers {
      StandsMayLose(t, s.disk, s'.disk);
    }
  }

  lemma UngeneratedStep(t: Tools, s: State, s': State, faults: bool)
    requires Step(t, s, s', faults) && Free(s.phase) && !s'.phase.Generating?
    ensures Free(s'.phase) && Part(s'.disk.outputs, s.disk.outputs) && (s'.disk.headers ==> s.disk.headers)
    ensures MayLose(s.disk.grammarStamp, s'.disk.grammarStamp) && MayLose(s.disk.manifest, s'.disk.manifest)
  {
  }

  /** What each kind of run keeps. */
  ghost predicate Keeps(t: Tools, scope: Scope, s: State) {
    if scope.NoStamp? then Pair(t, s.disk) else Free(s.phase) && (s.disk.headers ==> Stands(t, s.disk))
  }

  lemma {:induction false} RunKeepsScope(t: Tools, run: seq<State>, faults: bool, scope: Scope,
                                         a: State, b: State, n: nat)
    requires RunsWithin(t, run, faults, scope, a, b) && Keeps(t, scope, a) && n < |run|
    ensures Keeps(t, scope, run[n])
    decreases n
  {
    if n == 0 {
    } else {
      RunKeepsScope(t, run, faults, scope, a, b, n - 1);
      assert Step(t, run[n - 1], run[n], faults);
      assert Within(scope, run[n - 1].phase) && Within(scope, run[n].phase);
      if scope.NoStamp? {
        UnstampedStepKeeps(t, run[n - 1], run[n], faults);
      } else {
        UngeneratedStepKeeps(t, run[n - 1], run[n], faults);
      }
    }
  }

  lemma KeepsIsSafe(t: Tools, s: State, faults: bool, scope: Scope)
    requires Keeps(t, scope, s)
    ensures !CanLie(t, s, faults, scope)
  {
    forall b | LeadsTo(t, s, b, faults, scope)
      ensures !Lies(t, b.disk)
    {
      var run :| RunsWithin(t, run, faults, scope, s, b);
      RunKeepsScope(t, run, faults, scope, s, b, |run| - 1);
      StandingIsSafe(t, b.disk);
    }
  }

  lemma VouchedIsShown(t: Tools, d: Disk)
    requires Sound(t) && d.headers && Vouches(t, d.grammarStamp, d.manifest, d.grammar, d.outputs)
    ensures ShellCurrent(t, d)
  {
    AttestedIsComplete(t, d.manifest.value, d.outputs);
    assert Column(t.sha(d.grammar));
  }

  /** From an idle disk, generations that are all cut before their grammar stamp
      can make the stamps lie exactly when the pair is not coherent. */
  lemma CutsLieIff(t: Tools, s: State, faults: bool)
    requires Sound(t) && s.phase.Idle?
    ensures CanLie(t, s, faults, NoStamp) <==> !Pair(t, s.disk)
  {
    if Pair(t, s.disk) {
      KeepsIsSafe(t, s, faults, NoStamp);
    } else {
      var g, o :| Vouches(t, s.disk.grammarStamp, s.disk.manifest, g, o) && !Same(o, t.generate(g));
      var b := CutWhileWriting(t, s, faults, o, g);
      VouchedIsShown(t, b.disk);
    }
  }

  /** A build that finds its headers gone starts the generator and is cut with
      `o` written; then `g` is checked out. */
  lemma CutWhileWriting(t: Tools, s: State, faults: bool, o: Files, g: string) returns (b: State)
    requires s.phase.Idle?
    ensures LeadsTo(t, s, b, faults, NoStamp)
    ensures b.disk == s.disk.(headers := true, outputs := o, grammar := g)
  {
    var writing := StartGenerator(t, s, faults);
    var written := writing.(disk := s.disk.(headers := true, outputs := o));
    LeadsToStep(t, s, writing, written, faults, NoStamp);
    LeadsToStep(t, s, written, Cut(written), faults, NoStamp);
    b := Checkout(Cut(written), g);
    LeadsToStep(t, s, Cut(written), b, faults, NoStamp);
  }

  lemma StartGenerator(t: Tools, s: State, faults: bool) returns (b: State)
    requires s.phase.Idle?
    ensures LeadsTo(t, s, b, faults, NoStamp) && b.phase.Generating? && b.disk == s.disk.(headers := false)
  {
    var bare := s.(disk := s.disk.(headers := false));
    LeadsToSelf(t, s, faults, NoStamp);
    LeadsToStep(t, s, s, bare, faults, NoStamp);
    b := Begin(t, bare, "");
    LeadsToStep(t, s, bare, b, faults, NoStamp);
    LeadsToStep(t, s, b, Work(t, b), faults, NoStamp);
    b := Work(t, b);
    LeadsToStep(t, s, b, Work(t, b), faults, NoStamp);
    b := Work(t, b);
    LeadsToStep(t, s, b, Work(t, b), faults, NoStamp);
    b := Work(t, b);
    LeadsToStep(t, s, b, Work(t, b), faults, NoStamp);
    b := Work(t, b);
  }

  /** Without a generation, edits and losses can make the stamps lie exactly when
      the headers are there and the pair vouches for the outputs on disk under
      some grammar that does not generate them. */
  lemma EditsLieIff(t: Tools, s: State, faults: bool)
    requires Sound(t) && s.phase.Idle?
    ensures CanLie(t, s, faults, NoGeneration) <==> s.disk.headers && !Stands(t, s.disk)
  {
    if s.disk.headers && !Stands(t, s.disk) {
      var d := s.disk;
      var g :| Vouches(t, d.grammarStamp, d.manifest, g, d.outputs) && !Same(d.outputs, t.generate(g));
      var b := Checkout(s, g);
      LeadsToSelf(t, s, faults, NoGeneration);
      LeadsToStep(t, s, s, b, faults, NoGeneration);
      VouchedIsShown(t, b.disk);
    } else {
      KeepsIsSafe(t, s, faults, NoGeneration);
    }
  }

  // ---- such tools exist ----

  function Marks(n: nat): (r: string)
    ensures |r| == n && 'b' !in r && forall c :: c in r ==> c == 'a'
  {
    seq(n, _ => 'a')
  }

  function Spell(s: string): string {
    if s == "" then "x" else Marks(s[0] as int) + ['b'] + Spell(s[1..])
  }

  lemma {:induction false} SpellIsColumn(s: string)
    ensures Column(Spell(s))
  {
    if s == "" {
    } else {
      SpellIsColumn(s[1..]);
    }
  }

  /** Only the empty text is spelt with a single character. */
  lemma SpellEmptyIff(s: string)
    ensures Spell(s) == "x" <==> s == ""
  {
    if s != "" {
      var marks := Marks(s[0] as int);
      assert marks != "" ==> Spell(s)[0] == marks[0] && marks[0] in marks;
    }
  }

  lemma SpellSplits(s: string, r: string)
    requires s != "" && r != "" && Spell(s) == Spell(r)
    ensures s[0] == r[0] && Spell(s[1..]) == Spell(r[1..])
  {
    SameMarks(Marks(s[0] as int), Spell(s[1..]), Marks(r[0] as int), Spell(r[1..]));
  }

  lemma SameCons(s: string, r: string)
    requires s != "" && r != "" && s[0] == r[0] && s[1..] == r[1..]
    ensures s == r
  {
    assert s == [s[0]] + s[1..] && r == [r[0]] + r[1..];
  }

  lemma {:induction false} SpellInjective(s: string, r: string)
    requires Spell(s) == Spell(r)
    ensures s == r
  {
    SpellEmptyIff(s);
    SpellEmptyIff(r);
    if s == "" {
    } else {
      SpellSplits(s, r);
      SpellInjective(s[1..], r[1..]);
      SameCons(s, r);
    }
  }

  lemma SameMarks(a: string, u: string, b: string, v: string)
    requires 'b' !in a && 'b' !in b && a + ['b'] + u == b + ['b'] + v
    ensures |a| == |b| && u == v
  {
    IndexOfMid(a, 'b', u);
    IndexOfMid(b, 'b', v);
    assert u == (a + ['b'] + u)[|a| + 1..] && v == (b + ['b'] + v)[|b| + 1..];
  }

  lemma SoundToolsExist() returns (t: Tools, g0: string, g1: string)
    ensures Sound(t) && !Same(t.generate(g1), t.generate(g0))
  {
    t := Tools(Spell, Spell, g => map name | name in EXPECTED :: g);
    g0, g1 := "", "x";
    forall a, b | Spell(a) == Spell(b)
      ensures a == b
    {
      SpellInjective(a, b);
    }
    forall a
      ensures Column(Spell(a))
    {
      SpellIsColumn(a);
    }
    assert EXPECTED[0] in EXPECTED;
  }
}
