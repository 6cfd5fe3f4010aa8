/** The build script step by step, with edits, losses, failures and cuts
    between any two of its steps. */
module StalenessRuns {
  import opened Outcomes
  import opened Manifest
  import opened Staleness

  /** How far a build has come, with the values it has read. `consumed` is the
      grammar the generator read, `named` the one whose hash is being stamped. */
  datatype Phase =
    | Idle
    | Hashed(out: string, hash: string)
    | Stale(out: string, hash: string)
    | Unproven(out: string, hash: string)
    | Ready(out: string, hash: string, before: Option<string>)
    | Generating(out: string, hash: string, before: Option<string>, consumed: string)
    | Verified(out: string, hash: string, before: Option<string>, consumed: string)
    | Attesting(out: string, hash: string, sha: string, text: string, consumed: string, named: string)
    | HalfStamped(out: string, hash: string, text: string, consumed: string, named: string)
    | Closing(out: string, hash: string)

  /** The stamp pair on disk: written in full, only its first stamp written, or
      half written and a generation begun since. */
  datatype Stamps = Whole | Half | Spoiled

  datatype State = State(disk: Disk, phase: Phase, stamps: Stamps)

  // ---- the steps ----

  function Begin(t: Tools, s: State, out: string): State {
    s.(phase := Hashed(out, t.content(s.disk.grammar)))
  }

  /** The build's next step when everything it tries succeeds. */
  ghost function Work(t: Tools, s: State): State {
    var d := s.disk;
    match s.phase
    case Idle => s
    case Hashed(out, hash) => s.(phase := if NeedsGenerate(t, d, out, hash) then Stale(out, hash) else Idle)
    case Stale(out, hash) => s.(phase := if ShellCurrent(t, d) then Closing(out, hash) else Unproven(out, hash))
    case Unproven(out, hash) => s.(phase := Ready(out, hash, Some(t.sha(d.grammar))))
    case Ready(out, hash, before) => 
      s.(phase := Generating(out, hash, before, d.grammar), stamps := if s.stamps.Whole? then Whole else Spoiled)
    case Generating(out, hash, before, consumed) =>
      State(d.(outputs := t.generate(consumed), headers := true), Verified(out, hash, before, consumed), s.stamps)
    case Verified(out, hash, before, consumed) =>
      if before == Some(t.sha(d.grammar)) && Complete(d.outputs)
      then s.(phase := Attesting(out, hash, before.value, Attestation(t, d.outputs), consumed, d.grammar))
      else s.(phase := Closing(out, hash))
    case Attesting(out, hash, sha, text, consumed, named) =>
      State(d.(grammarStamp := Some(sha)), HalfStamped(out, hash, text, consumed, named), Half)
    case HalfStamped(out, hash, text, _, _) =>
      State(d.(manifest := Some(text)), Closing(out, hash), Whole)
    case Closing(out, hash) => s.(disk := OutStamped(d, out, hash), phase := Idle)
  }

  /** The same steps when a hash or a write fails. A failing generator is a cut. */
  function Falter(s: State): State {
    match s.phase
    case Hashed(out, hash) => s.(phase := Stale(out, hash))
    case Stale(out, hash) => s.(phase := Unproven(out, hash))
    case Unproven(out, hash) => s.(phase := Ready(out, hash, None))
    case Verified(out, hash, _, _) => s.(phase := Closing(out, hash))
    case Attesting(out, hash, _, _, _, _) => s.(phase := Closing(out, hash))
    case HalfStamped(out, hash, _, _, _) => s.(phase := Closing(out, hash))
    case Closing(_, _) => s.(phase := Idle)
    case _ => s
  }

  ghost predicate Edited(s: State, s': State) {
    s' == s.(disk := s.disk.(grammar := s'.disk.grammar))
  }

  predicate MayLose(a: Option<string>, b: Option<string>) {
    b == a || b == None
  }

  /** Files go missing, as when untracked ones are cleaned away. */
  ghost predicate Lost(s: State, s': State) {
    var d, d' := s.disk, s'.disk;
    && s' == s.(disk := d') && d'.grammar == d.grammar
    && Part(d'.outputs, d.outputs) && (d'.headers ==> d.headers)
    && MayLose(d.grammarStamp, d'.grammarStamp) && MayLose(d.manifest, d'.manifest)
    && Part(d'.outStamps, d.outStamps)
  }

  /** The generator has written anything so far. */
  ghost predicate Wrote(s: State, s': State) {
    s.phase.Generating?
    && s' == s.(disk := s.disk.(outputs := s'.disk.outputs, headers := s'.disk.headers))
  }

  ghost predicate Began(t: Tools, s: State, s': State) {
    s.phase.Idle? && s'.phase.Hashed? && s' == Begin(t, s, s'.phase.out)
  }

  /** `faults` says whether hashing and writing may fail. */
  ghost predicate Step(t: Tools, s: State, s': State, faults: bool) {
    || Began(t, s, s') || s' == Work(t, s) || Edited(s, s') || Lost(s, s') || Wrote(s, s')
    || s' == s.(phase := Idle)
    || (faults && s' == Falter(s))
  }

  /** The grammar consumed and the grammar about to be stamped generate the same:
      no edit during generation was undone before the second hash, or none that
      matters. */
  ghost predicate NotUndone(t: Tools, s: State, s': State) {
    s.phase.Verified? && s'.phase.Attesting? ==> Same(t.generate(s.phase.consumed), t.generate(s.disk.grammar))
  }

  // ---- what every step keeps ----

  ghost predicate Pair(t: Tools, d: Disk) {
    Coherent(t, d.grammarStamp, d.manifest)
  }

  ghost predicate Stands(t: Tools, d: Disk) {
    Standing(t, d.grammarStamp, d.manifest, d.outputs)
  }

  /** The outputs come from the consumed grammar, the text attests them, and
      the grammar to be stamped generates the same. */
  ghost predicate Prepared(t: Tools, o: Files, text: string, consumed: string, named: string) {
    && Part(o, t.generate(consumed)) && Same(t.generate(consumed), t.generate(named))
    && Complete(t.generate(consumed)) && text == Attestation(t, t.generate(consumed))
  }

  /** What a build in progress relies on. */
  ghost predicate Carries(t: Tools, s: State) {
    var d := s.disk;
    match s.phase
    case Generating(_, _, _, _) => !s.stamps.Half?
    case Verified(_, _, _, consumed) => !s.stamps.Half? && Part(d.outputs, t.generate(consumed))
    case Attesting(_, _, sha, text, consumed, named) =>
      !s.stamps.Half? && Prepared(t, d.outputs, text, consumed, named) && sha == t.sha(named)
    case HalfStamped(_, _, text, consumed, named) =>
      s.stamps.Half? && Prepared(t, d.outputs, text, consumed, named) && MayLose(Some(t.sha(named)), d.grammarStamp)
    case _ => true
  }

  predicate BeforeStamps(p: Phase) {
    p.Generating? || p.Verified? || p.Attesting?
  }

  ghost predicate Inv(t: Tools, s: State) {
    && Carries(t, s)
    && (s.stamps.Whole? ==> Pair(t, s.disk))
    && (s.stamps.Half? ==> Stands(t, s.disk))
  }

  lemma NoPair(t: Tools, stamp: Option<string>, manifest: Option<string>)
    requires stamp.None? || manifest.None?
    ensures Coherent(t, stamp, manifest)
  {
  }

  lemma PairStands(t: Tools, d: Disk)
    requires Pair(t, d)
    ensures Stands(t, d)
  {
  }

  lemma PairMayLose(t: Tools, d: Disk, d': Disk)
    requires Pair(t, d) && MayLose(d.grammarStamp, d'.grammarStamp) && MayLose(d.manifest, d'.manifest)
    ensures Pair(t, d')
  {
  }

  lemma StandsMayLose(t: Tools, d: Disk, d': Disk)
    requires Stands(t, d) && Part(d'.outputs, d.outputs)
    requires MayLose(d.grammarStamp, d'.grammarStamp) && MayLose(d.manifest, d'.manifest)
    ensures Stands(t, d')
  {
    StandingLoses(t, d.grammarStamp, d.manifest, d.outputs, d'.outputs);
  }

  lemma LostKeeps(t: Tools, s: State, s': State)
    requires Inv(t, s) && Lost(s, s')
    ensures Inv(t, s')
  {
    if Pair(t, s.disk) {
      PairMayLose(t, s.disk, s'.disk);
    }
    if Stands(t, s.disk) {
      StandsMayLose(t, s.disk, s'.disk);
    }
  }

  /** A phase that relies on nothing but the stamps. */
  predicate Free(p: Phase) {
    !BeforeStamps(p) && !p.HalfStamped?
  }

  lemma FreeKeeps(t: Tools, s: State, p: Phase)
    requires Inv(t, s) && Free(p)
    ensures Inv(t, s.(phase := p))
  {
  }

  lemma FalterKeeps(t: Tools, s: State)
    requires Inv(t, s)
    ensures Inv(t, Falter(s))
  {
    if !s.phase.Idle? && !s.phase.Ready? && !s.phase.Generating? {
      FreeKeeps(t, s, Falter(s).phase);
    }
  }

  lemma WroteKeeps(t: Tools, s: State, s': State)
    requires Inv(t, s) && Wrote(s, s')
    ensures Inv(t, s')
  {
  }

  lemma WorkKeeps(t: Tools, s: State)
    requires Sound(t) && Inv(t, s) && NotUndone(t, s, Work(t, s))
    ensures Inv(t, Work(t, s))
  {
    match s.phase
    case Verified(_, _, _, _) => VerifiedKeeps(t, s);
    case Attesting(_, _, _, _, _, _) => AttestingKeeps(t, s);
    case HalfStamped(_, _, _, _, _) => HalfStampedKeeps(t, s);
    case _ =>
  }

  lemma VerifiedKeeps(t: Tools, s: State)
    requires Sound(t) && Inv(t, s) && s.phase.Verified? && NotUndone(t, s, Work(t, s))
    ensures Inv(t, Work(t, s))
  {
    var o, made := s.disk.outputs, t.generate(s.phase.consumed);
    assert Complete(made);
    if Complete(o) {
      SameAttestation(t, o, made);
    }
  }

  /** The text depends only on the expected outputs. */
  lemma SameAttestation(t: Tools, a: Files, b: Files)
    requires Complete(a) && Complete(b) && Part(a, b)
    ensures Attestation(t, a) == Attestation(t, b)
  {
    assert EXPECTED[0] == PARSER && EXPECTED[1] == GRAMMAR_JSON && EXPECTED[2] == NODE_TYPES;
    assert Entries(Hashes(t, a)) == Entries(Hashes(t, b));
  }

  lemma AttestingKeeps(t: Tools, s: State)
    requires Sound(t) && Inv(t, s) && s.phase.Attesting?
    ensures Inv(t, Work(t, s))
  {
    HalfPair(t, s.phase.named, s.phase.consumed, s.disk.manifest, s.disk.outputs);
  }

  lemma HalfStampedKeeps(t: Tools, s: State)
    requires Sound(t) && Inv(t, s) && s.phase.HalfStamped?
    ensures Inv(t, Work(t, s))
  {
    var d := Work(t, s).disk;
    WrittenPairIff(t, s.phase.named, s.phase.consumed);
    if d.grammarStamp.None? {
      NoPair(t, d.grammarStamp, d.manifest);
    }
  }

  lemma EditedKeeps(t: Tools, s: State, s': State)
    requires Inv(t, s) && Edited(s, s')
    ensures Inv(t, s')
  {
  }

  lemma StepKeeps(t: Tools, s: State, s': State, faults: bool)
    requires Sound(t) && Inv(t, s) && Step(t, s, s', faults) && NotUndone(t, s, s')
    ensures Inv(t, s')
  {
    if s' == Work(t, s) {
      WorkKeeps(t, s);
    } else if Lost(s, s') {
      LostKeeps(t, s, s');
    } else if Wrote(s, s') {
      WroteKeeps(t, s, s');
    } else if s' == s.(phase := Idle) {
      FreeKeeps(t, s, Idle);
    } else if s' == Falter(s) {
      FalterKeeps(t, s);
    } else if Edited(s, s') {
      EditedKeeps(t, s, s');
    }
  }

  // ---- whole runs ----

  ghost predicate IsRun(t: Tools, run: seq<State>, faults: bool) {
    run != [] && forall i :: 0 < i < |run| ==> Step(t, run[i - 1], run[i], faults)
  }

  ghost predicate NeverUndone(t: Tools, run: seq<State>) {
    forall i :: 0 < i < |run| ==> NotUndone(t, run[i - 1], run[i])
  }

  /** No build is running, and the stamp pair, if any, is coherent. */
  ghost predicate Initial(t: Tools, s: State) {
    s.phase.Idle? && s.stamps.Whole? && Pair(t, s.disk)
  }

  lemma {:induction false} RunKeeps(t: Tools, run: seq<State>, faults: bool, n: nat)
    requires Sound(t) && IsRun(t, run, faults) && NeverUndone(t, run) && Initial(t, run[0]) && n < |run|
    ensures Inv(t, run[n])
    decreases n
  {
    if n == 0 {
    } else {
      RunKeeps(t, run, faults, n - 1);
      StepKeeps(t, run[n - 1], run[n], faults);
    }
  }

  /** In every run, with any number of builds cut anywhere, edits and losses at
      any time and any hash or write failing: unless a generation has begun on a
      half-written pair, the stamps call the outputs current only if they are
      those of the grammar. */
  lemma StampsNeverLie(t: Tools, run: seq<State>, faults: bool, n: nat)
    requires Sound(t) && IsRun(t, run, faults) && NeverUndone(t, run) && Initial(t, run[0]) && n < |run|
    ensures !run[n].stamps.Spoiled? && ShellCurrent(t, run[n].disk) ==> Fits(t, run[n].disk)
    ensures run[n].stamps.Whole? ==> Pair(t, run[n].disk)
  {
    RunKeeps(t, run, faults, n);
    if run[n].stamps.Whole? {
      PairStands(t, run[n].disk);
    }
    StandingIsSafe(t, run[n].disk);
  }

  lemma StandingIsSafe(t: Tools, d: Disk)
    ensures Stands(t, d) && ShellCurrent(t, d) ==> Fits(t, d)
  {
    assert ShellCurrent(t, d) ==> Vouches(t, d.grammarStamp, d.manifest, d.grammar, d.outputs);
  }

  // ---- runs that reach a given state ----

  ghost predicate Goes(t: Tools, run: seq<State>, a: State, b: State, careful: bool) {
    IsRun(t, run, false) && (careful ==> NeverUndone(t, run)) && run[0] == a && run[|run| - 1] == b
  }

  /** Some run without a failing hash or write leads from `a` to `b`; a careful
      one has no undone edit either. */
  ghost predicate Reaches(t: Tools, a: State, b: State, careful: bool) {
    exists run :: Goes(t, run, a, b, careful)
  }

  lemma ReachesSelf(t: Tools, a: State, careful: bool)
    ensures Reaches(t, a, a, careful)
  {
    assert Goes(t, [a], a, a, careful);
  }

  lemma ReachesStep(t: Tools, a: State, b: State, c: State, careful: bool)
    requires Reaches(t, a, b, careful) && Step(t, b, c, false) && (careful ==> NotUndone(t, b, c))
    ensures Reaches(t, a, c, careful)
  {
    var run :| Goes(t, run, a, b, careful);
    var longer := run + [c];
    assert forall i :: 0 <= i < |run| ==> longer[i] == run[i];
    assert Goes(t, longer, a, c, careful);
  }

  lemma ReachesWork(t: Tools, a: State, b: State, careful: bool)
    requires Reaches(t, a, b, careful) && (careful ==> NotUndone(t, b, Work(t, b)))
    ensures Reaches(t, a, Work(t, b), careful)
  {
    ReachesStep(t, a, b, Work(t, b), careful);
  }

  lemma ReachesCheckout(t: Tools, a: State, b: State, g: string, careful: bool)
    requires Reaches(t, a, b, careful)
    requires careful ==> !b.phase.Verified?
    ensures Reaches(t, a, Checkout(b, g), careful)
  {
    ReachesStep(t, a, b, Checkout(b, g), careful);
  }

  function Checkout(s: State, g: string): State {
    s.(disk := s.disk.(grammar := g))
  }

  function Cut(s: State): State {
    s.(phase := Idle)
  }

  /** A build that has to generate, up to the hash it takes beforehand. */
  lemma ReachesReady(t: Tools, a: State, b: State, out: string, careful: bool)
    requires Reaches(t, a, b, careful) && b.phase.Idle?
    requires NeedsGenerate(t, b.disk, out, t.content(b.disk.grammar)) && !ShellCurrent(t, b.disk)
    ensures Reaches(t, a, ReadyState(t, b, out), careful)
  {
    var hash := t.content(b.disk.grammar);
    var b1 := Begin(t, b, out);
    ReachesStep(t, a, b, b1, careful);
    ReachesWork(t, a, b1, careful);
    var b2 := b.(phase := Stale(out, hash));
    assert Work(t, b1) == b2;
    ReachesWork(t, a, b2, careful);
    var b3 := b.(phase := Unproven(out, hash));
    assert Work(t, b2) == b3;
    ReachesWork(t, a, b3, careful);
  }

  function ReadyState(t: Tools, s: State, out: string): State {
    var g := s.disk.grammar;
    s.(phase := Ready(out, t.content(g), Some(t.sha(g))))
  }

  function VerifiedState(t: Tools, s: State): State
    requires s.phase.Ready?
  {
    State(Generated(t, s.disk), Verified(s.phase.out, s.phase.hash, s.phase.before, s.disk.grammar),
          if s.stamps.Whole? then Whole else Spoiled)
  }

  lemma ReachesVerified(t: Tools, a: State, b: State, careful: bool)
    requires Reaches(t, a, b, careful) && b.phase.Ready?
    ensures Reaches(t, a, VerifiedState(t, b), careful)
  {
    ReachesWork(t, a, b, careful);
    ReachesWork(t, a, Work(t, b), careful);
    assert Work(t, Work(t, b)) == VerifiedState(t, b);
  }

  /** Both stamps written, the output directory's not yet. */
  function StampedState(t: Tools, s: State): State
    requires s.phase.Verified? && Complete(s.disk.outputs)
  {
    State(Stamped(t, s.disk, s.disk.grammar), Closing(s.phase.out, s.phase.hash), Whole)
  }

  function HalfState(t: Tools, s: State): State
    requires s.phase.Verified? && Complete(s.disk.outputs)
  {
    State(s.disk.(grammarStamp := Some(t.sha(s.disk.grammar))),
          HalfStamped(s.phase.out, s.phase.hash, Attestation(t, s.disk.outputs), s.phase.consumed, s.disk.grammar),
          Half)
  }

  lemma ReachesHalf(t: Tools, a: State, b: State, careful: bool)
    requires Reaches(t, a, b, careful) && b.phase.Verified? && Complete(b.disk.outputs)
    requires b.phase.before == Some(t.sha(b.disk.grammar))
    requires careful ==> Same(t.generate(b.phase.consumed), t.generate(b.disk.grammar))
    ensures Reaches(t, a, HalfState(t, b), careful)
  {
    ReachesWork(t, a, b, careful);
    ReachesWork(t, a, Work(t, b), careful);
    assert Work(t, Work(t, b)) == HalfState(t, b);
  }

  lemma ReachesStamped(t: Tools, a: State, b: State, careful: bool)
    requires Reaches(t, a, b, careful) && b.phase.Verified? && Complete(b.disk.outputs)
    requires b.phase.before == Some(t.sha(b.disk.grammar))
    requires careful ==> Same(t.generate(b.phase.consumed), t.generate(b.disk.grammar))
    ensures Reaches(t, a, StampedState(t, b), careful)
  {
    ReachesHalf(t, a, b, careful);
    ReachesWork(t, a, HalfState(t, b), careful);
    assert Work(t, HalfState(t, b)) == StampedState(t, b);
  }

  // ---- undisturbed builds ----

  ghost function Works(t: Tools, s: State, n: nat): State
    decreases n
  {
    if n == 0 then s else Works(t, Work(t, s), n - 1)
  }

  lemma {:induction false} IdleStays(t: Tools, s: State, n: nat)
    requires s.phase.Idle?
    ensures Works(t, s, n) == s
    decreases n
  {
    if n == 0 {
    } else {
      IdleStays(t, s, n - 1);
    }
  }

  lemma WorksTwo(t: Tools, s: State, n: nat)
    ensures Works(t, s, n + 2) == Works(t, Work(t, Work(t, s)), n)
  {
    assert Works(t, Work(t, s), n + 1) == Works(t, Work(t, Work(t, s)), n);
  }

  /** Generation and both stamps, once the grammar is hashed. */
  lemma ReadyWorks(t: Tools, r: State, n: nat)
    requires Sound(t) && r.phase.Ready? && r.phase.before == Some(t.sha(r.disk.grammar))
    ensures Complete(VerifiedState(t, r).disk.outputs)
    ensures Works(t, r, n + 5) == Works(t, StampedState(t, VerifiedState(t, r)), n)
  {
    var v := VerifiedState(t, r);
    assert Complete(t.generate(r.disk.grammar));
    WorksTwo(t, r, n + 3);
    assert Work(t, Work(t, r)) == v;
    WorksTwo(t, v, n + 1);
    assert Work(t, Work(t, v)) == HalfState(t, v);
    assert Work(t, HalfState(t, v)) == StampedState(t, v);
  }

  lemma UnprovenWorks(t: Tools, a: State, out: string, n: nat)
    requires a.phase.Idle?
    requires NeedsGenerate(t, a.disk, out, t.content(a.disk.grammar)) && !ShellCurrent(t, a.disk)
    ensures Works(t, Begin(t, a, out), n + 3) == Works(t, ReadyState(t, a, out), n)
  {
    var hash := t.content(a.disk.grammar);
    var b, c := a.(phase := Stale(out, hash)), a.(phase := Unproven(out, hash));
    WorksTwo(t, Begin(t, a, out), n + 1);
    assert Work(t, Begin(t, a, out)) == b && Work(t, b) == c;
    assert Works(t, c, n + 1) == Works(t, Work(t, c), n);
  }

  lemma FullBuildWorks(t: Tools, a: State, out: string, n: nat)
    requires Sound(t) && a.phase.Idle?
    requires NeedsGenerate(t, a.disk, out, t.content(a.disk.grammar)) && !ShellCurrent(t, a.disk)
    ensures Works(t, Begin(t, a, out), n + 9) == State(Built(t, a.disk, out), Idle, Whole)
  {
    var r := ReadyState(t, a, out);
    UnprovenWorks(t, a, out, n + 6);
    ReadyWorks(t, r, n + 1);
    var e := StampedState(t, VerifiedState(t, r));
    assert Works(t, e, n + 1) == Works(t, Work(t, e), n);
    IdleStays(t, Work(t, e), n);
    StampedIsBuilt(t, a, out);
  }

  lemma StampedIsBuilt(t: Tools, a: State, out: string)
    requires Sound(t) && a.phase.Idle?
    requires NeedsGenerate(t, a.disk, out, t.content(a.disk.grammar)) && !ShellCurrent(t, a.disk)
    ensures var v := VerifiedState(t, ReadyState(t, a, out));
            Complete(v.disk.outputs) && Work(t, StampedState(t, v)) == State(Built(t, a.disk, out), Idle, Whole)
  {
    assert Complete(t.generate(a.disk.grammar));
  }

  lemma SkipWorks(t: Tools, a: State, out: string, n: nat)
    requires a.phase.Idle? && NeedsGenerate(t, a.disk, out, t.content(a.disk.grammar)) && ShellCurrent(t, a.disk)
    ensures Works(t, Begin(t, a, out), n + 9) == a.(disk := OutStamped(a.disk, out, t.content(a.disk.grammar)))
  {
    var hash := t.content(a.disk.grammar);
    var b, c := a.(phase := Stale(out, hash)), a.(phase := Closing(out, hash));
    WorksTwo(t, Begin(t, a, out), n + 7);
    assert Work(t, Begin(t, a, out)) == b && Work(t, b) == c;
    assert Works(t, c, n + 7) == Works(t, Work(t, c), n + 6);
    IdleStays(t, Work(t, c), n + 6);
  }

  /** Left alone for nine steps or more, the machine has done what the build
      script is specified to do, and a build that generates leaves a whole pair. */
  lemma UndisturbedBuild(t: Tools, a: State, out: string, n: nat)
    requires Sound(t) && a.phase.Idle?
    ensures var generates := NeedsGenerate(t, a.disk, out, t.content(a.disk.grammar)) && !ShellCurrent(t, a.disk);
            Works(t, Begin(t, a, out), n + 9) ==
            State(Built(t, a.disk, out), Idle, if generates then Whole else a.stamps)
  {
    var b := Begin(t, a, out);
    if !NeedsGenerate(t, a.disk, out, t.content(a.disk.grammar)) {
      assert Works(t, b, n + 9) == Works(t, Work(t, b), n + 8);
      IdleStays(t, Work(t, b), n + 8);
    } else if ShellCurrent(t, a.disk) {
      SkipWorks(t, a, out, n);
    } else {
      FullBuildWorks(t, a, out, n);
    }
  }
}
