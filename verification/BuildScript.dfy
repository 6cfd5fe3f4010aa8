/** The build script itself, with everything that may go wrong in one call.
    Whatever happens, what it does to the disk is a run of the phase machine. */
module BuildScript {
  import opened Outcomes
  import opened Manifest
  import opened Staleness
  import opened StalenessRuns

  /** What happens during one build: which groups of hashes and which writes
      succeed, the grammar the generator reads, and the one there afterwards. */
  datatype Events = Events(checkHashes: bool, shellHashes: bool, beforeHash: bool, consumed: string, after: string,
                           afterHash: bool, outputHashes: bool,
                           writesGrammar: bool, writesManifest: bool, writesOut: bool)

  /** Nothing fails and nobody edits. */
  function Undisturbed(grammar: string): Events {
    Events(true, true, true, grammar, grammar, true, true, true, true, true)
  }

  /** Some run leads from `a` to `b`. */
  ghost predicate Follows(t: Tools, a: State, b: State) {
    exists run :: IsRun(t, run, true) && run[0] == a && run[|run| - 1] == b
  }

  lemma FollowsSelf(t: Tools, a: State)
    ensures Follows(t, a, a)
  {
    assert IsRun(t, [a], true);
  }

  lemma FollowsStep(t: Tools, a: State, b: State, c: State)
    requires Follows(t, a, b) && Step(t, b, c, true)
    ensures Follows(t, a, c)
  {
    var run :| IsRun(t, run, true) && run[0] == a && run[|run| - 1] == b;
    var longer := run + [c];
    assert forall i :: 0 <= i < |run| ==> longer[i] == run[i];
    assert IsRun(t, longer, true);
  }

  lemma FollowsWork(t: Tools, a: State, b: State)
    requires Follows(t, a, b)
    ensures Follows(t, a, Work(t, b))
  {
    FollowsStep(t, a, b, Work(t, b));
  }

  lemma FollowsFalter(t: Tools, a: State, b: State)
    requires Follows(t, a, b)
    ensures Follows(t, a, Falter(b))
  {
    FollowsStep(t, a, b, Falter(b));
  }

  lemma FollowsEdit(t: Tools, a: State, b: State, g: string)
    requires Follows(t, a, b)
    ensures Follows(t, a, Checkout(b, g))
  {
    FollowsStep(t, a, b, Checkout(b, g));
  }

  lemma NothingAttested(text: string)
    ensures !Attests(text, map[])
  {
    assert EXPECTED[0] in EXPECTED;
    if Attests(text, map[]) {
      AttestsOne(text, map[], map[]);
    }
  }

  // ---- the part after generation ----

  /** The disk after the stamps are attempted. */
  function StampsTried(t: Tools, d: Disk, sha: string, hashes: bool, first: bool, second: bool): Disk {
    if !Complete(d.outputs) || !hashes || !first then d
    else if !second then d.(grammarStamp := Some(sha))
    else d.(grammarStamp := Some(sha), manifest := Some(Attestation(t, d.outputs)))
  }

  /** From the verified outputs to the last step. */
  ghost function Tried(t: Tools, s: State, e: Events): State
    requires s.phase.Verified?
  {
    var closing := s.(phase := Closing(s.phase.out, s.phase.hash));
    if !e.afterHash || s.phase.before != Some(t.sha(s.disk.grammar)) then closing
    else
      var d := StampsTried(t, s.disk, t.sha(s.disk.grammar), e.outputHashes, e.writesGrammar, e.writesManifest);
      State(d, closing.phase,
            if !Complete(s.disk.outputs) || !e.outputHashes || !e.writesGrammar then s.stamps
            else if !e.writesManifest then Half else Whole)
  }

  lemma TriedIsRun(t: Tools, a: State, s: State, e: Events)
    requires Follows(t, a, s) && s.phase.Verified?
    ensures Follows(t, a, Tried(t, s, e))
  {
    if !e.afterHash || !e.outputHashes || s.phase.before != Some(t.sha(s.disk.grammar)) || !Complete(s.disk.outputs) {
      FollowsFalter(t, a, s);
    } else {
      StampingIsRun(t, a, s, e);
    }
  }

  lemma StampingIsRun(t: Tools, a: State, s: State, e: Events)
    requires Follows(t, a, s) && s.phase.Verified? && Complete(s.disk.outputs)
    requires e.afterHash && e.outputHashes && s.phase.before == Some(t.sha(s.disk.grammar))
    ensures Follows(t, a, Tried(t, s, e))
  {
    if e.writesGrammar {
      FollowsHalf(t, a, s);
      HalfIsRun(t, a, s, e);
    } else {
      UnwrittenTried(t, s, e);
      FollowsFalter(t, a, s);
    }
  }

  lemma UnwrittenTried(t: Tools, s: State, e: Events)
    requires s.phase.Verified? && !e.writesGrammar
    ensures Tried(t, s, e) == Falter(s)
  {
  }

  /** Both hashes agree and the outputs are hashed. */
  function AttestingState(t: Tools, s: State): State
    requires s.phase.Verified? && Complete(s.disk.outputs)
  {
    var p, g := s.phase, s.disk.grammar;
    s.(phase := Attesting(p.out, p.hash, t.sha(g), Attestation(t, s.disk.outputs), p.consumed, g))
  }

  lemma FollowsAttesting(t: Tools, a: State, s: State)
    requires Follows(t, a, s) && s.phase.Verified? && Complete(s.disk.outputs)
    requires s.phase.before == Some(t.sha(s.disk.grammar))
    ensures Follows(t, a, AttestingState(t, s))
  {
    FollowsWork(t, a, s);
    assert Work(t, s) == AttestingState(t, s);
  }

  lemma FollowsHalf(t: Tools, a: State, s: State)
    requires Follows(t, a, s) && s.phase.Verified? && Complete(s.disk.outputs)
    requires s.phase.before == Some(t.sha(s.disk.grammar))
    ensures Follows(t, a, HalfState(t, s))
  {
    FollowsAttesting(t, a, s);
    FollowsWork(t, a, AttestingState(t, s));
    assert Work(t, AttestingState(t, s)) == HalfState(t, s);
  }

  lemma HalfIsRun(t: Tools, a: State, s: State, e: Events)
    requires s.phase.Verified? && Complete(s.disk.outputs) && Follows(t, a, HalfState(t, s))
    requires e.afterHash && e.outputHashes && e.writesGrammar && s.phase.before == Some(t.sha(s.disk.grammar))
    ensures Follows(t, a, Tried(t, s, e))
  {
    WrittenTried(t, s, e);
    if e.writesManifest {
      FollowsWork(t, a, HalfState(t, s));
    } else {
      FollowsFalter(t, a, HalfState(t, s));
    }
  }

  lemma WrittenTried(t: Tools, s: State, e: Events)
    requires s.phase.Verified? && Complete(s.disk.outputs)
    requires e.afterHash && e.outputHashes && e.writesGrammar && s.phase.before == Some(t.sha(s.disk.grammar))
    ensures Tried(t, s, e) == if e.writesManifest then Work(t, HalfState(t, s)) else Falter(HalfState(t, s))
  {
  }

  /** From the failed shell test to the verified outputs. */
  ghost function Regenerated(t: Tools, s: State, e: Events): State
    requires s.phase.Unproven?
  {
    var p := s.phase;
    State(s.disk.(grammar := e.after, outputs := t.generate(e.consumed), headers := true),
          Verified(p.out, p.hash, if e.beforeHash then Some(t.sha(s.disk.grammar)) else None, e.consumed),
          if s.stamps.Whole? then Whole else Spoiled)
  }

  lemma RegeneratedIsRun(t: Tools, a: State, s: State, e: Events)
    requires Follows(t, a, s) && s.phase.Unproven?
    ensures Follows(t, a, Regenerated(t, s, e))
  {
    var ready := if e.beforeHash then Work(t, s) else Falter(s);
    if e.beforeHash {
      FollowsWork(t, a, s);
    } else {
      FollowsFalter(t, a, s);
    }
    var edited := Checkout(ready, e.consumed);
    FollowsEdit(t, a, ready, e.consumed);
    FollowsWork(t, a, edited);
    FollowsWork(t, a, Work(t, edited));
    var verified := VerifiedState(t, edited);
    assert Work(t, Work(t, edited)) == verified;
    FollowsEdit(t, a, verified, e.after);
    assert Checkout(verified, e.after) == Regenerated(t, s, e);
  }

  // ---- one whole build ----

  /** What remains once the outputs are taken to be stale. */
  ghost function Refreshed(t: Tools, a: State, out: string, e: Events): State {
    var hash := t.content(a.disk.grammar);
    if e.shellHashes && ShellCurrent(t, a.disk) then a.(phase := Closing(out, hash))
    else Tried(t, Regenerated(t, a.(phase := Unproven(out, hash)), e), e)
  }

  /** Where one build leads from an idle state. */
  ghost function BuiltWith(t: Tools, a: State, out: string, e: Events): State {
    if e.checkHashes && !NeedsGenerate(t, a.disk, out, t.content(a.disk.grammar)) then a
    else
      var s := Refreshed(t, a, out, e);
      s.(disk := if e.writesOut then OutStamped(s.disk, out, t.content(a.disk.grammar)) else s.disk, phase := Idle)
  }

  lemma CheckIsRun(t: Tools, a: State, out: string, e: Events)
    requires a.phase.Idle?
    requires !e.checkHashes || NeedsGenerate(t, a.disk, out, t.content(a.disk.grammar))
    ensures Follows(t, a, a.(phase := Stale(out, t.content(a.disk.grammar))))
  {
    var b := Begin(t, a, out);
    FollowsSelf(t, a);
    FollowsStep(t, a, a, b);
    if e.checkHashes {
      FollowsWork(t, a, b);
    } else {
      FollowsFalter(t, a, b);
    }
  }

  lemma RefreshedIsRun(t: Tools, a: State, out: string, e: Events)
    requires a.phase.Idle?
    requires Follows(t, a, a.(phase := Stale(out, t.content(a.disk.grammar))))
    ensures Follows(t, a, Refreshed(t, a, out, e))
  {
    var hash := t.content(a.disk.grammar);
    var stale, unproven := a.(phase := Stale(out, hash)), a.(phase := Unproven(out, hash));
    if e.shellHashes {
      FollowsWork(t, a, stale);
    } else {
      FollowsFalter(t, a, stale);
    }
    if !(e.shellHashes && ShellCurrent(t, a.disk)) {
      assert Follows(t, a, unproven);
      RegeneratedIsRun(t, a, unproven, e);
      TriedIsRun(t, a, Regenerated(t, unproven, e), e);
    }
  }

  lemma RefreshedCloses(t: Tools, a: State, out: string, e: Events)
    ensures Refreshed(t, a, out, e).phase == Closing(out, t.content(a.disk.grammar))
  {
  }

  /** Whatever happens during it, a build is a run of the phase machine. */
  lemma BuiltWithIsRun(t: Tools, a: State, out: string, e: Events)
    requires a.phase.Idle?
    ensures Follows(t, a, BuiltWith(t, a, out, e))
  {
    if e.checkHashes && !NeedsGenerate(t, a.disk, out, t.content(a.disk.grammar)) {
      FollowsSelf(t, a);
    } else {
      CheckIsRun(t, a, out, e);
      RefreshedIsRun(t, a, out, e);
      RefreshedCloses(t, a, out, e);
      if e.writesOut {
        FollowsWork(t, a, Refreshed(t, a, out, e));
      } else {
        FollowsFalter(t, a, Refreshed(t, a, out, e));
      }
    }
  }

  /** With nothing failing and nobody editing, it is the specified build. */
  lemma BuiltWithUndisturbed(t: Tools, a: State, out: string)
    requires GeneratesAll(t.generate) && a.phase.Idle?
    ensures BuiltWith(t, a, out, Undisturbed(a.disk.grammar)).disk == Built(t, a.disk, out)
  {
    assert Complete(t.generate(a.disk.grammar));
  }

  // ---- the script ----

  /** The package a build script runs in. */
  class Package {
    const tools: Tools
    var disk: Disk

    constructor (t: Tools, d: Disk)
      ensures tools == t && disk == d
    {
      tools, disk := t, d;
    }

    /** `hashing` says whether the files hash. */
    method ManifestIsRight(hashing: bool) returns (ok: bool)
      ensures ok == (hashing && ManifestHolds(tools, disk.manifest, disk.outputs))
    {
      if disk.manifest.Some? {
        NothingAttested(disk.manifest.value);
      }
      ok := ManifestMatches(disk.manifest, if hashing then Hashes(tools, disk.outputs) else map[]);
    }

    method NeedsGeneration(out: string, hash: string, hashing: bool) returns (needed: bool)
      ensures needed == (!hashing || NeedsGenerate(tools, disk, out, hash))
    {
      if !Complete(disk.outputs) || !disk.headers || out !in disk.outStamps {
        return true;
      }
      if Trim(disk.outStamps[out]) != hash {
        return true;
      }
      var right := ManifestIsRight(hashing);
      needed := !right;
    }

    method ShellStampIsCurrent(hashing: bool) returns (current: bool)
      ensures current == (hashing && ShellCurrent(tools, disk))
    {
      if !Complete(disk.outputs) || !disk.headers || disk.grammarStamp.None? {
        return false;
      }
      var expected := Trim(disk.grammarStamp.value);
      if expected == "" || !hashing || tools.sha(disk.grammar) != expected {
        return false;
      }
      current := ManifestIsRight(hashing);
    }

    /** The grammar stamp, then the manifest; neither when an output does not
        hash, and nothing more after a write that fails. */
    method WriteShellStamps(sha: string, hashing: bool, first: bool, second: bool)
      modifies this
      ensures disk == StampsTried(tools, old(disk), sha, hashing, first, second)
    {
      if !Complete(disk.outputs) || !hashing {
        return;
      }
      assert EXPECTED[0] == PARSER && EXPECTED[1] == GRAMMAR_JSON && EXPECTED[2] == NODE_TYPES;
      var h := Hashes(tools, disk.outputs);
      var text := RenderManifest(Entries(h));
      if !first {
        return;
      }
      disk := disk.(grammarStamp := Some(sha));
      if second {
        disk := disk.(manifest := Some(text));
      }
    }

    /** Hash, generate, hash again, stamp. */
    method Regenerate(e: Events, ghost s: State)
      requires s.phase.Unproven? && s.disk == disk
      modifies this
      ensures disk == Tried(tools, Regenerated(tools, s, e), e).disk
    {
      var before := if e.beforeHash then Some(tools.sha(disk.grammar)) else None;
      disk := disk.(outputs := tools.generate(e.consumed), headers := true, grammar := e.after);
      if e.afterHash && before == Some(tools.sha(disk.grammar)) {
        WriteShellStamps(before.value, e.outputHashes, e.writesGrammar, e.writesManifest);
      }
    }

    /** `main`. Every execution is a run of the phase machine, so what holds of
        all runs holds of the script; undisturbed, it leaves the specified disk. */
    method Build(out: string, e: Events, ghost stamps: Stamps)
      modifies this
      ensures var a := State(old(disk), Idle, stamps);
              disk == BuiltWith(tools, a, out, e).disk && Follows(tools, a, BuiltWith(tools, a, out, e))
      ensures GeneratesAll(tools.generate) && e == Undisturbed(old(disk).grammar) ==>
                disk == Built(tools, old(disk), out)
    {
      ghost var a := State(disk, Idle, stamps);
      BuiltWithIsRun(tools, a, out, e);
      if GeneratesAll(tools.generate) {
        BuiltWithUndisturbed(tools, a, out);
      }
      var hash := tools.content(disk.grammar);
      var needed := NeedsGeneration(out, hash, e.checkHashes);
      if needed {
        Refresh(out, hash, e, a);
        if e.writesOut {
          disk := OutStamped(disk, out, hash);
        }
      }
    }

    /** Generate, unless the shell stamps vouch for the outputs. */
    method Refresh(out: string, hash: string, e: Events, ghost a: State)
      requires a.disk == disk && hash == tools.content(disk.grammar)
      modifies this
      ensures disk == Refreshed(tools, a, out, e).disk
    {
      var current := ShellStampIsCurrent(e.shellHashes);
      if !current {
        Regenerate(e, a.(phase := Unproven(out, hash)));
      }
    }
  }
}
