/** When the generated parser is taken to be up to date. */
module Staleness {
  import opened Outcomes
  import opened Manifest

  /** File contents by name. */
  type Files = map<string, string>

  /** The hashers and the parser generator. */
  datatype Tools = Tools(sha: string -> string, content: string -> string, generate: string -> Files)

  ghost predicate Injective(f: string -> string) {
    forall a, b :: f(a) == f(b) ==> a == b
  }

  ghost predicate HashTexts(f: string -> string) {
    forall a :: Column(f(a))
  }

  predicate Complete(o: Files) {
    forall name :: name in EXPECTED ==> name in o
  }

  ghost predicate GeneratesAll(f: string -> Files) {
    forall g :: Complete(f(g))
  }

  /** Different contents hash differently, a hash is one column of text, and
      the generator writes every expected output. */
  ghost predicate Sound(t: Tools) {
    && Injective(t.sha) && Injective(t.content) && HashTexts(t.sha) && HashTexts(t.content)
    && GeneratesAll(t.generate)
  }

  /** The package directory, and the stamp in each build's output directory. */
  datatype Disk = Disk(grammar: string, outputs: Files, headers: bool,
                       grammarStamp: Option<string>, manifest: Option<string>, outStamps: map<string, string>)

  function TrimStart(s: string): string {
    if s != "" && IsWhitespace(s[0]) then TrimStart(s[1..]) else s
  }

  function TrimEnd(s: string): string {
    if s != "" && IsWhitespace(s[|s| - 1]) then TrimEnd(s[..|s| - 1]) else s
  }

  function Trim(s: string): string {
    TrimEnd(TrimStart(s))
  }

  lemma TrimColumn(s: string)
    requires Column(s)
    ensures Trim(s) == s
  {
    assert s[0] in s && s[|s| - 1] in s;
  }

  predicate Blank(s: string) {
    forall c :: c in s ==> IsWhitespace(c)
  }

  lemma {:induction false} TrimStartSkips(a: string, s: string)
    requires Blank(a) && (s != "" ==> !IsWhitespace(s[0]))
    ensures TrimStart(a + s) == s
    decreases |a|
  {
    if a == "" {
      assert a + s == s;
    } else {
      assert a[0] in a && (a + s)[0] == a[0] && (a + s)[1..] == a[1..] + s;
      assert forall c :: c in a[1..] ==> c in a;
      TrimStartSkips(a[1..], s);
    }
  }

  lemma {:induction false} TrimEndSkips(s: string, b: string)
    requires Blank(b) && (s != "" ==> !IsWhitespace(s[|s| - 1]))
    ensures TrimEnd(s + b) == s
    decreases |b|
  {
    if b == "" {
      assert s + b == s;
    } else {
      var k := |b| - 1;
      assert b[k] in b && (s + b)[|s + b| - 1] == b[k] && (s + b)[..|s + b| - 1] == s + b[..k];
      assert forall c :: c in b[..k] ==> c in b;
      TrimEndSkips(s, b[..k]);
    }
  }

  /** White space around a stamp, such as a final newline, does not matter. */
  lemma TrimPadded(a: string, s: string, b: string)
    requires Blank(a) && Blank(b) && Column(s)
    ensures Trim(a + s + b) == s
  {
    assert s[0] in s && s[|s| - 1] in s;
    assert a + s + b == a + (s + b) && (s + b)[0] == s[0];
    TrimStartSkips(a, s + b);
    TrimEndSkips(s, b);
  }

  function Hashes(t: Tools, o: Files): map<string, string> {
    map name | name in o :: t.sha(o[name])
  }

  /** The outputs hold, byte for byte, what `made` holds. */
  predicate Same(o: Files, made: Files) {
    forall name :: name in EXPECTED ==> name in o && name in made && o[name] == made[name]
  }

  /** The outputs on disk are those of the grammar on disk. */
  predicate Fits(t: Tools, d: Disk) {
    Same(d.outputs, t.generate(d.grammar))
  }

  // ---- the two staleness tests ----

  predicate Present(d: Disk) {
    Complete(d.outputs) && d.headers
  }

  ghost predicate ManifestHolds(t: Tools, manifest: Option<string>, o: Files) {
    manifest.Some? && Attests(manifest.value, Hashes(t, o))
  }

  /** The stamp pair vouches for these outputs of this grammar. */
  ghost predicate Vouches(t: Tools, stamp: Option<string>, manifest: Option<string>, g: string, o: Files) {
    stamp.Some? && Trim(stamp.value) == t.sha(g) && ManifestHolds(t, manifest, o)
  }

  /** `shell_stamp_is_current`. */
  ghost predicate ShellCurrent(t: Tools, d: Disk) {
    && Present(d)
    && d.grammarStamp.Some? && Trim(d.grammarStamp.value) != ""
    && Vouches(t, d.grammarStamp, d.manifest, d.grammar, d.outputs)
  }

  /** `needs_generate`. It never looks at the grammar stamp beside the outputs. */
  ghost predicate NeedsGenerate(t: Tools, d: Disk, out: string, hash: string) {
    || !Present(d)
    || out !in d.outStamps || Trim(d.outStamps[out]) != hash
    || !ManifestHolds(t, d.manifest, d.outputs)
  }

  // ---- what a stamp pair can promise ----

  /** Right for every grammar and any outputs that could turn up. */
  ghost predicate Coherent(t: Tools, stamp: Option<string>, manifest: Option<string>) {
    forall g, o :: Vouches(t, stamp, manifest, g, o) ==> Same(o, t.generate(g))
  }

  /** Right for every grammar, as long as the outputs stay as they are. */
  ghost predicate Standing(t: Tools, stamp: Option<string>, manifest: Option<string>, o: Files) {
    forall g :: Vouches(t, stamp, manifest, g, o) ==> Same(o, t.generate(g))
  }

  lemma AttestedIsComplete(t: Tools, text: string, o: Files)
    requires Attests(text, Hashes(t, o))
    ensures Complete(o)
  {
    AttestsOne(text, Hashes(t, o), Hashes(t, o));
  }

  /** One manifest holds of only one set of contents. */
  lemma AttestedIsUnique(t: Tools, text: string, a: Files, b: Files)
    requires Injective(t.sha) && Attests(text, Hashes(t, a)) && Attests(text, Hashes(t, b))
    ensures Same(a, b)
  {
    AttestsOne(text, Hashes(t, a), Hashes(t, b));
    forall name | name in EXPECTED
      ensures name in a && name in b && a[name] == b[name]
    {
      assert name in Hashes(t, a) && name in Hashes(t, b) && Hashes(t, a)[name] == Hashes(t, b)[name];
    }
  }

  predicate Part(a: Files, b: Files) {
    forall name :: name in a ==> name in b && a[name] == b[name]
  }

  lemma AttestedPart(t: Tools, text: string, a: Files, b: Files)
    requires Part(a, b) && Attests(text, Hashes(t, a))
    ensures Attests(text, Hashes(t, b)) && Same(a, b)
  {
    var es := Parse(text).value;
    forall i | 0 <= i < |es|
      ensures es[i].path in Hashes(t, b) && Hashes(t, b)[es[i].path] == es[i].hash
    {
      assert es[i].path in Hashes(t, a) && Hashes(t, a)[es[i].path] == es[i].hash;
    }
    AttestedIsComplete(t, text, a);
  }

  /** The manifest that hashing these outputs gives. */
  function Attestation(t: Tools, o: Files): string
    requires Complete(o)
  {
    assert forall name :: name in EXPECTED ==> name in o;
    assert EXPECTED[0] == PARSER && EXPECTED[1] == GRAMMAR_JSON && EXPECTED[2] == NODE_TYPES;
    ManifestOf(Hashes(t, o))
  }

  lemma FreshHolds(t: Tools, o: Files)
    requires HashTexts(t.sha) && Complete(o)
    ensures Attests(Attestation(t, o), Hashes(t, o))
  {
    var h := Hashes(t, o);
    assert EXPECTED[0] == PARSER && EXPECTED[1] == GRAMMAR_JSON && EXPECTED[2] == NODE_TYPES;
    assert LegalHashes(h);
    FreshAttests(h);
  }

  /** A manifest that holds of some outputs holds of any with the same contents. */
  lemma HoldsOfSame(t: Tools, manifest: Option<string>, a: Files, b: Files)
    requires ManifestHolds(t, manifest, a) && Same(a, b)
    ensures ManifestHolds(t, manifest, b)
  {
    var es := Parse(manifest.value).value;
    forall i | 0 <= i < |es|
      ensures es[i].path in Hashes(t, b) && Hashes(t, b)[es[i].path] == es[i].hash
    {
      assert Paths(es)[i] in multiset(Paths(es));
      assert es[i].path in EXPECTED;
      assert es[i].path in Hashes(t, a) && Hashes(t, a)[es[i].path] == es[i].hash;
    }
  }

  /** When a pair is coherent, told from its two stamps: the manifest holds of
      the outputs of the grammar that the other stamp names, or of nothing. */
  lemma CoherentIff(t: Tools, g: string, manifest: Option<string>)
    requires Sound(t)
    ensures Coherent(t, Some(t.sha(g)), manifest) <==>
            ManifestHolds(t, manifest, t.generate(g)) || forall o :: !ManifestHolds(t, manifest, o)
  {
    TrimColumn(t.sha(g));
    if Coherent(t, Some(t.sha(g)), manifest) {
      if o :| ManifestHolds(t, manifest, o) {
        assert Vouches(t, Some(t.sha(g)), manifest, g, o);
        HoldsOfSame(t, manifest, o, t.generate(g));
      }
    }
    if ManifestHolds(t, manifest, t.generate(g)) {
      forall g', o | Vouches(t, Some(t.sha(g)), manifest, g', o)
        ensures Same(o, t.generate(g'))
      {
        AttestedIsUnique(t, manifest.value, o, t.generate(g));
      }
    }
  }

  /** The pair a build writes, having stamped `g` while the generator consumed
      another grammar: coherent exactly when both generate the same. */
  lemma WrittenPairIff(t: Tools, g: string, consumed: string)
    requires Sound(t)
    ensures Complete(t.generate(consumed))
    ensures Coherent(t, Some(t.sha(g)), Some(Attestation(t, t.generate(consumed)))) <==>
            Same(t.generate(consumed), t.generate(g))
  {
    var made := t.generate(consumed);
    assert Complete(made);
    var manifest := Some(Attestation(t, made));
    FreshHolds(t, made);
    CoherentIff(t, g, manifest);
    assert ManifestHolds(t, manifest, made);
    if ManifestHolds(t, manifest, t.generate(g)) {
      AttestedIsUnique(t, manifest.value, made, t.generate(g));
    }
    if Same(made, t.generate(g)) {
      HoldsOfSame(t, manifest, made, t.generate(g));
    }
  }

  /** With only the grammar stamp written, the pair is right about the outputs
      just generated, whatever the old manifest says. */
  lemma HalfPair(t: Tools, g: string, consumed: string, manifest: Option<string>, o: Files)
    requires Sound(t) && Part(o, t.generate(consumed)) && Same(t.generate(consumed), t.generate(g))
    ensures Standing(t, Some(t.sha(g)), manifest, o)
  {
    TrimColumn(t.sha(g));
    forall g' | Vouches(t, Some(t.sha(g)), manifest, g', o)
      ensures Same(o, t.generate(g'))
    {
      AttestedPart(t, manifest.value, o, t.generate(consumed));
    }
  }

  lemma StandingLoses(t: Tools, stamp: Option<string>, manifest: Option<string>, o: Files, left: Files)
    requires Standing(t, stamp, manifest, o) && Part(left, o)
    ensures Standing(t, stamp, manifest, left)
  {
    forall g | Vouches(t, stamp, manifest, g, left)
      ensures Same(left, t.generate(g))
    {
      AttestedPart(t, manifest.value, left, o);
      assert Vouches(t, stamp, manifest, g, o);
    }
  }

  // ---- an undisturbed build ----

  function Generated(t: Tools, d: Disk): Disk {
    d.(outputs := t.generate(d.grammar), headers := true)
  }

  function Stamped(t: Tools, d: Disk, g: string): Disk
    requires Complete(d.outputs)
  {
    d.(grammarStamp := Some(t.sha(g)), manifest := Some(Attestation(t, d.outputs)))
  }

  function OutStamped(d: Disk, out: string, hash: string): Disk {
    d.(outStamps := d.outStamps[out := hash])
  }

  /** What the build script leaves when nothing fails and nobody edits. */
  ghost function Built(t: Tools, d: Disk, out: string): Disk
    requires GeneratesAll(t.generate)
  {
    var hash := t.content(d.grammar);
    if !NeedsGenerate(t, d, out, hash) then d
    else if ShellCurrent(t, d) then OutStamped(d, out, hash)
    else
      assert Complete(t.generate(d.grammar));
      OutStamped(Stamped(t, Generated(t, d), d.grammar), out, hash)
  }

  /** A finished build is not repeated: the next test answers no. */
  lemma BuiltSettles(t: Tools, d: Disk, out: string)
    requires Sound(t)
    ensures !NeedsGenerate(t, Built(t, d, out), out, t.content(d.grammar))
    ensures Built(t, Built(t, d, out), out) == Built(t, d, out)
  {
    TrimColumn(t.content(d.grammar));
    assert Complete(t.generate(d.grammar));
    FreshHolds(t, t.generate(d.grammar));
  }

  /** A finished build keeps a coherent pair coherent, leaves the outputs of the
      grammar unless the first test was misled, and makes any pair coherent
      when it generates. */
  lemma BuiltCoherent(t: Tools, d: Disk, out: string)
    requires Sound(t)
    ensures var b := Built(t, d, out);
            Coherent(t, d.grammarStamp, d.manifest) ==> Coherent(t, b.grammarStamp, b.manifest)
    ensures NeedsGenerate(t, d, out, t.content(d.grammar)) && !ShellCurrent(t, d) ==>
              var b := Built(t, d, out); Coherent(t, b.grammarStamp, b.manifest) && Fits(t, b)
    ensures NeedsGenerate(t, d, out, t.content(d.grammar)) && Coherent(t, d.grammarStamp, d.manifest) ==>
              Fits(t, Built(t, d, out))
  {
    WrittenPairIff(t, d.grammar, d.grammar);
    if NeedsGenerate(t, d, out, t.content(d.grammar)) && !ShellCurrent(t, d) {
      var b := Built(t, d, out);
      assert b.outputs == t.generate(d.grammar);
      assert b.manifest == Some(Attestation(t, b.outputs)) && b.grammarStamp == Some(t.sha(d.grammar));
    }
  }

  /** After any finished build everything the compiler needs is there, and the
      test says no only if it is: outputs and headers, and stamps that hold up to
      white space around the hash. */
  lemma BuiltIsUsable(t: Tools, d: Disk, out: string)
    requires Sound(t)
    ensures var b := Built(t, d, out); Complete(b.outputs) && b.headers
    ensures forall hash :: !NeedsGenerate(t, d, out, hash) ==> Complete(d.outputs) && d.headers
  {
    assert Complete(t.generate(d.grammar));
  }

  /** A build's own stamps with white space around them are as good: neither test
      asks for another generation. */
  lemma PaddedStampsServe(t: Tools, d: Disk, out: string, a: string, b: string)
    requires Sound(t) && Blank(a) && Blank(b)
    requires d.outputs == t.generate(d.grammar) && d.headers
    requires Complete(d.outputs) && d.manifest == Some(Attestation(t, d.outputs))
    ensures d.grammarStamp == Some(a + t.sha(d.grammar) + b) ==> ShellCurrent(t, d)
    ensures out in d.outStamps && d.outStamps[out] == a + t.content(d.grammar) + b ==>
              !NeedsGenerate(t, d, out, t.content(d.grammar))
  {
    FreshHolds(t, d.outputs);
    TrimPadded(a, t.sha(d.grammar), b);
    TrimPadded(a, t.content(d.grammar), b);
    assert Column(t.sha(d.grammar));
  }

  // ---- when `needs_generate` is right ----

  /** A negative answer is right exactly when the manifest also holds of what
      the current grammar generates. */
  lemma QuietFitsIff(t: Tools, d: Disk, out: string, hash: string)
    requires Sound(t) && !NeedsGenerate(t, d, out, hash)
    ensures Fits(t, d) <==> ManifestHolds(t, d.manifest, t.generate(d.grammar))
  {
    if Fits(t, d) {
      HoldsOfSame(t, d.manifest, d.outputs, t.generate(d.grammar));
    }
    if ManifestHolds(t, d.manifest, t.generate(d.grammar)) {
      AttestedIsUnique(t, d.manifest.value, d.outputs, t.generate(d.grammar));
    }
  }

  /** With a coherent pair the grammar stamp decides: if it names the current
      grammar the answer is right, and if it names another one, the answer is
      right exactly when both generate the same. */
  lemma QuietFitsByStamp(t: Tools, d: Disk, out: string, g: string)
    requires Sound(t) && Coherent(t, d.grammarStamp, d.manifest) && d.grammarStamp == Some(t.sha(g))
    requires !NeedsGenerate(t, d, out, t.content(d.grammar))
    ensures Fits(t, d) <==> Same(t.generate(g), t.generate(d.grammar))
    ensures g == d.grammar ==> Fits(t, d)
  {
    TrimColumn(t.sha(g));
    assert Vouches(t, d.grammarStamp, d.manifest, g, d.outputs);
    assert Same(d.outputs, t.generate(g));
  }

  lemma BuildGenerates(t: Tools, d: Disk, out: string)
    requires Sound(t) && out !in d.outStamps
    requires d.grammarStamp.Some? ==> Trim(d.grammarStamp.value) != t.sha(d.grammar)
    ensures var b, made := Built(t, d, out), t.generate(d.grammar);
            && b.outputs == made && b.headers && b.grammarStamp == Some(t.sha(d.grammar))
            && Complete(made) && b.manifest == Some(Attestation(t, made))
            && b.outStamps == d.outStamps[out := t.content(d.grammar)]
  {
    assert Complete(t.generate(d.grammar));
  }

  /** A disk whose output directory stamp and manifest are in order, but for
      different grammars. */
  lemma MixedStampsMislead(t: Tools, d: Disk, out: string, g1: string)
    requires Sound(t) && !Same(t.generate(g1), t.generate(d.grammar))
    requires d.outputs == t.generate(g1) && d.headers && Complete(d.outputs)
    requires d.manifest == Some(Attestation(t, d.outputs))
    requires out in d.outStamps && d.outStamps[out] == t.content(d.grammar)
    ensures !NeedsGenerate(t, d, out, t.content(d.grammar)) && !Fits(t, d)
  {
    TrimColumn(t.content(d.grammar));
    FreshHolds(t, d.outputs);
  }

  /** Two output directories over one `src`: the test answers no for outputs of
      another grammar. */
  lemma TwoOutDirsMislead(t: Tools, d: Disk, a: string, b: string, g0: string, g1: string)
    requires Sound(t) && a != b && !Same(t.generate(g1), t.generate(g0))
    requires d.grammarStamp.None? && a !in d.outStamps && b !in d.outStamps
    ensures var first := Built(t, d.(grammar := g0), a);
            var second := Built(t, first.(grammar := g1), b).(grammar := g0);
            !NeedsGenerate(t, second, a, t.content(g0)) && !Fits(t, second)
  {
    TrimColumn(t.sha(g0));
    BuildGenerates(t, d.(grammar := g0), a);
    var first := Built(t, d.(grammar := g0), a).(grammar := g1);
    assert g0 != g1 by {
      assert Complete(t.generate(g0));
    }
    BuildGenerates(t, first, b);
    MixedStampsMislead(t, Built(t, first, b).(grammar := g0), a, g1);
  }

  /** The stamp of this output directory is right about the outputs, whatever
      grammar is checked out next. */
  ghost predicate Honest(t: Tools, d: Disk, out: string) {
    forall g :: !NeedsGenerate(t, d, out, t.content(g)) ==> Same(d.outputs, t.generate(g))
  }

  lemma BuiltHonest(t: Tools, d: Disk, out: string)
    requires Sound(t) && Coherent(t, d.grammarStamp, d.manifest) && Honest(t, d, out)
    ensures Honest(t, Built(t, d, out), out)
  {
    var b := Built(t, d, out);
    BuiltCoherent(t, d, out);
    TrimColumn(t.content(d.grammar));
    forall g | !NeedsGenerate(t, b, out, t.content(g))
      ensures Same(b.outputs, t.generate(g))
    {
      if NeedsGenerate(t, d, out, t.content(d.grammar)) {
        assert g == d.grammar;
      }
    }
  }

  /** A build for each of these grammars, checked out in turn. */
  ghost function Builds(t: Tools, d: Disk, out: string, grammars: seq<string>): Disk
    requires Sound(t)
    decreases |grammars|
  {
    if grammars == [] then d else Builds(t, Built(t, d.(grammar := grammars[0]), out), out, grammars[1..])
  }

  /** With one output directory and only finished builds, a negative answer is
      always right. */
  lemma {:induction false} OneOutDirIsHonest(t: Tools, d: Disk, out: string, grammars: seq<string>)
    requires Sound(t) && Coherent(t, d.grammarStamp, d.manifest) && Honest(t, d, out)
    ensures Honest(t, Builds(t, d, out, grammars), out)
    decreases |grammars|
  {
    if grammars == [] {
    } else {
      var next := d.(grammar := grammars[0]);
      assert Honest(t, next, out) by {
        assert forall g :: NeedsGenerate(t, next, out, t.content(g)) == NeedsGenerate(t, d, out, t.content(g));
      }
      BuiltHonest(t, next, out);
      BuiltCoherent(t, next, out);
      OneOutDirIsHonest(t, Built(t, next, out), out, grammars[1..]);
    }
  }
}
