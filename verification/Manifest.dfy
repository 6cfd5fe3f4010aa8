/** The content manifest of the generated parser: its text, its reader, and
    what it attests. */
module Manifest {
  import opened Outcomes
  import opened Sequences
  import opened Text

  /** One `<hash>  <path>` line. */
  datatype Entry = Entry(hash: string, path: string)

  /** Rust's `char::is_whitespace`. */
  predicate IsWhitespace(c: char) {
    || '\t' <= c <= '\r' || c == ' ' || c == '\U{85}' || c == '\U{A0}' || c == '\U{1680}'
    || '\U{2000}' <= c <= '\U{200A}' || c == '\U{2028}' || c == '\U{2029}'
    || c == '\U{202F}' || c == '\U{205F}' || c == '\U{3000}'
  }

  predicate Column(s: string) {
    s != "" && forall c :: c in s ==> !IsWhitespace(c)
  }

  predicate Legal(e: Entry) {
    Column(e.hash) && Column(e.path)
  }

  predicate AllLegal(es: seq<Entry>) {
    forall e :: e in es ==> Legal(e)
  }

  // ---- reading ----

  function StripReturn(line: string): string {
    if line != "" && line[|line| - 1] == '\r' then line[..|line| - 1] else line
  }

  /** Rust's `str::lines`: the last line needs no newline, and a carriage
      return goes only with the newline after it. */
  function Lines(text: string): seq<string>
    decreases |text|
  {
    var k := IndexOf(text, '\n');
    if text == "" then []
    else if k == |text| then [text]
    else [StripReturn(text[..k])] + Lines(text[k + 1..])
  }

  predicate GapAt(line: string, i: int) {
    0 <= i && i + 1 < |line| && line[i] == ' ' && line[i + 1] == ' '
  }

  /** Position of the first two-space gap, or |line|. */
  function Gap(line: string): (k: nat)
    ensures k == |line| || GapAt(line, k)
    ensures forall i :: 0 <= i < k ==> !GapAt(line, i)
  {
    if line == "" || GapAt(line, 0) then 0
    else
      assert forall i :: 1 <= i < |line| ==> GapAt(line, i) == GapAt(line[1..], i - 1);
      1 + Gap(line[1..])
  }

  function ReadEntry(line: string): Option<Entry> {
    var k := Gap(line);
    if k == |line| then None
    else
      var e := Entry(line[..k], line[k + 2..]);
      if Legal(e) then Some(e) else None
  }

  function ReadEntries(lines: seq<string>): Option<seq<Entry>> {
    if lines == [] then Some([])
    else
      var first, rest := ReadEntry(lines[0]), ReadEntries(lines[1..]);
      if first.Some? && rest.Some? then Some([first.value] + rest.value) else None
  }

  /** All lines or nothing, and never an empty manifest. */
  function Parse(text: string): Option<seq<Entry>> {
    var es := ReadEntries(Lines(text));
    if es == Some([]) then None else es
  }

  function Then(entries: seq<Entry>, rest: Option<seq<Entry>>): Option<seq<Entry>> {
    if rest.Some? then Some(entries + rest.value) else None
  }

  lemma ReadNext(entries: seq<Entry>, lines: seq<string>)
    requires lines != []
    ensures ReadEntry(lines[0]).None? ==> Then(entries, ReadEntries(lines)) == None
    ensures ReadEntry(lines[0]).Some? ==>
              Then(entries, ReadEntries(lines)) == Then(entries + [ReadEntry(lines[0]).value], ReadEntries(lines[1..]))
  {
    var first, rest := ReadEntry(lines[0]), ReadEntries(lines[1..]);
    if first.Some? && rest.Some? {
      assert entries + ([first.value] + rest.value) == entries + [first.value] + rest.value;
    }
  }

  method ParseManifest(text: string) returns (r: Option<seq<Entry>>)
    ensures r == Parse(text)
  {
    var lines, entries := Lines(text), [];
    ghost var whole := ReadEntries(lines);
    assert lines[0..] == lines;
    assert whole.Some? ==> [] + whole.value == whole.value;
    for i := 0 to |lines|
      invariant |entries| == i
      invariant whole == Then(entries, ReadEntries(lines[i..]))
    {
      ReadNext(entries, lines[i..]);
      assert lines[i..][1..] == lines[i + 1..];
      var entry := ReadEntry(lines[i]);
      if entry.None? {
        return None;
      }
      entries := entries + [entry.value];
    }
    assert lines[|lines|..] == [];
    assert entries + [] == entries;
    r := if entries == [] then None else Some(entries);
  }

  // ---- what is accepted ----

  function Shown(e: Entry): string {
    e.hash + "  " + e.path
  }

  function ShownAll(es: seq<Entry>): (r: seq<string>)
    ensures |r| == |es|
  {
    seq(|es|, i requires 0 <= i < |es| => Shown(es[i]))
  }

  lemma GapAfterHash(e: Entry)
    requires Column(e.hash)
    ensures Gap(Shown(e)) == |e.hash|
  {
    var line, n := Shown(e), |e.hash|;
    assert line[n] == ' ' && line[n + 1] == ' ';
    assert GapAt(line, n);
    forall i | 0 <= i < n
      ensures !GapAt(line, i)
    {
      assert line[i] == e.hash[i] && e.hash[i] in e.hash;
    }
  }

  /** A line reads as `e` exactly when it is `e` printed. */
  lemma ReadEntryIff(line: string, e: Entry)
    ensures ReadEntry(line) == Some(e) <==> Legal(e) && line == Shown(e)
  {
    if Legal(e) && line == Shown(e) {
      GapAfterHash(e);
      assert line[..|e.hash|] == e.hash && line[|e.hash| + 2..] == e.path;
    }
    if ReadEntry(line) == Some(e) {
      var k := Gap(line);
      assert line == line[..k] + line[k..k + 2] + line[k + 2..];
      assert line[k..k + 2] == "  ";
    }
  }

  lemma {:induction false} ReadEntriesIff(lines: seq<string>, es: seq<Entry>)
    ensures ReadEntries(lines) == Some(es) <==> AllLegal(es) && lines == ShownAll(es)
    decreases |lines|
  {
    if lines == [] || es == [] {
      assert lines == [] ==> ShownAll([]) == [];
    } else {
      ReadEntryIff(lines[0], es[0]);
      ReadEntriesIff(lines[1..], es[1..]);
      assert es == [es[0]] + es[1..] && lines == [lines[0]] + lines[1..];
      assert ShownAll(es) == [Shown(es[0])] + ShownAll(es[1..]);
      assert AllLegal(es) <==> Legal(es[0]) && AllLegal(es[1..]);
    }
  }

  /** The accepted texts: exactly the printed lines of legal entries, at least
      one of them. */
  lemma ParseIff(text: string, es: seq<Entry>)
    ensures Parse(text) == Some(es) <==> es != [] && AllLegal(es) && Lines(text) == ShownAll(es)
  {
    ReadEntriesIff(Lines(text), es);
  }

  // ---- rendering ----

  function Insert(e: Entry, es: seq<Entry>): seq<Entry> {
    if es == [] || Leq(e.path, es[0].path) then [e] + es else [es[0]] + Insert(e, es[1..])
  }

  /** A stable sort by path. */
  function SortByPath(es: seq<Entry>): seq<Entry> {
    if es == [] then [] else Insert(es[0], SortByPath(es[1..]))
  }

  predicate Sorted(es: seq<Entry>) {
    |es| > 1 ==> Leq(es[0].path, es[1].path) && Sorted(es[1..])
  }

  /** The entries of one path, in order. */
  function WithPath(es: seq<Entry>, p: string): seq<Entry> {
    if es == [] then []
    else (if es[0].path == p then [es[0]] else []) + WithPath(es[1..], p)
  }

  ghost predicate SameByPath(a: seq<Entry>, b: seq<Entry>) {
    forall p :: WithPath(a, p) == WithPath(b, p)
  }

  lemma {:induction false} InsertCounts(e: Entry, es: seq<Entry>)
    ensures multiset(Insert(e, es)) == multiset(es) + multiset{e}
  {
    if es == [] || Leq(e.path, es[0].path) {
      assert Insert(e, es) == [e] + es;
    } else {
      InsertCounts(e, es[1..]);
      assert es == [es[0]] + es[1..];
    }
  }

  lemma SortedCons(e: Entry, es: seq<Entry>)
    requires Sorted(es) && (es != [] ==> Leq(e.path, es[0].path))
    ensures Sorted([e] + es)
  {
    assert ([e] + es)[1..] == es;
  }

  lemma {:induction false} InsertSorts(e: Entry, es: seq<Entry>)
    requires Sorted(es)
    ensures Sorted(Insert(e, es))
  {
    if es == [] || Leq(e.path, es[0].path) {
      SortedCons(e, es);
    } else {
      LeqTotal(e.path, es[0].path);
      InsertSorts(e, es[1..]);
      SortedCons(es[0], Insert(e, es[1..]));
    }
  }

  lemma {:induction false} InsertKeepsOrder(e: Entry, es: seq<Entry>, p: string)
    ensures WithPath(Insert(e, es), p) == WithPath([e] + es, p)
  {
    assert ([e] + es)[1..] == es;
    if es == [] || Leq(e.path, es[0].path) {
      assert Insert(e, es) == [e] + es;
    } else {
      InsertKeepsOrder(e, es[1..], p);
      assert ([e] + es[1..])[1..] == es[1..];
      assert ([es[0]] + Insert(e, es[1..]))[1..] == Insert(e, es[1..]);
      assert e.path != es[0].path by { LeqTotal(e.path, e.path); }
    }
  }

  lemma {:induction false} SortSorts(es: seq<Entry>)
    ensures Sorted(SortByPath(es)) && multiset(SortByPath(es)) == multiset(es)
  {
    if es == [] {
    } else {
      SortSorts(es[1..]);
      InsertSorts(es[0], SortByPath(es[1..]));
      InsertCounts(es[0], SortByPath(es[1..]));
      assert es == [es[0]] + es[1..];
    }
  }

  lemma {:induction false} SortIsStable(es: seq<Entry>)
    ensures SameByPath(SortByPath(es), es)
  {
    if es == [] {
    } else {
      var rest := SortByPath(es[1..]);
      SortIsStable(es[1..]);
      forall p
        ensures WithPath(SortByPath(es), p) == WithPath(es, p)
      {
        InsertKeepsOrder(es[0], rest, p);
        assert ([es[0]] + rest)[1..] == rest;
        assert WithPath(rest, p) == WithPath(es[1..], p);
      }
    }
  }

  lemma {:induction false} SortedFirst(es: seq<Entry>, p: string)
    requires Sorted(es) && WithPath(es, p) != []
    ensures Leq(es[0].path, p)
  {
    if es[0].path == p {
      LeqTotal(p, p);
    } else {
      SortedFirst(es[1..], p);
      LeqTrans(es[0].path, es[1].path, p);
    }
  }

  lemma BothEmpty(a: seq<Entry>, b: seq<Entry>)
    requires SameByPath(a, b)
    ensures a == [] <==> b == []
  {
    assert a != [] ==> WithPath(a, a[0].path) != [] && WithPath(b, a[0].path) != [];
    assert b != [] ==> WithPath(b, b[0].path) != [] && WithPath(a, b[0].path) != [];
  }

  lemma TailsSameByPath(a: seq<Entry>, b: seq<Entry>)
    requires a != [] && b != [] && a[0] == b[0] && SameByPath(a, b)
    ensures SameByPath(a[1..], b[1..])
  {
    var first := a[0];
    forall p
      ensures WithPath(a[1..], p) == WithPath(b[1..], p)
    {
      assert WithPath(a, p) == WithPath(b, p);
      var own := if first.path == p then [first] else [];
      assert WithPath(a, p)[|own|..] == WithPath(a[1..], p);
      assert WithPath(b, p)[|own|..] == WithPath(b[1..], p);
    }
  }

  /** Any stable sort gives this order, so the choice of algorithm is moot. */
  lemma {:induction false} StableSortUnique(a: seq<Entry>, b: seq<Entry>)
    requires Sorted(a) && Sorted(b) && SameByPath(a, b)
    ensures a == b
  {
    BothEmpty(a, b);
    if a == [] {
    } else {
      var p, q := a[0].path, b[0].path;
      assert WithPath(a, p) != [] && WithPath(b, q) != [];
      assert WithPath(b, p) != [] && WithPath(a, q) != [];
      SortedFirst(a, q);
      SortedFirst(b, p);
      LeqTotal(p, q);
      assert WithPath(a, p)[0] == a[0] && WithPath(b, p)[0] == b[0];
      TailsSameByPath(a, b);
      StableSortUnique(a[1..], b[1..]);
      assert a == [a[0]] + a[1..] && b == [b[0]] + b[1..];
    }
  }

  /** Every line followed by a newline. */
  function Unlines(lines: seq<string>): string {
    if lines == [] then "" else lines[0] + ['\n'] + Unlines(lines[1..])
  }

  function Print(es: seq<Entry>): string {
    Unlines(ShownAll(es))
  }

  lemma {:induction false} UnlinesAppend(lines: seq<string>, line: string)
    ensures Unlines(lines + [line]) == Unlines(lines) + (line + ['\n'])
  {
    if lines == [] {
      assert (lines + [line])[1..] == [];
    } else {
      assert (lines + [line])[1..] == lines[1..] + [line];
      UnlinesAppend(lines[1..], line);
      Associate(lines[0] + ['\n'], Unlines(lines[1..]), line + ['\n']);
    }
  }

  lemma Associate(a: string, b: string, c: string)
    ensures a + (b + c) == a + b + c
  {
  }

  method RenderManifest(entries: seq<Entry>) returns (text: string)
    ensures text == Print(SortByPath(entries))
  {
    var sorted := SortByPath(entries);
    text := "";
    for i := 0 to |sorted|
      invariant text == Print(sorted[..i])
    {
      assert ShownAll(sorted[..i + 1]) == ShownAll(sorted[..i]) + [Shown(sorted[i])];
      UnlinesAppend(ShownAll(sorted[..i]), Shown(sorted[i]));
      text := text + (Shown(sorted[i]) + ['\n']);
    }
    assert sorted[..|sorted|] == sorted;
  }

  // ---- the round trip ----

  /** No newline inside, and no carriage return that would be dropped. */
  predicate PlainLine(line: string) {
    '\n' !in line && StripReturn(line) == line
  }

  predicate PlainLines(lines: seq<string>) {
    forall i :: 0 <= i < |lines| ==> PlainLine(lines[i])
  }

  lemma ShownIsPlain(e: Entry)
    requires Legal(e)
    ensures PlainLine(Shown(e))
  {
    var line := Shown(e);
    assert line[|line| - 1] == e.path[|e.path| - 1] && e.path[|e.path| - 1] in e.path;
    assert forall c :: c in line ==> c in e.hash || c == ' ' || c in e.path;
  }

  lemma AllShownPlain(es: seq<Entry>)
    requires AllLegal(es)
    ensures PlainLines(ShownAll(es))
  {
    forall i | 0 <= i < |es|
      ensures PlainLine(ShownAll(es)[i])
    {
      assert es[i] in es;
      ShownIsPlain(es[i]);
    }
  }

  lemma LinesCons(line: string, rest: string)
    requires PlainLine(line)
    ensures Lines(line + ['\n'] + rest) == [line] + Lines(rest)
  {
    var text := line + ['\n'] + rest;
    IndexOfMid(line, '\n', rest);
    assert text[..|line|] == line && text[|line| + 1..] == rest;
  }

  lemma {:induction false} LinesOfUnlines(lines: seq<string>)
    requires PlainLines(lines)
    ensures Lines(Unlines(lines)) == lines
  {
    if lines == [] {
    } else {
      LinesCons(lines[0], Unlines(lines[1..]));
      LinesOfUnlines(lines[1..]);
    }
  }

  /** Parsing what was rendered gives the entries back sorted by path, exactly
      when there is at least one and all are legal. */
  lemma RoundTrip(es: seq<Entry>)
    ensures Parse(Print(SortByPath(es))) == Some(SortByPath(es)) <==> es != [] && AllLegal(es)
  {
    var sorted := SortByPath(es);
    SortSorts(es);
    SameMembers(sorted, es);
    if AllLegal(sorted) {
      AllShownPlain(sorted);
      LinesOfUnlines(ShownAll(sorted));
    }
    ParseIff(Print(sorted), sorted);
  }

  lemma SameMembers(a: seq<Entry>, b: seq<Entry>)
    requires multiset(a) == multiset(b)
    ensures |a| == |b| && (AllLegal(a) <==> AllLegal(b))
  {
    assert |multiset(a)| == |a| && |multiset(b)| == |b|;
    assert forall e :: e in a <==> e in multiset(a);
    assert forall e :: e in b <==> e in multiset(b);
  }

  /** Every line followed by a carriage return and a newline. */
  function UnlinesCr(lines: seq<string>): string {
    if lines == [] then "" else lines[0] + ['\r'] + ['\n'] + UnlinesCr(lines[1..])
  }

  lemma {:induction false} LinesOfUnlinesCr(lines: seq<string>)
    requires PlainLines(lines)
    ensures Lines(UnlinesCr(lines)) == lines
  {
    if lines == [] {
    } else {
      var line, rest := lines[0] + ['\r'], UnlinesCr(lines[1..]);
      var text := line + ['\n'] + rest;
      assert PlainLine(lines[0]) && '\n' !in line;
      IndexOfMid(line, '\n', rest);
      assert text[..|line|] == line && text[|line| + 1..] == rest;
      assert StripReturn(line) == lines[0];
      LinesOfUnlinesCr(lines[1..]);
    }
  }

  /** A manifest that was given carriage returns on the way reads the same. */
  lemma CarriageReturnsRead(es: seq<Entry>)
    requires es != [] && AllLegal(es)
    ensures Parse(UnlinesCr(ShownAll(es))) == Some(es)
  {
    AllShownPlain(es);
    LinesOfUnlinesCr(ShownAll(es));
    ParseIff(UnlinesCr(ShownAll(es)), es);
  }

  // ---- what a manifest attests ----

  const PARSER := "parser.c"
  const GRAMMAR_JSON := "grammar.json"
  const NODE_TYPES := "node-types.json"

  const EXPECTED: seq<string> := [PARSER, GRAMMAR_JSON, NODE_TYPES]

  predicate AllHashed(hashes: map<string, string>) {
    PARSER in hashes && GRAMMAR_JSON in hashes && NODE_TYPES in hashes
  }

  /** The entries of the three outputs, in the order they are hashed. */
  function Entries(hashes: map<string, string>): seq<Entry>
    requires AllHashed(hashes)
  {
    [Entry(hashes[PARSER], PARSER), Entry(hashes[GRAMMAR_JSON], GRAMMAR_JSON), Entry(hashes[NODE_TYPES], NODE_TYPES)]
  }

  function Paths(es: seq<Entry>): (ps: seq<string>)
    ensures |ps| == |es|
  {
    seq(|es|, i requires 0 <= i < |es| => es[i].path)
  }

  /** Every entry carries the hash its file has now. */
  ghost predicate Recorded(es: seq<Entry>, hashes: map<string, string>) {
    forall i :: 0 <= i < |es| ==> es[i].path in hashes && hashes[es[i].path] == es[i].hash
  }

  /** The text lists each expected output exactly once, with the hash the file
      has now. `hashes` holds the files that hash. */
  ghost predicate Attests(text: string, hashes: map<string, string>) {
    && Parse(text).Some?
    && multiset(Paths(Parse(text).value)) == multiset(EXPECTED)
    && Recorded(Parse(text).value, hashes)
  }

  lemma {:induction false} DistinctOnce(names: seq<string>, x: string)
    requires Distinct(names)
    ensures multiset(names)[x] <= 1
  {
    if names == [] {
    } else {
      var rest := names[1..];
      DistinctOnce(rest, x);
      assert names == [names[0]] + rest;
      if x == names[0] {
        assert x !in rest;
        assert multiset(rest)[x] == 0;
      }
    }
  }

  /** As many names as expected, and every expected one among them: nothing
      else can be there, and nothing twice. */
  lemma CoveringIsPermutation(names: seq<string>, expected: seq<string>)
    requires Distinct(expected) && |names| == |expected| && forall x :: x in expected ==> x in names
    ensures multiset(names) == multiset(expected)
  {
    var a, b := multiset(expected), multiset(names);
    forall x
      ensures a[x] <= b[x]
    {
      DistinctOnce(expected, x);
      if x in expected {
        assert x in names && x in b;
      } else {
        assert x !in a;
      }
    }
    assert a <= b;
    assert |a| == |expected| && |b| == |names|;
    assert b == a + (b - a);
    assert |b - a| == 0;
  }

  /** The checks of the names against the expected ones. */
  method SameNames(names: seq<string>, expected: seq<string>) returns (same: bool)
    requires Distinct(expected)
    ensures same <==> multiset(names) == multiset(expected)
  {
    if |names| != |expected| {
      assert |multiset(names)| == |names| && |multiset(expected)| == |expected|;
      return false;
    }
    for i := 0 to |names| {
      if names[i] !in expected {
        assert names[i] in multiset(names) && names[i] !in multiset(expected);
        return false;
      }
    }
    for i := 0 to |expected|
      invariant forall j :: 0 <= j < i ==> expected[j] in names
    {
      if expected[i] !in names {
        assert expected[i] !in multiset(names) && expected[i] in multiset(expected);
        return false;
      }
    }
    CoveringIsPermutation(names, expected);
    same := true;
  }

  lemma ExpectedDistinct()
    ensures Distinct(EXPECTED)
  {
    assert PARSER[0] == 'p' && GRAMMAR_JSON[0] == 'g' && NODE_TYPES[0] == 'n';
  }

  method ManifestMatches(text: Option<string>, hashes: map<string, string>) returns (ok: bool)
    ensures ok <==> text.Some? && Attests(text.value, hashes)
  {
    if text.None? {
      return false;
    }
    var parsed := ParseManifest(text.value);
    if parsed.None? {
      return false;
    }
    var es := parsed.value;
    ExpectedDistinct();
    var same := SameNames(Paths(es), EXPECTED);
    if !same {
      return false;
    }
    for i := 0 to |es|
      invariant forall j :: 0 <= j < i ==> es[j].path in hashes && hashes[es[j].path] == es[j].hash
    {
      if es[i].path !in hashes || hashes[es[i].path] != es[i].hash {
        return false;
      }
    }
    ok := true;
  }

  /** The manifest of the three outputs. */
  function ManifestOf(hashes: map<string, string>): string
    requires AllHashed(hashes)
  {
    Print(SortByPath(Entries(hashes)))
  }

  predicate LegalHashes(hashes: map<string, string>) {
    forall name :: name in hashes ==> Column(hashes[name])
  }

  lemma ExpectedAreColumns()
    ensures Column(PARSER) && Column(GRAMMAR_JSON) && Column(NODE_TYPES)
  {
  }

  lemma ManifestParses(hashes: map<string, string>)
    requires AllHashed(hashes) && LegalHashes(hashes)
    ensures Parse(ManifestOf(hashes)) == Some(SortByPath(Entries(hashes)))
  {
    ExpectedAreColumns();
    RoundTrip(Entries(hashes));
  }

  /** Both sides hold the three outputs, with equal hashes. */
  predicate Agree(a: map<string, string>, b: map<string, string>) {
    forall name :: name in EXPECTED ==> name in a && name in b && a[name] == b[name]
  }

  /** One text never attests two different sets of hashes. */
  lemma AttestsOne(text: string, a: map<string, string>, b: map<string, string>)
    requires Attests(text, a) && Attests(text, b)
    ensures Agree(a, b)
  {
    var es := Parse(text).value;
    forall name | name in EXPECTED
      ensures name in a && name in b && a[name] == b[name]
    {
      assert name in multiset(EXPECTED);
      assert name in Paths(es);
      var i :| 0 <= i < |es| && Paths(es)[i] == name;
      assert es[i].path == name;
    }
  }

  lemma EntryFor(hashes: map<string, string>, es: seq<Entry>, name: string)
    requires AllHashed(hashes) && multiset(es) == multiset(Entries(hashes)) && name in EXPECTED
    ensures name in Paths(es)
  {
    var e := Entry(hashes[name], name);
    assert e in Entries(hashes);
    assert e in multiset(es);
    var i :| 0 <= i < |es| && es[i] == e;
    assert Paths(es)[i] == name;
  }

  lemma FreshAttests(hashes: map<string, string>)
    requires AllHashed(hashes) && LegalHashes(hashes)
    ensures Attests(ManifestOf(hashes), hashes)
  {
    var es := SortByPath(Entries(hashes));
    ManifestParses(hashes);
    SortSorts(Entries(hashes));
    assert |es| == |multiset(es)| == |Entries(hashes)| == |EXPECTED|;
    forall name | name in EXPECTED
      ensures name in Paths(es)
    {
      EntryFor(hashes, es, name);
    }
    ExpectedDistinct();
    CoveringIsPermutation(Paths(es), EXPECTED);
    EntriesRecorded(hashes, es);
  }

  lemma EntriesRecorded(hashes: map<string, string>, es: seq<Entry>)
    requires AllHashed(hashes) && multiset(es) == multiset(Entries(hashes))
    ensures Recorded(es, hashes)
  {
    forall i | 0 <= i < |es|
      ensures es[i].path in hashes && hashes[es[i].path] == es[i].hash
    {
      assert es[i] in multiset(es);
      assert es[i] in Entries(hashes);
    }
  }

  /** A fresh manifest attests exactly the files whose hashes it was made from. */
  lemma FreshAttestsIff(hashes: map<string, string>, disk: map<string, string>)
    requires AllHashed(hashes) && LegalHashes(hashes)
    ensures Attests(ManifestOf(hashes), disk) <==> Agree(hashes, disk)
  {
    var text := ManifestOf(hashes);
    FreshAttests(hashes);
    if Attests(text, disk) {
      AttestsOne(text, hashes, disk);
    }
    if Agree(hashes, disk) {
      var es := Parse(text).value;
      forall i | 0 <= i < |es|
        ensures es[i].path in disk && disk[es[i].path] == es[i].hash
      {
        assert Paths(es)[i] in multiset(Paths(es));
        assert es[i].path in EXPECTED;
      }
    }
  }

  // ---- torn manifests ----

  lemma SortThree(a: Entry, b: Entry, c: Entry)
    requires Leq(b.path, c.path) && !Leq(a.path, b.path) && !Leq(a.path, c.path)
    ensures SortByPath([a, b, c]) == [b, c, a]
  {
    assert [a, b, c][1..] == [b, c] && [b, c][1..] == [c] && [c][1..] == [];
    assert SortByPath([c]) == [c] by {
      assert Insert(c, []) == [c];
    }
    assert SortByPath([b, c]) == [b, c] by {
      assert Insert(b, [c]) == [b, c];
    }
    assert Insert(a, [b, c]) == [b, c, a] by {
      assert Insert(a, []) == [a];
      assert Insert(a, [c]) == [c, a];
    }
  }

  lemma ExpectedOrder(hashes: map<string, string>)
    requires AllHashed(hashes)
    ensures var es := Entries(hashes); SortByPath(es) == [es[1], es[2], es[0]]
  {
    assert Leq(GRAMMAR_JSON, NODE_TYPES) && !Leq(PARSER, GRAMMAR_JSON) && !Leq(PARSER, NODE_TYPES) by {
      assert PARSER[0] == 'p' && GRAMMAR_JSON[0] == 'g' && NODE_TYPES[0] == 'n';
    }
    SortThree(Entry(hashes[PARSER], PARSER), Entry(hashes[GRAMMAR_JSON], GRAMMAR_JSON),
              Entry(hashes[NODE_TYPES], NODE_TYPES));
  }

  function PartLines(part: string): seq<string> {
    if part == "" then [] else [part]
  }

  /** The first `n` characters of printed lines read as `k` whole lines and a
      part of the next; everything is there exactly when just the final newline
      is missing. */
  ghost predicate CutAt(lines: seq<string>, n: nat, k: nat, part: string) {
    && n < |Unlines(lines)| && k < |lines| && part <= lines[k]
    && Lines(Unlines(lines)[..n]) == lines[..k] + PartLines(part)
    && (k == |lines| - 1 && part == lines[k] <==> n + 1 == |Unlines(lines)|)
  }

  lemma PrefixPast(line: string, rest: string, m: nat)
    requires m <= |rest|
    ensures (line + ['\n'] + rest)[..|line| + 1 + m] == line + ['\n'] + rest[..m]
  {
  }

  lemma ConsAssociates(line: string, whole: seq<string>, k: nat, part: seq<string>)
    requires k <= |whole|
    ensures [line] + (whole[..k] + part) == ([line] + whole)[..k + 1] + part
  {
  }

  lemma CutCons(line: string, lines: seq<string>, m: nat, k: nat, part: string)
    requires PlainLine(line) && CutAt(lines, m, k, part)
    ensures CutAt([line] + lines, |line| + 1 + m, k + 1, part)
  {
    var all, rest := [line] + lines, Unlines(lines);
    assert Unlines(all) == line + ['\n'] + rest by {
      assert all[1..] == lines;
    }
    PrefixPast(line, rest, m);
    LinesCons(line, rest[..m]);
    ConsAssociates(line, lines, k, PartLines(part));
    assert all[k + 1] == lines[k];
  }

  lemma UnlinesNonempty(lines: seq<string>)
    ensures |Unlines(lines)| > 0 <==> lines != []
  {
  }

  lemma CutFirst(lines: seq<string>, n: nat)
    requires lines != [] && PlainLine(lines[0]) && n <= |lines[0]|
    ensures CutAt(lines, n, 0, lines[0][..n])
  {
    var part := lines[0][..n];
    assert Unlines(lines)[..n] == part;
    PartOfLine(lines[0], n);
    UnlinesNonempty(lines[1..]);
    assert |lines| == 1 <==> lines[1..] == [];
    assert lines[..0] == [];
  }

  lemma {:induction false} PrefixLines(lines: seq<string>, n: nat) returns (k: nat, part: string)
    requires PlainLines(lines) && n < |Unlines(lines)|
    ensures CutAt(lines, n, k, part)
  {
    if n <= |lines[0]| {
      CutFirst(lines, n);
      k, part := 0, lines[0][..n];
    } else {
      var m := n - |lines[0]| - 1;
      k, part := PrefixLines(lines[1..], m);
      CutCons(lines[0], lines[1..], m, k, part);
      assert [lines[0]] + lines[1..] == lines;
      k := k + 1;
    }
  }

  lemma PartOfLine(line: string, n: nat)
    requires PlainLine(line) && n <= |line|
    ensures Lines(line[..n]) == if n == 0 then [] else [line[..n]]
  {
    assert forall c :: c in line[..n] ==> c in line;
    IndexOfNone(line[..n], '\n');
  }

  lemma SameHashLength(part: string, full: Entry, e: Entry)
    requires Legal(full) && Legal(e) && part == Shown(e) && part <= Shown(full)
    ensures |e.hash| == |full.hash|
  {
    var line := Shown(full);
    GapAfterHash(full);
    assert part[|e.hash|] == ' ' && part[|e.hash| + 1] == ' ';
    assert line[|e.hash|] == part[|e.hash|] && line[|e.hash| + 1] == part[|e.hash| + 1];
    assert GapAt(line, |e.hash|);
    assert forall i :: 0 <= i < |e.hash| ==> line[i] == part[i] == e.hash[i] && e.hash[i] in e.hash;
    assert line[|full.hash|] == ' ';
  }

  /** A line cut short that still reads as an entry keeps the hash and only
      shortens the path. */
  lemma PartialEntry(part: string, full: Entry, e: Entry)
    requires Legal(full) && part <= Shown(full) && ReadEntry(part) == Some(e)
    ensures e.hash == full.hash && e.path <= full.path && (e.path == full.path ==> part == Shown(full))
  {
    ReadEntryIff(part, e);
    SameHashLength(part, full, e);
    var line, n := Shown(full), |e.hash|;
    assert e.hash == part[..n] == line[..n] == full.hash;
    assert e.path == part[n + 2..] && full.path == line[n + 2..];
  }

  /** Two of the three names leave only the third. */
  lemma ThirdName(names: seq<string>, expected: seq<string>)
    requires |names| == |expected| == 3 && Distinct(expected) && multiset(names) == multiset(expected)
    requires names[0] == expected[1] && names[1] == expected[2]
    ensures names[2] == expected[0]
  {
    assert expected[0] in multiset(expected);
    assert expected[0] in names;
  }

  /** The entries of a manifest, in the order they are printed. */
  ghost predicate Ordered(es: seq<Entry>) {
    |es| == 3 && AllLegal(es) && Paths(es) == [EXPECTED[1], EXPECTED[2], EXPECTED[0]]
  }

  /** What a cut third line that still attests must be. */
  lemma CutThirdLine(es: seq<Entry>, part: string, text: string, disk: map<string, string>)
    requires Ordered(es)
    requires part <= Shown(es[2]) && Lines(text) == ShownAll(es)[..2] + [part] && Attests(text, disk)
    ensures part == Shown(es[2])
  {
    var fs := Parse(text).value;
    ParseIff(text, fs);
    assert |fs| == |Lines(text)| == 3;
    forall i | 0 <= i < 3
      ensures ReadEntry(Lines(text)[i]) == Some(fs[i]) && es[i] in es
    {
      assert fs[i] in fs && ShownAll(fs)[i] == Shown(fs[i]);
      ReadEntryIff(Lines(text)[i], fs[i]);
    }
    assert Lines(text)[0] == Shown(es[0]) && Lines(text)[1] == Shown(es[1]);
    ReadEntryIff(Shown(es[0]), es[0]);
    ReadEntryIff(Shown(es[1]), es[1]);
    PartialEntry(part, es[2], fs[2]);
    ExpectedDistinct();
    assert Paths(es)[0] == es[0].path && Paths(es)[1] == es[1].path && Paths(es)[2] == es[2].path;
    ThirdName(Paths(fs), EXPECTED);
  }

  lemma InOrder(hashes: map<string, string>)
    requires AllHashed(hashes) && LegalHashes(hashes)
    ensures Ordered(SortByPath(Entries(hashes)))
  {
    ManifestParses(hashes);
    ParseIff(ManifestOf(hashes), SortByPath(Entries(hashes)));
    ExpectedOrder(hashes);
  }

  lemma TornPrint(es: seq<Entry>, n: nat, disk: map<string, string>)
    requires Ordered(es) && n < |Print(es)|
    ensures Attests(Print(es)[..n], disk) <==> n + 1 == |Print(es)| && Attests(Print(es), disk)
  {
    var lines := ShownAll(es);
    AllShownPlain(es);
    var k, part := PrefixLines(lines, n);
    if Attests(Print(es)[..n], disk) {
      TornCases(es, n, k, part, disk);
    }
    if n + 1 == |Print(es)| {
      LastNewline(lines, n, k, part);
    }
  }

  lemma LastNewline(lines: seq<string>, n: nat, k: nat, part: string)
    requires PlainLines(lines) && CutAt(lines, n, k, part) && n + 1 == |Unlines(lines)| && lines[k] != ""
    ensures Lines(Unlines(lines)[..n]) == Lines(Unlines(lines))
  {
    LinesOfUnlines(lines);
    assert lines == lines[..k] + [part];
  }

  lemma TornCases(es: seq<Entry>, n: nat, k: nat, part: string, disk: map<string, string>)
    requires Ordered(es)
    requires CutAt(ShownAll(es), n, k, part) && Attests(Print(es)[..n], disk)
    ensures n + 1 == |Print(es)|
  {
    var torn, lines := Print(es)[..n], ShownAll(es);
    var fs := Parse(torn).value;
    ParseIff(torn, fs);
    assert |fs| == |Paths(fs)| == |multiset(Paths(fs))| == |EXPECTED|;
    assert |Lines(torn)| == k + |PartLines(part)|;
    assert k == 2 && part != "";
    CutThirdLine(es, part, torn, disk);
  }

  /** A proper prefix of a manifest attests something only if it lacks nothing
      but the final newline, and then it attests what the whole one does. */
  lemma TornManifest(hashes: map<string, string>, n: nat, disk: map<string, string>)
    requires AllHashed(hashes) && LegalHashes(hashes) && n < |ManifestOf(hashes)|
    ensures Attests(ManifestOf(hashes)[..n], disk) <==> n + 1 == |ManifestOf(hashes)| && Agree(hashes, disk)
  {
    var es := SortByPath(Entries(hashes));
    InOrder(hashes);
    FreshAttestsIff(hashes, disk);
    TornPrint(es, n, disk);
  }
}
