/** Reading `cargo tree` text: one package line. */
module CargoTreeLine {
  import opened Outcomes
  import opened Text

  /** The comma-separated pieces of `s`. */
  function Fields(s: string): seq<string>
    decreases |s|
  {
    var k := IndexOf(s, ',');
    if k == |s| then [s] else [s[..k]] + Fields(s[k + 1..])
  }

  function Join(fs: seq<string>): string {
    if fs == [] then "" else if |fs| == 1 then fs[0] else fs[0] + [','] + Join(fs[1..])
  }

  lemma {:induction false} FieldsOfJoin(fs: seq<string>)
    requires fs != [] && forall f :: f in fs ==> ',' !in f
    ensures Fields(Join(fs)) == fs
  {
    assert fs[0] in fs;
    if |fs| == 1 {
      IndexOfNone(fs[0], ',');
    } else {
      var rest := Join(fs[1..]);
      IndexOfMid(fs[0], ',', rest);
      var s := fs[0] + [','] + rest;
      assert s[..|fs[0]|] == fs[0] && s[|fs[0]| + 1..] == rest;
      assert forall f :: f in fs[1..] ==> f in fs;
      FieldsOfJoin(fs[1..]);
    }
  }

  function FeatureSet(text: string): set<string> {
    set f | f in Fields(text) && f != ""
  }

  lemma FeaturesRecovered(fs: seq<string>)
    requires forall f :: f in fs ==> f != "" && ',' !in f
    ensures FeatureSet(Join(fs)) == set f | f in fs
  {
    if fs == [] {
      assert Fields("") == [""];
    } else {
      FieldsOfJoin(fs);
    }
  }

  // ---- one package line ----

  datatype Package = Package(name: string, version: string, procMacro: bool, pathSource: bool, features: set<string>)

  const DEDUPED := " (*)"
  const PROC_MACRO := " (proc-macro)"

  predicate NameChar(c: char) {
    'a' <= c <= 'z' || 'A' <= c <= 'Z' || '0' <= c <= '9' || c == '_' || c == '.' || c == '-'
  }

  /** The optional source in brackets that ends a package head. */
  function ReadSource(rest: string): Result<Option<string>> {
    if rest == "" then Ok(None)
    else if |rest| >= 3 && rest[..2] == " (" && rest[|rest| - 1] == ')'
            && '(' !in rest[2..|rest| - 1] && ')' !in rest[2..|rest| - 1] then Ok(Some(rest[2..|rest| - 1]))
    else Err
  }

  /** The package that a source text makes of the rest; only path sources are
      supported. */
  function Sourced(name: string, version: string, procMacro: bool, source: Result<Option<string>>,
                   features: string): Result<Package> {
    match source
    case Err => Err
    case Ok(None) => Ok(Package(name, version, procMacro, false, FeatureSet(features)))
    case Ok(Some(path)) =>
      if StartsWith(path, "/") then Ok(Package(name, version, procMacro, true, FeatureSet(features))) else Err
  }

  /** `<version>[ (proc-macro)][ (source)]`. */
  function ReadVersion(name: string, text: string, features: string): Result<Package> {
    var j := IndexOf(text, ' ');
    var version, rest := text[..j], text[j..];
    if version == "" then Err
    else
      var procMacro := StartsWith(rest, PROC_MACRO);
      Sourced(name, version, procMacro, ReadSource(if procMacro then rest[|PROC_MACRO|..] else rest), features)
  }

  /** `name v` and the rest, and the feature text. */
  function ReadHead(head: string, features: string): Result<Package> {
    var i := IndexOf(head, ' ');
    var name := head[..i];
    if name == "" || (exists c :: c in name && !NameChar(c)) || !StartsWith(head[i..], " v") then Err
    else ReadVersion(name, head[i + 2..], features)
  }

  function Stripped(body: string): string {
    if EndsWith(body, DEDUPED) then body[..|body| - |DEDUPED|] else body
  }

  /** The head up to the first bar, the features after it. */
  function ReadBars(text: string): Result<Package> {
    var k := IndexOf(text, '|');
    if k == |text| then Err else ReadHead(text[..k], text[k + 1..])
  }

  function ParsePackage(body: string): Result<Package> {
    ReadBars(Stripped(body))
  }

  // ---- and how it is printed ----

  /** One printed package: registry packages show no source. */
  datatype Entry = Entry(name: string, version: string, procMacro: bool, source: Option<string>,
                         features: seq<string>, repeated: bool)

  predicate PlainSource(source: string) {
    StartsWith(source, "/") && '(' !in source && ')' !in source && '|' !in source
  }

  /** What cargo prints: a legal name and version, features, and where a package
      comes from that is not from a registry. */
  predicate Named(e: Entry) {
    && e.name != "" && (forall c :: c in e.name ==> NameChar(c))
    && e.version != "" && ' ' !in e.version && '|' !in e.version
    && (forall f :: f in e.features ==> f != "" && ',' !in f && ' ' !in f)
  }

  predicate Printable(e: Entry) {
    Named(e) && (e.source.Some? ==> PlainSource(e.source.value))
  }

  function ShownSource(source: Option<string>): string {
    if source.Some? then " (" + (source.value + ")") else ""
  }

  /** What follows the name and the space, when the source shows as `shown`. */
  function AfterName(e: Entry, shown: string): string {
    "v" + (e.version + ((if e.procMacro then PROC_MACRO else "") + shown))
  }

  function HeadWith(e: Entry, shown: string): string {
    e.name + [' '] + AfterName(e, shown)
  }

  function Head(e: Entry): string {
    HeadWith(e, ShownSource(e.source))
  }

  function Body(e: Entry): string {
    Head(e) + ['|'] + Join(e.features) + (if e.repeated then DEDUPED else "")
  }

  function Recorded(e: Entry): Package {
    Package(e.name, e.version, e.procMacro, e.source.Some?, set f | f in e.features)
  }

  // ---- reading a head ----

  /** The text after the proc-macro mark: nothing, or a space and no such mark. */
  predicate Tailing(shown: string) {
    shown == "" || (shown[0] == ' ' && !StartsWith(shown, PROC_MACRO))
  }

  lemma NameEnds(e: Entry, shown: string)
    requires Named(e)
    ensures var head, i := HeadWith(e, shown), |e.name|;
            && IndexOf(head, ' ') == i && head[..i] == e.name && StartsWith(head[i..], " v")
            && head[i + 2..] == e.version + ((if e.procMacro then PROC_MACRO else "") + shown)
  {
    var head, i := HeadWith(e, shown), |e.name|;
    assert ' ' !in e.name by {
      assert forall c :: c in e.name ==> NameChar(c);
    }
    IndexOfMid(e.name, ' ', AfterName(e, shown));
    assert head[..i] == e.name && head[i..] == [' '] + AfterName(e, shown) && head[i..][..2] == " v";
  }

  lemma MarkSplits(procMacro: bool, shown: string)
    requires Tailing(shown)
    ensures var tail := (if procMacro then PROC_MACRO else "") + shown;
            && StartsWith(tail, PROC_MACRO) == procMacro
            && (if procMacro then tail[|PROC_MACRO|..] else tail) == shown
            && (tail != "" ==> tail[0] == ' ')
  {
    var tail := (if procMacro then PROC_MACRO else "") + shown;
    if procMacro {
      assert tail[..|PROC_MACRO|] == PROC_MACRO && tail[|PROC_MACRO|..] == shown;
    } else {
      assert tail == shown;
    }
  }

  lemma VersionEnds(version: string, rest: string)
    requires ' ' !in version && (rest != "" ==> rest[0] == ' ')
    ensures IndexOf(version + rest, ' ') == |version|
  {
    if rest == "" {
      assert version + rest == version;
      IndexOfNone(version, ' ');
    } else {
      assert version + rest == version + [' '] + rest[1..];
      IndexOfMid(version, ' ', rest[1..]);
    }
  }

  lemma VersionReads(name: string, version: string, procMacro: bool, shown: string, features: string)
    requires version != "" && ' ' !in version && Tailing(shown)
    ensures ReadVersion(name, version + ((if procMacro then PROC_MACRO else "") + shown), features) ==
            Sourced(name, version, procMacro, ReadSource(shown), features)
  {
    var mark := (if procMacro then PROC_MACRO else "") + shown;
    MarkSplits(procMacro, shown);
    var text := version + mark;
    VersionEnds(version, mark);
    assert text[..|version|] == version && text[|version|..] == mark;
  }

  lemma HeadReads(e: Entry, shown: string, features: string)
    requires Named(e) && Tailing(shown)
    ensures ReadHead(HeadWith(e, shown), features) ==
            Sourced(e.name, e.version, e.procMacro, ReadSource(shown), features)
  {
    NameEnds(e, shown);
    VersionReads(e.name, e.version, e.procMacro, shown, features);
    assert forall c :: c in e.name ==> NameChar(c);
  }

  /** An opened bracket that is closed at the end and nowhere else. */
  predicate ClosedOnce(text: string) {
    && text != "" && text[|text| - 1] == ')'
    && '(' !in text[..|text| - 1] && ')' !in text[..|text| - 1]
  }

  lemma OpenedSource(text: string)
    requires text != ""
    ensures ReadSource(" (" + text) == if ClosedOnce(text) then Ok(Some(text[..|text| - 1])) else Err
  {
    var shown := " (" + text;
    assert shown[..2] == " (" && shown[2..|shown| - 1] == text[..|text| - 1];
  }

  lemma PathIsNoMark(text: string)
    requires StartsWith(text, "/")
    ensures Tailing(" (" + text)
  {
    assert (" (" + text)[2] == text[0] == text[..1][0] == '/';
    assert PROC_MACRO[2] == 'p';
  }

  // ---- reading a line ----

  lemma {:induction false} JoinChars(fs: seq<string>)
    requires forall f :: f in fs ==> ' ' !in f
    ensures ' ' !in Join(fs)
  {
    if fs == [] {
    } else {
      assert fs[0] in fs && forall f :: f in fs[1..] ==> f in fs;
      JoinChars(fs[1..]);
    }
  }

  /** Feature text without a space never ends in the repetition mark. */
  lemma NotRepeated(head: string, fs: string)
    requires ' ' !in fs
    ensures !EndsWith(head + ['|'] + fs, DEDUPED)
  {
    var s := head + ['|'] + fs;
    if |s| >= 4 {
      var end := s[|s| - 4..];
      if |fs| >= 4 {
        assert end[0] == fs[|fs| - 4];
        assert fs[|fs| - 4] in fs;
      } else {
        assert end[3 - |fs|] == '|';
      }
    }
  }

  lemma HeadHasNoBar(e: Entry, shown: string)
    requires Named(e) && '|' !in shown
    ensures '|' !in HeadWith(e, shown)
  {
    assert forall c :: c in e.name ==> NameChar(c);
    assert '|' !in PROC_MACRO;
  }

  /** Without the repetition mark the line is head, bar and features. */
  lemma MarkStripped(e: Entry)
    requires Named(e)
    ensures Stripped(Body(e)) == Head(e) + ['|'] + Join(e.features)
  {
    var plain := Head(e) + ['|'] + Join(e.features);
    if e.repeated {
      assert Body(e) == plain + DEDUPED;
      assert Body(e)[|plain|..] == DEDUPED && Body(e)[..|plain|] == plain;
    } else {
      assert Body(e) == plain;
      JoinChars(e.features);
      NotRepeated(Head(e), Join(e.features));
    }
  }

  lemma FirstBar(head: string, after: string)
    requires '|' !in head
    ensures ReadBars(head + ['|'] + after) == ReadHead(head, after)
  {
    var text := head + ['|'] + after;
    IndexOfMid(head, '|', after);
    assert text[..|head|] == head && text[|head| + 1..] == after;
  }

  /** Reading the text of a line up to its first bar, and after it. */
  lemma SplitAtBar(e: Entry, shown: string, after: string)
    requires Named(e) && '|' !in shown && Tailing(shown)
    requires Head(e) + ['|'] + Join(e.features) == HeadWith(e, shown) + ['|'] + after
    ensures ParsePackage(Body(e)) == Sourced(e.name, e.version, e.procMacro, ReadSource(shown), after)
  {
    MarkStripped(e);
    HeadHasNoBar(e, shown);
    FirstBar(HeadWith(e, shown), after);
    HeadReads(e, shown, after);
  }

  /** What the reader takes for the source of a package at this path: the text up
      to a bar if there is one. */
  function ReadPath(path: string): string {
    if '|' in path then path[..IndexOf(path, '|')] else path + ")"
  }

  /** ... and for its features. */
  function ReadFeatures(e: Entry): string {
    if e.source.Some? && '|' in e.source.value
    then e.source.value[IndexOf(e.source.value, '|') + 1..] + ")" + ['|'] + Join(e.features)
    else Join(e.features)
  }

  lemma IndexOfSome(s: string, c: char)
    requires c in s
    ensures IndexOf(s, c) < |s| && c !in s[..IndexOf(s, c)]
  {
    var i :| 0 <= i < |s| && s[i] == c;
  }

  lemma HeadWithAppend(e: Entry, a: string, b: string)
    ensures HeadWith(e, a + b) == HeadWith(e, a) + b
  {
    var mark := if e.procMacro then PROC_MACRO else "";
    assert mark + (a + b) == mark + a + b;
    assert AfterName(e, a + b) == AfterName(e, a) + b;
  }

  lemma BarInPath(e: Entry)
    requires Named(e) && e.source.Some? && '|' in e.source.value
    ensures Head(e) + ['|'] + Join(e.features) ==
            HeadWith(e, " (" + ReadPath(e.source.value)) + ['|'] + ReadFeatures(e)
  {
    var path := e.source.value;
    IndexOfSome(path, '|');
    var k := IndexOf(path, '|');
    var before, after := " (" + ReadPath(path), path[k + 1..] + ")";
    assert path == path[..k] + ['|'] + path[k + 1..];
    assert ShownSource(e.source) == before + (['|'] + after);
    HeadWithAppend(e, before, ['|'] + after);
    Regroup(HeadWith(e, before), after, Join(e.features));
  }

  lemma Regroup(head: string, after: string, fs: string)
    ensures head + (['|'] + after) + ['|'] + fs == head + ['|'] + (after + ['|'] + fs)
  {
  }

  /** The source text is not taken for the proc-macro mark. */
  predicate Unmarked(e: Entry) {
    e.source.Some? ==> Tailing(" (" + ReadPath(e.source.value))
  }

  /** What is read as a source of this text: closed once, and a path. */
  predicate ReadsAsPath(text: string) {
    ClosedOnce(text) && StartsWith(text[..|text| - 1], "/")
  }

  lemma SourceSplits(e: Entry)
    requires Named(e) && e.source.Some?
    ensures '|' !in ReadPath(e.source.value)
    ensures Head(e) + ['|'] + Join(e.features) ==
            HeadWith(e, " (" + ReadPath(e.source.value)) + ['|'] + ReadFeatures(e)
  {
    if '|' in e.source.value {
      IndexOfSome(e.source.value, '|');
      BarInPath(e);
    }
  }

  /** How the line of a package with a source is read, whatever the source. */
  lemma SourceLineReads(e: Entry)
    requires Named(e) && e.source.Some? && Unmarked(e) && ReadPath(e.source.value) != ""
    ensures ParsePackage(Body(e)) ==
            if ReadsAsPath(ReadPath(e.source.value)) then Ok(Recorded(e).(features := FeatureSet(ReadFeatures(e))))
            else Err
  {
    var text := ReadPath(e.source.value);
    SourceSplits(e);
    OpenedSource(text);
    SplitAtBar(e, " (" + text, ReadFeatures(e));
  }

  lemma PathReads(path: string)
    requires StartsWith(path, "/")
    ensures ReadPath(path) != "" && StartsWith(ReadPath(path), "/") && Tailing(" (" + ReadPath(path))
    ensures PlainSource(path) ==> ReadsAsPath(ReadPath(path))
  {
    assert path[0] == path[..1][0] == '/';
    if '|' in path {
      IndexOfSome(path, '|');
    }
    assert ReadPath(path)[..1] == "/";
    PathIsNoMark(ReadPath(path));
    if PlainSource(path) {
      assert (path + ")")[..|path|] == path;
    }
  }

  /** Reading a printed package line gives the package back. */
  lemma PackageRecovered(e: Entry)
    requires Printable(e)
    ensures ParsePackage(Body(e)) == Ok(Recorded(e))
  {
    FeaturesRecovered(e.features);
    if e.source.Some? {
      PathReads(e.source.value);
      SourceLineReads(e);
    } else {
      SplitAtBar(e, "", Join(e.features));
    }
  }

  lemma {:induction false} CharInField(s: string, c: char) returns (f: string)
    requires c in s && c != ','
    ensures f in Fields(s) && c in f
    decreases |s|
  {
    var k := IndexOf(s, ',');
    if k == |s| {
      f := s;
    } else if c in s[..k] {
      f := s[..k];
    } else {
      assert s == s[..k] + [','] + s[k + 1..];
      f := CharInField(s[k + 1..], c);
    }
  }

  /** The line reads back exactly when the source is a path without bracket and
      bar. Another source, such as a git address, and a path with a bracket are
      rejected; a path with a bar is rejected or, when a bracket closes right
      before the bar, read with the wrong features. */
  lemma PackageRecoveredIff(e: Entry)
    requires Named(e) && (forall f :: f in e.features ==> '|' !in f)
    requires Unmarked(e) && (e.source.Some? ==> ReadPath(e.source.value) != "")
    ensures ParsePackage(Body(e)) == Ok(Recorded(e)) <==> Printable(e)
    ensures e.source.Some? ==> (ParsePackage(Body(e)).Ok? <==> ReadsAsPath(ReadPath(e.source.value)))
  {
    if Printable(e) {
      PackageRecovered(e);
    }
    if e.source.Some? {
      SourceLineReads(e);
      var path := e.source.value;
      if '|' in path {
        var f := CharInField(ReadFeatures(e), '|');
        assert f in FeatureSet(ReadFeatures(e)) && f !in Recorded(e).features;
      } else {
        assert (path + ")")[..|path|] == path;
      }
    }
  }

  /** A package without features at the path "/a)|b". */
  const MISREAD := Entry("p", "1", false, Some("/a)|b"), [], false)

  lemma MisreadPath()
    ensures ReadPath("/a)|b") == "/a)" && ReadsAsPath("/a)") && Tailing(" (" + "/a)")
  {
    var path := "/a)|b";
    assert path[3] == '|';
    IndexOfMid("/a)", '|', "b");
    assert path == "/a)" + ['|'] + "b";
    assert "/a)"[..2] == "/a" && "/a"[..1] == "/" && "/a)"[..1] == "/";
    PathIsNoMark("/a)");
  }

  /** Its line is accepted, and not as that package. */
  lemma MisreadLine()
    ensures Named(MISREAD) && ParsePackage(Body(MISREAD)).Ok? && ParsePackage(Body(MISREAD)) != Ok(Recorded(MISREAD))
  {
    MisreadPath();
    assert '|' in MISREAD.source.value by {
      assert MISREAD.source.value[3] == '|';
    }
    PackageRecoveredIff(MISREAD);
  }
}

/** Reading `cargo tree` text: indentation, sections and sides. */
module CargoTree {
  import opened Outcomes
  import opened Text
  import opened CargoTreeLine

  datatype Section = NormalSection | BuildSection | DevSection

  /** A package on the current ancestry path, and the section being listed. */
  datatype Node = Node(host: bool, section: Section) {
    predicate ChildIsHost() {
      host || section.BuildSection?
    }
  }

  datatype Variant = Variant(name: string, version: string, host: bool, features: set<string>)

  datatype Reader = Reader(stack: seq<Node>, variants: set<Variant>)

  const BUILD_HEADER := "[build-dependencies]"
  const DEV_HEADER := "[dev-dependencies]"

  predicate IsToken(s: string) {
    s == "|   " || s == "    " || s == "|-- " || s == "`-- "
  }

  predicate HasToken(line: string) {
    |line| >= 4 && IsToken(line[..4])
  }

  function CountTokens(line: string): (n: nat)
    ensures 4 * n <= |line|
    decreases |line|
  {
    if HasToken(line) then 1 + CountTokens(line[4..]) else 0
  }

  method SplitPrefix(line: string) returns (depth: nat, body: string)
    ensures depth == CountTokens(line) && body == line[4 * depth..]
  {
    depth := 0;
    assert line[0..] == line;
    while 4 * depth + 4 <= |line| && IsToken(line[4 * depth..4 * depth + 4])
      invariant 4 * depth <= |line|
      invariant depth + CountTokens(line[4 * depth..]) == CountTokens(line)
      decreases |line| - 4 * depth
    {
      assert line[4 * depth..][..4] == line[4 * depth..4 * depth + 4];
      assert line[4 * depth..][4..] == line[4 * (depth + 1)..];
      depth := depth + 1;
    }
    body := line[4 * depth..];
    assert |body| >= 4 ==> body[..4] == line[4 * depth..4 * depth + 4];
  }

  predicate Blank(line: string) {
    forall c :: c in line ==> IsSpace(c)
  }

  function SectionOf(body: string): Option<Section> {
    if body == BUILD_HEADER then Some(BuildSection) else if body == DEV_HEADER then Some(DevSection) else None
  }

  function OpenSection(r: Reader, depth: nat, body: string): Result<Reader> {
    var section := SectionOf(body);
    if section.None? || depth >= |r.stack| then Err
    else Ok(r.(stack := r.stack[..depth] + [r.stack[depth].(section := section.value)]))
  }

  function AddPackage(r: Reader, depth: nat, p: Package): Reader
    requires depth <= |r.stack|
  {
    var host := p.procMacro || (depth > 0 && r.stack[depth - 1].ChildIsHost());
    Reader(r.stack[..depth] + [Node(host, NormalSection)],
           if p.pathSource then r.variants else r.variants + {Variant(p.name, p.version, host, p.features)})
  }

  function ReadBody(r: Reader, depth: nat, body: string): Result<Reader> {
    if StartsWith(body, "[") then OpenSection(r, depth, body)
    else if depth > |r.stack| then Err
    else match ParsePackage(body)
      case Err => Err
      case Ok(p) => Ok(AddPackage(r, depth, p))
  }

  function ReadLine(r: Reader, line: string): Result<Reader> {
    if Blank(line) then Ok(r.(stack := []))
    else
      var depth := CountTokens(line);
      ReadBody(r, depth, line[4 * depth..])
  }

  function ReadLines(r: Reader, lines: seq<string>): Result<Reader>
    decreases |lines|
  {
    if lines == [] then Ok(r)
    else match ReadLine(r, lines[0])
      case Err => Err
      case Ok(next) => ReadLines(next, lines[1..])
  }

  /** The parser: registry variants, each on the side its ancestry puts it. */
  method ParseTree(lines: seq<string>) returns (r: Result<set<Variant>>)
    ensures r.Err? <==> ReadLines(Reader([], {}), lines).Err?
    ensures r.Ok? ==> r.value == ReadLines(Reader([], {}), lines).value.variants
  {
    var state := Reader([], {});
    for i := 0 to |lines|
      invariant ReadLines(state, lines[i..]) == ReadLines(Reader([], {}), lines)
    {
      var line := lines[i];
      assert lines[i..][0] == line && lines[i..][1..] == lines[i + 1..];
      if Blank(line) {
        state := state.(stack := []);
        continue;
      }
      var depth, body := SplitPrefix(line);
      var next := ReadBody(state, depth, body);
      if next.Err? {
        return Err;
      }
      state := next.value;
    }
    r := Ok(state.variants);
  }

  lemma {:induction false} ReadAppend(r: Reader, a: seq<string>, b: seq<string>)
    ensures ReadLines(r, a + b) ==
            match ReadLines(r, a) case Err => Err case Ok(m) => ReadLines(m, b)
    decreases |a|
  {
    if a == [] {
      assert a + b == b;
    } else {
      assert (a + b)[0] == a[0] && (a + b)[1..] == a[1..] + b;
      var next := ReadLine(r, a[0]);
      if next.Ok? {
        ReadAppend(next.value, a[1..], b);
      }
    }
  }

  // ---- printed forests ----

  /** A package with its normal, build and dev dependencies. */
  datatype Tree = Tree(entry: Entry, normal: Forest, build: Forest, dev: Forest)

  datatype Forest = Nil | Cons(head: Tree, tail: Forest)

  predicate PrintableTree(t: Tree) {
    Printable(t.entry) && PrintableForest(t.normal) && PrintableForest(t.build) && PrintableForest(t.dev)
  }

  predicate PrintableForest(f: Forest) {
    f.Cons? ==> PrintableTree(f.head) && PrintableForest(f.tail)
  }

  /** Whether siblings still follow below at a level of the ancestry. */
  datatype Level = Continues | Ended

  function LevelOf(rest: Forest): Level {
    if rest.Cons? then Continues else Ended
  }

  /** One token per level. */
  function Rules(levels: seq<Level>): string {
    if levels == [] then "" else (if levels[0].Continues? then "|   " else "    ") + Rules(levels[1..])
  }

  function Indent(levels: seq<Level>): string {
    if levels == [] then ""
    else Rules(levels[..|levels| - 1]) + (if levels[|levels| - 1].Continues? then "|-- " else "`-- ")
  }

  function PrintTree(t: Tree, levels: seq<Level>): seq<string>
    decreases t, 0
  {
    [Indent(levels) + Body(t.entry)]
    + PrintKids(t.normal, levels)
    + PrintSection(BUILD_HEADER, t.build, levels)
    + PrintSection(DEV_HEADER, t.dev, levels)
  }

  function PrintKids(f: Forest, levels: seq<Level>): seq<string>
    decreases f, 0
  {
    if f.Nil? then [] else PrintTree(f.head, levels + [LevelOf(f.tail)]) + PrintKids(f.tail, levels)
  }

  function PrintSection(header: string, f: Forest, levels: seq<Level>): seq<string>
    decreases f, 1
  {
    if f.Nil? then [] else [Rules(levels) + header] + PrintKids(f, levels)
  }

  /** The roots, with an empty line between them. */
  function PrintRoots(f: Forest): seq<string> {
    if f.Nil? then []
    else PrintTree(f.head, []) + (if f.tail.Cons? then [""] else []) + PrintRoots(f.tail)
  }

  /** The variant a package itself contributes. */
  function Own(e: Entry, host: bool): set<Variant> {
    if e.source.Some? then {} else {Variant(e.name, e.version, host, set f | f in e.features)}
  }

  /** What a tree contributes: a registry package is on the host side exactly
      when it is a proc-macro, its parent is, or it is a build-dependency. */
  function Variants(t: Tree, parentHost: bool): set<Variant> {
    var e := t.entry;
    var host := e.procMacro || parentHost;
    Own(e, host) + AllVariants(t.normal, host) + AllVariants(t.build, true) + AllVariants(t.dev, host)
  }

  function AllVariants(f: Forest, parentHost: bool): set<Variant> {
    if f.Nil? then {} else Variants(f.head, parentHost) + AllVariants(f.tail, parentHost)
  }

  // ---- indentation is counted back ----

  /** `prefix` is exactly `n` tokens. */
  ghost predicate Tokens(prefix: string, n: nat) {
    if n == 0 then prefix == "" else HasToken(prefix) && Tokens(prefix[4..], n - 1)
  }

  lemma {:induction false} TokensJoin(a: string, m: nat, b: string, n: nat)
    requires Tokens(a, m) && Tokens(b, n)
    ensures Tokens(a + b, m + n)
    decreases m
  {
    if m == 0 {
      assert a + b == b;
    } else {
      assert (a + b)[..4] == a[..4] && (a + b)[4..] == a[4..] + b;
      TokensJoin(a[4..], m - 1, b, n);
    }
  }

  lemma {:induction false} RulesAreTokens(levels: seq<Level>)
    ensures Tokens(Rules(levels), |levels|)
  {
    if levels == [] {
    } else {
      RulesAreTokens(levels[1..]);
      var first := if levels[0].Continues? then "|   " else "    ";
      assert first[..4] == first && first[4..] == "";
      assert Tokens(first[4..], 0) && Tokens(first, 1);
      TokensJoin(first, 1, Rules(levels[1..]), |levels| - 1);
    }
  }

  lemma {:induction false} IndentIsTokens(levels: seq<Level>)
    ensures Tokens(Indent(levels), |levels|)
  {
    if levels != [] {
      var n := |levels| - 1;
      RulesAreTokens(levels[..n]);
      var last := if levels[n].Continues? then "|-- " else "`-- ";
      assert last[..4] == last && last[4..] == "";
      assert Tokens(last[4..], 0) && Tokens(last, 1);
      TokensJoin(Rules(levels[..n]), n, last, 1);
    }
  }

  lemma {:induction false} TokensCounted(prefix: string, n: nat, body: string)
    requires Tokens(prefix, n) && !HasToken(body)
    ensures CountTokens(prefix + body) == n && |prefix| == 4 * n
    decreases n
  {
    if n == 0 {
      assert prefix + body == body;
    } else {
      assert (prefix + body)[..4] == prefix[..4] && (prefix + body)[4..] == prefix[4..] + body;
      TokensCounted(prefix[4..], n - 1, body);
    }
  }

  /** A line whose body starts with neither a space nor a token mark. */
  lemma LineSplits(r: Reader, prefix: string, n: nat, body: string)
    requires Tokens(prefix, n) && body != "" && !IsSpace(body[0]) && body[0] != '|' && body[0] != '`'
    ensures ReadLine(r, prefix + body) == ReadBody(r, n, body)
  {
    var line := prefix + body;
    assert |body| >= 4 ==> body[..4][0] == body[0];
    TokensCounted(prefix, n, body);
    assert line[|prefix|] == body[0] && line[|prefix|] in line;
    assert line[4 * n..] == body;
  }

  /** A body that starts like a package, not like indentation or a header. */
  predicate StartsPlain(body: string) {
    body != "" && NameChar(body[0])
  }

  lemma BodyStartsPlain(e: Entry)
    requires Printable(e)
    ensures StartsPlain(Body(e))
  {
    assert Body(e)[0] == Head(e)[0] == e.name[0];
    assert e.name[0] in e.name;
  }

  lemma PlainBody(r: Reader, depth: nat, body: string, p: Package)
    requires StartsPlain(body) && depth <= |r.stack| && ParsePackage(body) == Ok(p)
    ensures ReadBody(r, depth, body) == Ok(AddPackage(r, depth, p))
  {
    assert body[..1][0] == body[0] != '[';
  }

  lemma PackageLine(r: Reader, levels: seq<Level>, e: Entry)
    requires Printable(e) && |levels| <= |r.stack|
    ensures ReadLine(r, Indent(levels) + Body(e)) == Ok(AddPackage(r, |levels|, Recorded(e)))
  {
    var prefix, body, p := Indent(levels), Body(e), Recorded(e);
    assert Tokens(prefix, |levels|) by { IndentIsTokens(levels); }
    assert StartsPlain(body) by { BodyStartsPlain(e); }
    assert ParsePackage(body) == Ok(p) by { PackageRecovered(e); }
    PlainLine(r, prefix, |levels|, body, p);
  }

  lemma PlainLine(r: Reader, prefix: string, n: nat, body: string, p: Package)
    requires Tokens(prefix, n) && n <= |r.stack| && StartsPlain(body) && ParsePackage(body) == Ok(p)
    ensures ReadLine(r, prefix + body) == Ok(AddPackage(r, n, p))
  {
    LineSplits(r, prefix, n, body);
    PlainBody(r, n, body, p);
  }

  lemma {:induction false} HeaderLine(r: Reader, levels: seq<Level>, header: string, section: Section)
    requires |levels| < |r.stack| && SectionOf(header) == Some(section)
    ensures ReadLine(r, Rules(levels) + header) ==
            Ok(r.(stack := r.stack[..|levels|] + [r.stack[|levels|].(section := section)]))
  {
    RulesAreTokens(levels);
    LineSplits(r, Rules(levels), |levels|, header);
  }

  /** A bracketed line is accepted exactly when it is one of the two headers and
      a package stands at its depth. */
  lemma HeaderLineIff(r: Reader, levels: seq<Level>, header: string)
    requires StartsWith(header, "[")
    ensures ReadLine(r, Rules(levels) + header).Ok? <==>
            (header == BUILD_HEADER || header == DEV_HEADER) && |levels| < |r.stack|
  {
    RulesAreTokens(levels);
    assert header[0] == header[..1][0] == '[';
    LineSplits(r, Rules(levels), |levels|, header);
  }

  /** A package line is accepted exactly when it reads as a package and is no
      deeper than the ancestry; then it adds that package. */
  lemma PackageLineIff(r: Reader, levels: seq<Level>, body: string)
    requires StartsPlain(body)
    ensures var out := ReadLine(r, Indent(levels) + body);
            && (out.Ok? <==> |levels| <= |r.stack| && ParsePackage(body).Ok?)
            && (out.Ok? ==> out.value == AddPackage(r, |levels|, ParsePackage(body).value))
  {
    IndentIsTokens(levels);
    LineSplits(r, Indent(levels), |levels|, body);
    assert body[..1][0] == body[0] != '[';
  }

  /** A blank line ends the ancestry: after it only a root is accepted. */
  lemma AfterBlankLine(r: Reader, blank: string, levels: seq<Level>, line: string)
    requires Blank(blank)
    ensures StartsWith(line, "[") ==> ReadLines(r, [blank, Rules(levels) + line]).Err?
    ensures StartsPlain(line) ==>
              (ReadLines(r, [blank, Indent(levels) + line]).Ok? <==> levels == [] && ParsePackage(line).Ok?)
  {
    var reset := r.(stack := []);
    TwoLines(r, blank, Rules(levels) + line);
    TwoLines(r, blank, Indent(levels) + line);
    if StartsWith(line, "[") {
      HeaderLineIff(reset, levels, line);
    }
    if StartsPlain(line) {
      PackageLineIff(reset, levels, line);
    }
  }

  lemma TwoLines(r: Reader, blank: string, line: string)
    requires Blank(blank)
    ensures ReadLines(r, [blank, line]).Ok? <==> ReadLine(r.(stack := []), line).Ok?
  {
    var next := r.(stack := []);
    assert [blank, line][1..] == [line] && [line][1..] == [];
    assert ReadLine(r, blank) == Ok(next);
    assert ReadLines(r, [blank, line]) == ReadLines(next, [line]);
    if ReadLine(next, line).Ok? {
      assert ReadLines(ReadLine(next, line).value, []).Ok?;
    }
  }

  // ---- reading back a printed forest ----

  /** Reading `lines` from `r` succeeds, leaves the lowest `n` ancestors alone
      and adds exactly `vs`. */
  ghost predicate Reads(r: Reader, lines: seq<string>, n: nat, vs: set<Variant>)
    requires n <= |r.stack|
  {
    var out := ReadLines(r, lines);
    && out.Ok? && n <= |out.value.stack| && out.value.stack[..n] == r.stack[..n]
    && out.value.variants == r.variants + vs
  }

  lemma ReadsAppend(r: Reader, a: seq<string>, b: seq<string>, n: nat, vs: set<Variant>, ws: set<Variant>)
    requires n <= |r.stack| && Reads(r, a, n, vs) && Reads(ReadLines(r, a).value, b, n, ws)
    ensures Reads(r, a + b, n, vs + ws)
  {
    ReadAppend(r, a, b);
  }

  lemma ReadsOne(r: Reader, line: string, next: Reader, n: nat, vs: set<Variant>)
    requires n <= |r.stack| && ReadLine(r, line) == Ok(next)
    requires n <= |next.stack| && next.stack[..n] == r.stack[..n] && next.variants == r.variants + vs
    ensures Reads(r, [line], n, vs) && ReadLines(r, [line]) == Ok(next)
  {
    assert [line][1..] == [];
    assert ReadLines(next, []) == Ok(next);
  }

  lemma {:induction false} KidsRead(f: Forest, levels: seq<Level>, r: Reader)
    requires PrintableForest(f) && |levels| < |r.stack|
    ensures Reads(r, PrintKids(f, levels), |levels| + 1, AllVariants(f, r.stack[|levels|].ChildIsHost()))
    decreases f, 0
  {
    if f.Nil? {
    } else {
      var n, host := |levels| + 1, r.stack[|levels|].ChildIsHost();
      var lines := PrintTree(f.head, levels + [LevelOf(f.tail)]);
      TreeRead(f.head, levels + [LevelOf(f.tail)], r);
      var m := ReadLines(r, lines).value;
      assert m.stack[|levels|] == m.stack[..n][|levels|] == r.stack[..n][|levels|];
      KidsRead(f.tail, levels, m);
      ReadsAppend(r, lines, PrintKids(f.tail, levels), n, Variants(f.head, host), AllVariants(f.tail, host));
    }
  }

  lemma {:induction false} SectionRead(header: string, section: Section, f: Forest, levels: seq<Level>,
                                       r: Reader, host: bool)
    requires PrintableForest(f) && |levels| < |r.stack| && SectionOf(header) == Some(section)
    requires host == (r.stack[|levels|].host || section.BuildSection?)
    ensures Reads(r, PrintSection(header, f, levels), |levels|, AllVariants(f, host))
    ensures var m := ReadLines(r, PrintSection(header, f, levels)).value;
            |m.stack| > |levels| && m.stack[|levels|].host == r.stack[|levels|].host
    decreases f, 1
  {
    if f.Cons? {
      var n := |levels|;
      HeaderLine(r, levels, header, section);
      var m := r.(stack := r.stack[..n] + [r.stack[n].(section := section)]);
      ReadsOne(r, Rules(levels) + header, m, n, {});
      KidsRead(f, levels, m);
      var end := ReadLines(m, PrintKids(f, levels)).value;
      assert end.stack[..n] == end.stack[..n + 1][..n] && end.stack[n] == end.stack[..n + 1][n];
      ReadsAppend(r, [Rules(levels) + header], PrintKids(f, levels), n, {}, AllVariants(f, host));
      ReadAppend(r, [Rules(levels) + header], PrintKids(f, levels));
    }
  }

  ghost predicate ParentIsHost(r: Reader, n: nat)
    requires n <= |r.stack|
  {
    n > 0 && r.stack[n - 1].ChildIsHost()
  }

  /** Reading `lines` also leaves a package at depth `n` on the given side. */
  ghost predicate ReadsTo(r: Reader, lines: seq<string>, n: nat, vs: set<Variant>, host: bool)
    requires n <= |r.stack|
  {
    && Reads(r, lines, n, vs)
    && var out := ReadLines(r, lines).value; |out.stack| > n && out.stack[n].host == host
  }

  lemma EntryRead(e: Entry, levels: seq<Level>, r: Reader, host: bool)
    requires Printable(e) && |levels| <= |r.stack|
    requires host == (e.procMacro || ParentIsHost(r, |levels|))
    ensures ReadsTo(r, [Indent(levels) + Body(e)], |levels|, Own(e, host), host)
    ensures ReadLines(r, [Indent(levels) + Body(e)]).value.stack[|levels|] == Node(host, NormalSection)
  {
    PackageLine(r, levels, e);
    var next := AddPackage(r, |levels|, Recorded(e));
    ReadsOne(r, Indent(levels) + Body(e), next, |levels|, Own(e, host));
  }

  /** The package line and the normal dependencies under it. */
  lemma {:induction false} UpperRead(t: Tree, levels: seq<Level>, r: Reader, host: bool)
    requires PrintableTree(t) && |levels| <= |r.stack|
    requires host == (t.entry.procMacro || ParentIsHost(r, |levels|))
    ensures ReadsTo(r, [Indent(levels) + Body(t.entry)] + PrintKids(t.normal, levels), |levels|,
                    Own(t.entry, host) + AllVariants(t.normal, host), host)
    decreases t, 0
  {
    var n := |levels|;
    var line, kids := [Indent(levels) + Body(t.entry)], PrintKids(t.normal, levels);
    EntryRead(t.entry, levels, r, host);
    var a := ReadLines(r, line).value;
    KidsRead(t.normal, levels, a);
    var b := ReadLines(a, kids).value;
    assert b.stack[..n] == b.stack[..n + 1][..n] && b.stack[n] == b.stack[..n + 1][n] == a.stack[..n + 1][n];
    ReadsAppend(r, line, kids, n, Own(t.entry, host), AllVariants(t.normal, host));
    ReadAppend(r, line, kids);
  }

  lemma {:induction false} ThenSection(r: Reader, lines: seq<string>, vs: set<Variant>, host: bool,
                                       header: string, section: Section, f: Forest, levels: seq<Level>)
    requires |levels| <= |r.stack| && ReadsTo(r, lines, |levels|, vs, host)
    requires PrintableForest(f) && SectionOf(header) == Some(section)
    ensures ReadsTo(r, lines + PrintSection(header, f, levels), |levels|,
                    vs + AllVariants(f, host || section.BuildSection?), host)
    decreases f, 2
  {
    var m := ReadLines(r, lines).value;
    var under := host || section.BuildSection?;
    SectionRead(header, section, f, levels, m, under);
    ReadsAppend(r, lines, PrintSection(header, f, levels), |levels|, vs, AllVariants(f, under));
    ReadAppend(r, lines, PrintSection(header, f, levels));
  }

  lemma {:induction false} TreeRead(t: Tree, levels: seq<Level>, r: Reader)
    requires PrintableTree(t) && |levels| <= |r.stack|
    ensures Reads(r, PrintTree(t, levels), |levels|, Variants(t, ParentIsHost(r, |levels|)))
    decreases t, 1
  {
    var host := t.entry.procMacro || ParentIsHost(r, |levels|);
    UpperRead(t, levels, r, host);
    var upper := [Indent(levels) + Body(t.entry)] + PrintKids(t.normal, levels);
    var vs := Own(t.entry, host) + AllVariants(t.normal, host);
    ThenSection(r, upper, vs, host, BUILD_HEADER, BuildSection, t.build, levels);
    ThenSection(r, upper + PrintSection(BUILD_HEADER, t.build, levels), vs + AllVariants(t.build, true), host,
                DEV_HEADER, DevSection, t.dev, levels);
  }

  lemma {:induction false} RootsRead(f: Forest, r: Reader)
    requires PrintableForest(f)
    ensures Reads(r, PrintRoots(f), 0, AllVariants(f, false))
  {
    if f.Nil? {
    } else {
      TreeRead(f.head, [], r);
      var tree, gap := PrintTree(f.head, []), if f.tail.Cons? then [""] else [];
      var m := ReadLines(r, tree).value;
      if f.tail.Cons? {
        ReadsOne(m, "", m.(stack := []), 0, {});
      }
      ReadsAppend(r, tree, gap, 0, Variants(f.head, false), {});
      ReadAppend(r, tree, gap);
      var after := ReadLines(r, tree + gap).value;
      RootsRead(f.tail, after);
      ReadsAppend(r, tree + gap, PrintRoots(f.tail), 0, Variants(f.head, false) + {}, AllVariants(f.tail, false));
      assert Variants(f.head, false) + {} == Variants(f.head, false);
    }
  }

  /** Every printed forest is accepted, and read as exactly its registry
      variants, each on the right side. */
  lemma PrintedForestReads(f: Forest)
    requires PrintableForest(f)
    ensures ReadLines(Reader([], {}), PrintRoots(f)).Ok?
    ensures ReadLines(Reader([], {}), PrintRoots(f)).value.variants == AllVariants(f, false)
  {
    RootsRead(f, Reader([], {}));
  }
}
