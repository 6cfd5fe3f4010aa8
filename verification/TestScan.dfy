/** Cutting test-only text out of a lexed Rust file: the scanner's spans and
    the membership test that bisects them. */
module TestScan {
  import opened Text
  import opened Cfg
  import opened Outcomes

  // ---- small matchers, each standing for one of the scanner's patterns ----

  predicate IsWordStart(c: char) {
    'a' <= c <= 'z' || 'A' <= c <= 'Z' || c == '_'
  }

  predicate IsWord(c: char) {
    IsWordStart(c) || '0' <= c <= '9'
  }

  function SkipSpace(text: string, i: nat): (j: nat)
    requires i <= |text|
    ensures i <= j <= |text|
    decreases |text| - i
  {
    if i < |text| && IsSpace(text[i]) then SkipSpace(text, i + 1) else i
  }

  function SkipWord(text: string, i: nat): (j: nat)
    requires i <= |text|
    ensures i <= j <= |text|
    decreases |text| - i
  {
    if i < |text| && IsWord(text[i]) then SkipWord(text, i + 1) else i
  }

  predicate HasAt(text: string, i: nat, what: string) {
    i + |what| <= |text| && forall k {:trigger what[k]} :: 0 <= k < |what| ==> what[k] == text[i + k]
  }

  /** End of `#[` with optional space between, at exactly `i`. */
  function HashBracket(text: string, i: nat): (r: Option<nat>)
    requires i <= |text|
    ensures r.Some? ==> i + 2 <= r.value <= |text| && text[i] == '#' && text[r.value - 1] == '['
  {
    if i < |text| && text[i] == '#' then
      var k := SkipSpace(text, i + 1);
      if k < |text| && text[k] == '[' then Some(k + 1) else None
    else None
  }

  datatype Span = Span(start: nat, end: nat)

  /** The next brace or attribute opening at or after `pos`. */
  function NextHit(text: string, pos: nat): (r: Option<Span>)
    requires pos <= |text|
    ensures r.Some? ==> pos <= r.value.start < r.value.end <= |text|
    ensures r.Some? ==> HashBracket(text, r.value.start) == Some(r.value.end)
                        || (text[r.value.start] in {'{', '}'} && r.value.end == r.value.start + 1)
    ensures forall k :: pos <= k < (if r.Some? then r.value.start else |text|)
              ==> text[k] !in {'{', '}'} && HashBracket(text, k).None?
    decreases |text| - pos
  {
    if pos == |text| then None
    else if text[pos] == '{' || text[pos] == '}' then Some(Span(pos, pos + 1))
    else match HashBracket(text, pos)
      case Some(end) => Some(Span(pos, end))
      case None => NextHit(text, pos + 1)
  }

  /** An optional visibility: `pub`, with a parenthesised scope or not. */
  function AfterVisibility(text: string, i: nat): (j: nat)
    requires i <= |text|
    ensures i <= j <= |text|
  {
    var k := SkipSpace(text, i);
    if HasAt(text, k, "pub") && (k + 3 < |text| ==> !IsWord(text[k + 3])) then AfterScope(text, k + 3) else i
  }

  /** After the scope in parentheses, if one comes next. */
  function AfterScope(text: string, i: nat): (j: nat)
    requires i <= |text|
    ensures i <= j <= |text|
  {
    var open := SkipSpace(text, i);
    if open < |text| && text[open] == '(' then
      var close := NextParen(text, open + 1);
      if close < |text| && text[close] == ')' then close + 1 else i
    else i
  }

  function NextParen(text: string, i: nat): (j: nat)
    requires i <= |text|
    ensures i <= j <= |text|
    decreases |text| - i
  {
    if i < |text| && text[i] != '(' && text[i] != ')' then NextParen(text, i + 1) else i
  }

  /** The identifier after optional space, or the empty string. */
  function WordAt(text: string, i: nat): string
    requires i <= |text|
  {
    var k := SkipSpace(text, i);
    if k < |text| && IsWordStart(text[k]) then text[k..SkipWord(text, k)] else ""
  }

  const ITEM_KEYWORDS := {
    "mod", "fn", "struct", "enum", "union", "impl", "trait", "const", "static",
    "use", "type", "extern", "macro_rules", "unsafe", "async"
  }

  function DropSpaceEnd(s: string): (k: nat)
    ensures k <= |s|
  {
    if s != "" && IsSpace(s[|s| - 1]) then DropSpaceEnd(s[..|s| - 1]) else |s|
  }

  /** The predicate text when an attribute's content reads `cfg ( ... )`. */
  function CfgContent(s: string): Option<string> {
    var i := SkipSpace(s, 0);
    if !HasAt(s, i, "cfg") then None
    else
      var open := SkipSpace(s, i + 3);
      var end := DropSpaceEnd(s);
      if open < |s| && s[open] == '(' && open + 1 < end && s[end - 1] == ')' then Some(s[open + 1..end - 1])
      else None
  }

  predicate IsTestCfg(text: string, start: nat, end: nat)
    requires start <= end <= |text|
  {
    var cfg := CfgContent(text[start..end]);
    cfg.Some? && CfgImpliesTest(cfg.value)
  }

  /** An attribute's content that reads `path = ""`, its value blanked. */
  predicate IsPathContent(s: string) {
    var i := SkipSpace(s, 0);
    HasAt(s, i, "path") && EqualsBlanked(s, i + 4)
  }

  const QUOTES := "\"\""

  predicate EqualsBlanked(s: string, i: nat)
    requires i <= |s|
  {
    var equals := SkipSpace(s, i);
    equals < |s| && s[equals] == '=' && QuotesEnd(s, equals + 1)
  }

  predicate QuotesEnd(s: string, i: nat)
    requires i <= |s|
  {
    var quotes := SkipSpace(s, i);
    HasAt(s, quotes, QUOTES) && SkipSpace(s, quotes + 2) == |s|
  }

  /** A test-only module declaration, and where the content of its path
      attribute starts if it has one. */
  datatype TestModule = TestModule(name: string, pathAttribute: Option<nat>)

  function FirstPath(text: string, contents: seq<Span>): Option<nat> {
    if contents == [] then None
    else
      var c := contents[0];
      if c.start <= c.end <= |text| && IsPathContent(text[c.start..c.end]) then Some(c.start)
      else FirstPath(text, contents[1..])
  }

  /** The module declared after a run of attributes that ends at `after`. */
  function DeclaredModule(text: string, contents: seq<Span>, after: nat): Option<TestModule>
    requires after <= |text|
  {
    var head := AfterVisibility(text, after);
    if WordAt(text, head) != "mod" then None
    else
      var name := WordAt(text, SkipWord(text, SkipSpace(text, head)));
      if name == "" then None else Some(TestModule(name, FirstPath(text, contents)))
  }

  // ---- brackets ----

  /** Openers minus closers in text[lo..hi). */
  function Balance(text: string, opener: char, closer: char, lo: nat, hi: nat): int
    requires lo <= hi <= |text|
    decreases hi - lo
  {
    if lo == hi then 0
    else Balance(text, opener, closer, lo, hi - 1)
         + (if text[hi - 1] == opener then 1 else if text[hi - 1] == closer then -1 else 0)
  }

  /** `c` closes the bracket at `open`: the first return to balance. */
  ghost predicate Closes(text: string, opener: char, closer: char, open: nat, c: nat) {
    && open < c < |text|
    && Balance(text, opener, closer, open, c + 1) == 0
    && StaysOpen(text, opener, closer, open, c)
  }

  predicate OpenAt(text: string, opener: char, closer: char, open: nat, k: nat)
    requires open <= k <= |text|
  {
    Balance(text, opener, closer, open, k) > 0
  }

  /** The bracket at `open` is not closed up to `end`. */
  ghost predicate StaysOpen(text: string, opener: char, closer: char, open: nat, end: nat)
    requires end <= |text|
  {
    forall k {:trigger OpenAt(text, opener, closer, open, k)} ::
      open < k <= end ==> OpenAt(text, opener, closer, open, k)
  }

  function CloserOf(opener: char): char {
    if opener == '[' then ']' else '}'
  }

  /** Offset of the bracket that closes the one at `open`, if any. */
  method MatchingClose(text: string, open: nat) returns (r: Option<nat>)
    requires open < |text| && text[open] in {'[', '{'}
    ensures r.Some? ==> Closes(text, text[open], CloserOf(text[open]), open, r.value)
    ensures r.None? ==> StaysOpen(text, text[open], CloserOf(text[open]), open, |text|)
  {
    var opener := text[open];
    var closer := CloserOf(opener);
    var depth := 0;
    for i := open to |text|
      invariant depth == Balance(text, opener, closer, open, i)
      invariant i > open ==> depth > 0
      invariant StaysOpen(text, opener, closer, open, i)
    {
      if text[i] == opener {
        depth := depth + 1;
      } else if text[i] == closer {
        depth := depth - 1;
        if depth == 0 {
          return Some(i);
        }
      }
    }
    return None;
  }

  predicate IsOpener(c: char) { c == '(' || c == '[' || c == '{' }
  predicate IsCloser(c: char) { c == ')' || c == ']' || c == '}' }

  /** Nesting of all three bracket kinds over text[lo..hi). */
  function Depth(text: string, lo: nat, hi: nat): int
    requires lo <= hi <= |text|
    decreases hi - lo
  {
    if lo == hi then 0
    else Depth(text, lo, hi - 1) + (if IsOpener(text[hi - 1]) then 1 else if IsCloser(text[hi - 1]) then -1 else 0)
  }

  /** The closer of whatever encloses the item. */
  predicate ParentCloser(text: string, head: nat, k: nat)
    requires head <= k < |text|
  {
    IsCloser(text[k]) && Depth(text, head, k) == 0
  }

  /** The token that ends the item, itself included. */
  predicate LastToken(text: string, head: nat, k: nat, isItem: bool)
    requires head <= k < |text|
  {
    || (text[k] == '}' && Depth(text, head, k) == 1)
    || (text[k] == ';' && Depth(text, head, k) == 0)
    || (text[k] == ',' && Depth(text, head, k) == 0 && !isItem)
  }

  ghost predicate NoneBefore(text: string, head: nat, end: nat, isItem: bool)
    requires head <= end <= |text|
  {
    forall k {:trigger ParentCloser(text, head, k)} {:trigger LastToken(text, head, k, isItem)} ::
      head <= k < end ==> !ParentCloser(text, head, k) && !LastToken(text, head, k, isItem)
  }

  /** Where the attributed thing at `head` ends: at its parent's closer, after
      its last token, or at the end of the text, whichever comes first. */
  ghost predicate EndsItem(text: string, head: nat, isItem: bool, end: nat) {
    && head <= end <= |text|
    && (|| (NoneBefore(text, head, end, isItem) && (end < |text| ==> ParentCloser(text, head, end)))
        || (end > head && NoneBefore(text, head, end - 1, isItem) && LastToken(text, head, end - 1, isItem)))
  }

  method ItemEnd(text: string, head: nat, isItem: bool) returns (end: nat)
    requires head <= |text|
    ensures EndsItem(text, head, isItem, end)
  {
    var depth := 0;
    for i := head to |text|
      invariant depth == Depth(text, head, i)
      invariant NoneBefore(text, head, i, isItem)
    {
      var token := text[i];
      if IsOpener(token) {
        depth := depth + 1;
      } else if IsCloser(token) {
        if depth == 0 {
          return i;
        }
        depth := depth - 1;
        if depth == 0 && token == '}' {
          return i + 1;
        }
      } else if depth == 0 && (token == ';' || (token == ',' && !isItem)) {
        return i + 1;
      }
    }
    return |text|;
  }

  /** The item never runs past the closer of what encloses it: no prefix of it
      closes more than it opened. */
  lemma {:induction false} ItemStaysInside(text: string, head: nat, isItem: bool, end: nat, k: nat)
    requires EndsItem(text, head, isItem, end) && head <= k <= end
    ensures Depth(text, head, k) >= 0
    decreases k
  {
    if k == head {
    } else {
      ItemStaysInside(text, head, isItem, end, k - 1);
      assert !ParentCloser(text, head, k - 1);
    }
  }

  // ---- the scan ----

  /** text[c.start..c.end) is the inside of an attribute's brackets. */
  ghost predicate IsContent(text: string, c: Span) {
    && 0 < c.start <= c.end < |text| && text[c.start - 1] == '['
    && Closes(text, '[', ']', c.start - 1, c.end)
  }

  ghost predicate AllContents(text: string, contents: seq<Span>) {
    forall i :: 0 <= i < |contents| ==> IsContent(text, contents[i])
  }

  /** `c` is the inside of the attribute that comes next at `at`, after space. */
  ghost predicate AttributeAt(text: string, at: nat, c: Span) {
    at <= |text| && HashBracket(text, SkipSpace(text, at)) == Some(c.start) && IsContent(text, c)
  }

  /** Where the attribute numbered `i` of a run is looked for. */
  function Before(pos: nat, contents: seq<Span>, i: nat): nat
    requires i <= |contents|
  {
    if i == 0 then pos else contents[i - 1].end + 1
  }

  ghost predicate NthFollows(text: string, pos: nat, contents: seq<Span>, i: nat)
    requires i < |contents|
  {
    AttributeAt(text, Before(pos, contents, i), contents[i])
  }

  /** The attributes of `contents` follow each other from `pos` on. */
  ghost predicate Chain(text: string, pos: nat, contents: seq<Span>) {
    forall i: nat {:trigger NthFollows(text, pos, contents, i)} :: i < |contents| ==> NthFollows(text, pos, contents, i)
  }

  /** ... and no further attribute follows: the whole run, ending at `after`. */
  ghost predicate IsRun(text: string, pos: nat, contents: seq<Span>, after: nat) {
    && after <= |text| && after == Before(pos, contents, |contents|)
    && Chain(text, pos, contents) && forall c :: !AttributeAt(text, after, c)
  }

  lemma ChainGrows(text: string, pos: nat, contents: seq<Span>, c: Span)
    requires Chain(text, pos, contents) && AttributeAt(text, Before(pos, contents, |contents|), c)
    ensures Chain(text, pos, contents + [c])
  {
    var longer := contents + [c];
    forall i: nat | i < |longer|
      ensures NthFollows(text, pos, longer, i)
    {
      assert Before(pos, longer, i) == Before(pos, contents, i);
      if i < |contents| {
        assert NthFollows(text, pos, contents, i);
      }
    }
  }

  lemma NeverCloses(text: string, opener: char, closer: char, open: nat, c: nat)
    requires StaysOpen(text, opener, closer, open, |text|)
    ensures !Closes(text, opener, closer, open, c)
  {
    assert open < c < |text| ==> OpenAt(text, opener, closer, open, c + 1);
  }

  lemma UnclosedIsNone(text: string, at: nat, open: nat)
    requires at <= |text| && HashBracket(text, SkipSpace(text, at)) == Some(open)
    requires 0 < open <= |text| && StaysOpen(text, '[', ']', open - 1, |text|)
    ensures forall c :: !AttributeAt(text, at, c)
  {
    forall c
      ensures !AttributeAt(text, at, c)
    {
      NeverCloses(text, '[', ']', open - 1, c.end);
    }
  }

  /** The contents of the run of attributes at `pos`, and where the run ends. */
  method OuterAttributes(text: string, pos: nat) returns (contents: seq<Span>, after: nat)
    requires pos <= |text|
    ensures pos <= after && IsRun(text, pos, contents, after) && (contents != [] ==> pos < after)
    ensures AllContents(text, contents)
  {
    contents, after := [], pos;
    while true
      invariant pos <= after <= |text| && (contents != [] ==> pos < after)
      invariant after == Before(pos, contents, |contents|) && Chain(text, pos, contents)
      invariant AllContents(text, contents)
      decreases |text| - after
    {
      var open := HashBracket(text, SkipSpace(text, after));
      if open.None? {
        return;
      }
      var close := MatchingClose(text, open.value - 1);
      if close.None? {
        UnclosedIsNone(text, after, open.value);
        return;
      }
      ChainGrows(text, pos, contents, Span(open.value, close.value));
      contents := contents + [Span(open.value, close.value)];
      after := close.value + 1;
    }
  }

  ghost predicate HasTestCfg(text: string, contents: seq<Span>) {
    exists i :: 0 <= i < |contents| && contents[i].start <= contents[i].end <= |text|
                && IsTestCfg(text, contents[i].start, contents[i].end)
  }

  /** `span` is a run of attributes that admits test builds only, up to the end
      of the thing it is written on. */
  ghost predicate IsTestSpan(text: string, span: Span, contents: seq<Span>, after: nat) {
    && span.start < span.end <= |text| && HashBracket(text, span.start).Some?
    && IsRun(text, span.start, contents, after) && HasTestCfg(text, contents)
    && var head := AfterVisibility(text, after);
       EndsItem(text, head, WordAt(text, head) in ITEM_KEYWORDS, span.end)
  }

  ghost predicate IsTestItem(text: string, span: Span) {
    exists contents, after :: IsTestSpan(text, span, contents, after)
  }

  /** `span` is a run of attributes of which none admits test builds only; an
      attribute that is never closed is passed over up to its bracket. */
  ghost predicate IsOtherRun(text: string, span: Span) {
    exists contents, after :: IsOther(text, span, contents, after)
  }

  ghost predicate IsOther(text: string, span: Span, contents: seq<Span>, after: nat) {
    && span.start < |text| && text[span.start] == '#'
    && IsRun(text, span.start, contents, after) && !HasTestCfg(text, contents)
    && (if contents == [] then HashBracket(text, span.start) == Some(span.end) else span.end == after)
  }

  /** Non-empty, in order, and never overlapping. */
  ghost predicate Ordered(text: string, spans: seq<Span>) {
    && (forall i :: 0 <= i < |spans| ==> spans[i].start < spans[i].end <= |text|)
    && (forall i, j :: 0 <= i < j < |spans| ==> spans[i].end <= spans[j].start)
  }

  ghost predicate AllTestItems(text: string, spans: seq<Span>) {
    forall i {:trigger NthIsTestItem(text, spans, i)} :: 0 <= i < |spans| ==> NthIsTestItem(text, spans, i)
  }

  ghost predicate NthIsTestItem(text: string, spans: seq<Span>, i: nat)
    requires i < |spans|
  {
    IsTestItem(text, spans[i])
  }

  lemma AppendOrdered(text: string, spans: seq<Span>, span: Span)
    requires Ordered(text, spans) && span.start < span.end <= |text|
    requires spans != [] ==> spans[|spans| - 1].end <= span.start
    ensures Ordered(text, spans + [span])
  {
    assert forall i :: 0 <= i < |spans| ==> spans[i].end <= span.start;
  }

  lemma AppendTestItem(text: string, spans: seq<Span>, span: Span)
    requires AllTestItems(text, spans) && IsTestItem(text, span)
    ensures AllTestItems(text, spans + [span])
  {
    forall i | 0 <= i < |spans + [span]| ensures NthIsTestItem(text, spans + [span], i) {
      if i < |spans| {
        assert NthIsTestItem(text, spans, i);
      }
    }
  }

  method AnyTestCfg(text: string, contents: seq<Span>) returns (any: bool)
    requires AllContents(text, contents)
    ensures any <==> HasTestCfg(text, contents)
  {
    for k := 0 to |contents|
      invariant forall i :: 0 <= i < k ==> !IsTestCfg(text, contents[i].start, contents[i].end)
    {
      if IsTestCfg(text, contents[k].start, contents[k].end) {
        return true;
      }
    }
    return false;
  }

  /** `span` is a test-only item that would declare `module` at top level. */
  ghost predicate IsTestItemWith(text: string, span: Span, declared: Option<TestModule>) {
    exists contents, after ::
      IsTestSpan(text, span, contents, after) && declared == DeclaredModule(text, contents, after)
  }

  /** The attribute at `hit`: where scanning resumes, whether what it is written
      on is test-only and so ends there, and the module that declares. */
  method AfterAttribute(text: string, hit: Span) returns (pos: nat, test: bool, declared: Option<TestModule>)
    requires hit.start < hit.end <= |text| && HashBracket(text, hit.start) == Some(hit.end)
    ensures hit.start < pos <= |text|
    ensures if test then IsTestItemWith(text, Span(hit.start, pos), declared)
            else IsOtherRun(text, Span(hit.start, pos))
  {
    var contents, after := OuterAttributes(text, hit.start);
    test := AnyTestCfg(text, contents);
    declared := None;
    if contents == [] {
      pos := hit.end;
      assert IsOther(text, Span(hit.start, pos), contents, after);
    } else if !test {
      pos := after;
      assert IsOther(text, Span(hit.start, pos), contents, after);
    } else {
      var head := AfterVisibility(text, after);
      declared := DeclaredModule(text, contents, after);
      pos := ItemEnd(text, head, WordAt(text, head) in ITEM_KEYWORDS);
      assert IsTestSpan(text, Span(hit.start, pos), contents, after);
    }
  }

  predicate Contains(span: Span, k: nat) {
    span.start <= k < span.end
  }

  ghost predicate InSpans(spans: seq<Span>, k: nat) {
    exists i :: 0 <= i < |spans| && Contains(spans[i], k)
  }

  ghost predicate InOtherRun(text: string, k: nat) {
    exists span :: Contains(span, k) && IsOtherRun(text, span)
  }

  /** Every attribute opening before `end` is in one of the spans or in a run
      that does not make its item test-only. */
  ghost predicate Accounted(text: string, spans: seq<Span>, end: nat)
    requires end <= |text|
  {
    forall k: nat {:trigger HashBracket(text, k)} ::
      k < end && HashBracket(text, k).Some? ==> InSpans(spans, k) || InOtherRun(text, k)
  }

  /** Hits lie at their own start, so nothing before one is skipped. */
  lemma AccountedStep(text: string, spans: seq<Span>, pos: nat, hit: Span, end: nat, spans': seq<Span>)
    requires pos <= hit.start <= end <= |text| && Accounted(text, spans, pos)
    requires forall k: nat :: pos <= k < hit.start ==> HashBracket(text, k).None?
    requires spans' == spans || spans' == spans + [Span(hit.start, end)]
    requires spans' == spans ==>
               IsOtherRun(text, Span(hit.start, end)) || (end == hit.start + 1 && HashBracket(text, hit.start).None?)
    ensures Accounted(text, spans', end)
  {
    forall k: nat | k < end && HashBracket(text, k).Some?
      ensures InSpans(spans', k) || InOtherRun(text, k)
    {
      if k < pos {
        if i :| 0 <= i < |spans| && Contains(spans[i], k) {
          assert Contains(spans'[i], k);
        }
      } else {
        assert Contains(Span(hit.start, end), k);
        assert spans' != spans ==> Contains(spans'[|spans|], k);
      }
    }
  }

  // ---- depth, and the modules declared at the top level ----

  /** Braces before `k` that no skipped stretch contains, openers minus closers. */
  ghost function BraceDepth(text: string, skips: seq<Span>, k: nat): int
    requires k <= |text|
  {
    if k == 0 then 0
    else BraceDepth(text, skips, k - 1)
         + (if InSpans(skips, k - 1) then 0 else if text[k - 1] == '{' then 1 else if text[k - 1] == '}' then -1 else 0)
  }

  ghost predicate CountsNothing(text: string, skips: seq<Span>, lo: nat, hi: nat) {
    forall k: nat {:trigger InSpans(skips, k)} ::
      lo <= k < hi && k < |text| ==> InSpans(skips, k) || (text[k] != '{' && text[k] != '}')
  }

  lemma {:induction false} DepthStays(text: string, skips: seq<Span>, lo: nat, hi: nat)
    requires lo <= hi <= |text| && CountsNothing(text, skips, lo, hi)
    ensures BraceDepth(text, skips, hi) == BraceDepth(text, skips, lo)
    decreases hi
  {
    if lo == hi {
    } else {
      DepthStays(text, skips, lo, hi - 1);
      assert InSpans(skips, hi - 1) || (text[hi - 1] != '{' && text[hi - 1] != '}');
    }
  }

  lemma LaterSkip(skips: seq<Span>, span: Span, k: nat)
    ensures InSpans(skips + [span], k) <==> InSpans(skips, k) || Contains(span, k)
  {
    var longer := skips + [span];
    if i :| 0 <= i < |skips| && Contains(skips[i], k) {
      assert Contains(longer[i], k);
    }
    if Contains(span, k) {
      assert Contains(longer[|skips|], k);
    }
  }

  /** A stretch skipped later does not change the depth before it. */
  lemma {:induction false} DepthBefore(text: string, skips: seq<Span>, span: Span, k: nat)
    requires k <= |text| && k <= span.start
    ensures BraceDepth(text, skips + [span], k) == BraceDepth(text, skips, k)
    decreases k
  {
    if k == 0 {
    } else {
      DepthBefore(text, skips, span, k - 1);
      LaterSkip(skips, span, k - 1);
    }
  }

  /** The scan's depth counter, over what it has skipped. */
  ghost predicate Counted(text: string, skips: seq<Span>, pos: nat, depth: int) {
    && pos <= |text| && depth == BraceDepth(text, skips, pos)
    && forall i :: 0 <= i < |skips| ==> skips[i].end <= pos
  }

  ghost predicate NoBraces(text: string, lo: nat, hi: nat) {
    forall k: nat :: lo <= k < hi && k < |text| ==> text[k] != '{' && text[k] != '}'
  }

  lemma CountBrace(text: string, skips: seq<Span>, pos: nat, depth: int, at: nat)
    requires Counted(text, skips, pos, depth) && pos <= at < |text| && NoBraces(text, pos, at)
    ensures Counted(text, skips, at + 1, depth + if text[at] == '{' then 1 else if text[at] == '}' then -1 else 0)
  {
    DepthStays(text, skips, pos, at);
    assert !InSpans(skips, at);
  }

  lemma CountSkip(text: string, skips: seq<Span>, pos: nat, depth: int, span: Span)
    requires Counted(text, skips, pos, depth)
    requires pos <= span.start <= span.end <= |text| && NoBraces(text, pos, span.start)
    ensures depth == BraceDepth(text, skips, span.start)
    ensures Counted(text, skips + [span], span.end, depth)
  {
    DepthStays(text, skips, pos, span.start);
    DepthBefore(text, skips, span, span.start);
    forall k: nat | span.start <= k < span.end
      ensures InSpans(skips + [span], k)
    {
      LaterSkip(skips, span, k);
    }
    DepthStays(text, skips + [span], span.start, span.end);
  }

  /** What an item declares where it stands. */
  ghost predicate Declares(text: string, skips: seq<Span>, span: Span, declared: Option<TestModule>)
    requires span.start <= |text|
  {
    exists m ::
      IsTestItemWith(text, span, m) && declared == if BraceDepth(text, skips, span.start) == 0 then m else None
  }

  /** Item by item, the declarations of the spans. */
  ghost predicate AllDeclare(text: string, skips: seq<Span>, spans: seq<Span>, declared: seq<Option<TestModule>>) {
    && |declared| == |spans|
    && forall i :: 0 <= i < |spans| ==> spans[i].start <= |text| && Declares(text, skips, spans[i], declared[i])
  }

  lemma DeclareLater(text: string, skips: seq<Span>, spans: seq<Span>, declared: seq<Option<TestModule>>, skip: Span)
    requires AllDeclare(text, skips, spans, declared) && forall i :: 0 <= i < |spans| ==> spans[i].start <= skip.start
    ensures AllDeclare(text, skips + [skip], spans, declared)
  {
    forall i | 0 <= i < |spans|
      ensures Declares(text, skips + [skip], spans[i], declared[i])
    {
      DepthBefore(text, skips, skip, spans[i].start);
    }
  }

  /** The modules the scan has collected. */
  function Modules(declared: seq<Option<TestModule>>): set<TestModule> {
    set i | 0 <= i < |declared| && declared[i].Some? :: declared[i].value
  }

  lemma ModulesAppend(declared: seq<Option<TestModule>>, m: Option<TestModule>)
    ensures Modules(declared + [m]) == Modules(declared) + if m.Some? then {m.value} else {}
  {
    var longer := declared + [m];
    forall x | x in Modules(declared)
      ensures x in Modules(longer)
    {
      var i :| 0 <= i < |declared| && declared[i].Some? && declared[i].value == x;
      assert longer[i] == declared[i];
    }
    assert longer[|declared|] == m;
  }

  /** The skipped stretches: the spans, and runs that are not test-only. */
  ghost predicate Skipped(text: string, skips: seq<Span>, spans: seq<Span>) {
    && Ordered(text, skips)
    && (forall i :: 0 <= i < |skips| ==> skips[i] in spans || IsOtherRun(text, skips[i]))
    && (forall i :: 0 <= i < |spans| ==> spans[i] in skips)
  }

  lemma SkipMore(text: string, skips: seq<Span>, spans: seq<Span>, skip: Span, test: bool)
    requires Skipped(text, skips, spans) && skip.start < skip.end <= |text|
    requires skips != [] ==> skips[|skips| - 1].end <= skip.start
    requires !test ==> IsOtherRun(text, skip)
    ensures Skipped(text, skips + [skip], if test then spans + [skip] else spans)
  {
    AppendOrdered(text, skips, skip);
  }

  lemma NextItem(text: string, skips: seq<Span>, spans: seq<Span>, declared: seq<Option<TestModule>>, item: Span,
                 found: Option<TestModule>, shown: Option<TestModule>)
    requires Ordered(text, spans) && AllTestItems(text, spans) && item.start < item.end <= |text|
    requires spans != [] ==> spans[|spans| - 1].end <= item.start
    requires IsTestItemWith(text, item, found)
    requires shown == if BraceDepth(text, skips, item.start) == 0 then found else None
    requires AllDeclare(text, skips + [item], spans, declared)
    ensures Ordered(text, spans + [item]) && AllTestItems(text, spans + [item])
    ensures AllDeclare(text, skips + [item], spans + [item], declared + [shown])
    ensures Modules(declared + [shown]) == Modules(declared) + if shown.Some? then {shown.value} else {}
  {
    AppendOrdered(text, spans, item);
    assert IsTestItem(text, item);
    AppendTestItem(text, spans, item);
    DeclareNext(text, skips, spans, declared, item, found, shown);
    ModulesAppend(declared, shown);
  }

  lemma DeclareNext(text: string, skips: seq<Span>, spans: seq<Span>, declared: seq<Option<TestModule>>, item: Span,
                    found: Option<TestModule>, shown: Option<TestModule>)
    requires item.start <= |text| && IsTestItemWith(text, item, found)
    requires shown == if BraceDepth(text, skips, item.start) == 0 then found else None
    requires AllDeclare(text, skips + [item], spans, declared)
    ensures AllDeclare(text, skips + [item], spans + [item], declared + [shown])
  {
    DepthBefore(text, skips, item, item.start);
    assert Declares(text, skips + [item], item, shown);
  }

  /** What the scan knows when it stands at `pos`. */
  ghost predicate Scanned(text: string, pos: nat, depth: int, spans: seq<Span>, modules: set<TestModule>,
                          skips: seq<Span>, declared: seq<Option<TestModule>>) {
    && pos <= |text| && Ordered(text, spans) && AllTestItems(text, spans) && Accounted(text, spans, pos)
    && (spans != [] ==> spans[|spans| - 1].end <= pos)
    && Skipped(text, skips, spans) && Counted(text, skips, pos, depth)
    && AllDeclare(text, skips, spans, declared) && modules == Modules(declared)
  }

  /** Neither a brace nor an attribute opening. */
  ghost predicate NoHits(text: string, lo: nat, hi: nat) {
    NoBraces(text, lo, hi) && forall k: nat :: lo <= k < hi && k <= |text| ==> HashBracket(text, k).None?
  }

  lemma NoHitsBefore(text: string, pos: nat)
    requires pos <= |text|
    ensures NextHit(text, pos).Some? ==> NoHits(text, pos, NextHit(text, pos).value.start)
    ensures NextHit(text, pos).None? ==> NoHits(text, pos, |text|)
  {
  }

  lemma ScanStarts(text: string)
    ensures Scanned(text, 0, 0, [], {}, [], [])
  {
    assert Modules([]) == {};
  }

  lemma ScanEnds(text: string, pos: nat, spans: seq<Span>)
    requires pos <= |text| && Accounted(text, spans, pos) && NoHits(text, pos, |text|)
    ensures Accounted(text, spans, |text|)
  {
  }

  lemma ScanBrace(text: string, pos: nat, depth: int, spans: seq<Span>, modules: set<TestModule>,
                  skips: seq<Span>, declared: seq<Option<TestModule>>, hit: Span)
    requires Scanned(text, pos, depth, spans, modules, skips, declared)
    requires pos <= hit.start < |text| && (text[hit.start] == '{' || text[hit.start] == '}')
    requires NoHits(text, pos, hit.start)
    ensures var after := depth + if text[hit.start] == '{' then 1 else -1;
            Scanned(text, hit.start + 1, after, spans, modules, skips, declared)
  {
    CountBrace(text, skips, pos, depth, hit.start);
    AccountedStep(text, spans, pos, hit, hit.start + 1, spans);
  }

  lemma ScanOther(text: string, pos: nat, depth: int, spans: seq<Span>, modules: set<TestModule>,
                  skips: seq<Span>, declared: seq<Option<TestModule>>, item: Span)
    requires Scanned(text, pos, depth, spans, modules, skips, declared)
    requires pos <= item.start < item.end <= |text| && IsOtherRun(text, item)
    requires NoHits(text, pos, item.start)
    ensures Scanned(text, item.end, depth, spans, modules, skips + [item], declared)
  {
    CountSkip(text, skips, pos, depth, item);
    DeclareLater(text, skips, spans, declared, item);
    SkipMore(text, skips, spans, item, false);
    AccountedStep(text, spans, pos, item, item.end, spans);
  }

  lemma ScanItem(text: string, pos: nat, depth: int, spans: seq<Span>, modules: set<TestModule>,
                 skips: seq<Span>, declared: seq<Option<TestModule>>, item: Span,
                 found: Option<TestModule>, shown: Option<TestModule>)
    requires Scanned(text, pos, depth, spans, modules, skips, declared)
    requires pos <= item.start < item.end <= |text| && IsTestItemWith(text, item, found)
    requires NoHits(text, pos, item.start)
    requires shown == if depth == 0 then found else None
    ensures Scanned(text, item.end, depth, spans + [item], modules + (if shown.Some? then {shown.value} else {}),
                    skips + [item], declared + [shown])
  {
    CountSkip(text, skips, pos, depth, item);
    DeclareLater(text, skips, spans, declared, item);
    SkipMore(text, skips, spans, item, true);
    NextItem(text, skips, spans, declared, item, found, shown);
    AccountedStep(text, spans, pos, item, item.end, spans + [item]);
  }

  /** One round of the scan, for an attribute. */
  method ScanAttribute(text: string, hit: Span, pos: nat, depth: int, spans: seq<Span>, modules: set<TestModule>,
                       ghost skips: seq<Span>, ghost declared: seq<Option<TestModule>>)
    returns (pos': nat, spans': seq<Span>, modules': set<TestModule>,
             ghost skips': seq<Span>, ghost declared': seq<Option<TestModule>>)
    requires Scanned(text, pos, depth, spans, modules, skips, declared)
    requires pos <= hit.start < hit.end <= |text| && HashBracket(text, hit.start) == Some(hit.end)
    requires NoHits(text, pos, hit.start)
    ensures hit.start < pos' && Scanned(text, pos', depth, spans', modules', skips', declared')
  {
    var test, found;
    pos', test, found := AfterAttribute(text, hit);
    var item := Span(hit.start, pos');
    skips' := skips + [item];
    if test {
      var shown := if depth == 0 then found else None;
      ScanItem(text, pos, depth, spans, modules, skips, declared, item, found, shown);
      spans', modules' := spans + [item], modules + if shown.Some? then {shown.value} else {};
      declared' := declared + [shown];
    } else {
      ScanOther(text, pos, depth, spans, modules, skips, declared, item);
      spans', modules', declared' := spans, modules, declared;
    }
  }

  /** The spans of a file's test-only items and the modules they declare at the
      top level. Terminates on every text; the spans are ordered and disjoint,
      each is a test-only item, no attribute that makes an item test-only is
      passed over, and a module counts exactly where no brace outside the
      skipped stretches is open. */
  method ScanTestOnly(text: string)
    returns (spans: seq<Span>, modules: set<TestModule>,
             ghost skips: seq<Span>, ghost declared: seq<Option<TestModule>>)
    ensures Ordered(text, spans) && AllTestItems(text, spans) && Accounted(text, spans, |text|)
    ensures Skipped(text, skips, spans) && AllDeclare(text, skips, spans, declared) && modules == Modules(declared)
  {
    spans, modules, skips, declared := [], {}, [], [];
    var pos, depth := 0, 0;
    ScanStarts(text);
    while true
      invariant Scanned(text, pos, depth, spans, modules, skips, declared)
      decreases |text| - pos
    {
      var hit := NextHit(text, pos);
      NoHitsBefore(text, pos);
      if hit.None? {
        ScanEnds(text, pos, spans);
        return;
      }
      var start := hit.value.start;
      if text[start] == '{' || text[start] == '}' {
        ScanBrace(text, pos, depth, spans, modules, skips, declared, hit.value);
        depth := depth + if text[start] == '{' then 1 else -1;
        pos := start + 1;
      } else {
        pos, spans, modules, skips, declared :=
          ScanAttribute(text, hit.value, pos, depth, spans, modules, skips, declared);
      }
    }
  }

  /** The number of spans that start at or before `offset`. */
  method BisectRight(text: string, spans: seq<Span>, offset: nat) returns (r: nat)
    requires Ordered(text, spans)
    ensures r <= |spans|
    ensures forall i :: 0 <= i < r ==> spans[i].start <= offset
    ensures forall i :: r <= i < |spans| ==> offset < spans[i].start
  {
    var lo, hi := 0, |spans|;
    while lo < hi
      invariant 0 <= lo <= hi <= |spans|
      invariant forall i :: 0 <= i < lo ==> spans[i].start <= offset
      invariant forall i :: hi <= i < |spans| ==> offset < spans[i].start
    {
      var mid := (lo + hi) / 2;
      if offset < spans[mid].start {
        hi := mid;
      } else {
        lo := mid + 1;
      }
    }
    r := lo;
  }

  /** Looking at one span answers for all of them. */
  method Covers(text: string, spans: seq<Span>, offset: nat) returns (r: bool)
    requires Ordered(text, spans)
    ensures r <==> exists i :: 0 <= i < |spans| && spans[i].start <= offset < spans[i].end
  {
    var n := BisectRight(text, spans, offset);
    r := n > 0 && offset < spans[n - 1].end;
  }

  /** What the scan promises of a text. */
  ghost predicate ScanResult(text: string, spans: seq<Span>, modules: set<TestModule>) {
    exists skips, declared ::
      && Ordered(text, spans) && AllTestItems(text, spans) && Accounted(text, spans, |text|)
      && Skipped(text, skips, spans) && AllDeclare(text, skips, spans, declared) && modules == Modules(declared)
  }

  /** Scan, then ask: for every text the bisecting answer is the linear one. */
  method InTestOnlyText(text: string, offset: nat) returns (spans: seq<Span>, r: bool)
    ensures Ordered(text, spans) && AllTestItems(text, spans) && Accounted(text, spans, |text|)
    ensures r <==> exists i :: 0 <= i < |spans| && spans[i].start <= offset < spans[i].end
  {
    var modules;
    ghost var skips, declared;
    spans, modules, skips, declared := ScanTestOnly(text);
    r := Covers(text, spans, offset);
  }
}
