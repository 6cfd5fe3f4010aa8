/** What the test-only scanner makes of printed source: a run of attributes and
    the item under it, with any text around them. */
module PrintedScan {
  import opened Outcomes
  import opened Text
  import opened Cfg
  import opened TestScan

  predicate Spaces(s: string) {
    forall i :: 0 <= i < |s| ==> IsSpace(s[i])
  }

  predicate Word(s: string) {
    forall i :: 0 <= i < |s| ==> IsWord(s[i])
  }

  // ---- reading at a position ----

  lemma HasAtSplit(text: string, p: nat, a: string, b: string)
    ensures HasAt(text, p, a + b) <==> HasAt(text, p, a) && HasAt(text, p + |a|, b)
  {
    var s := a + b;
    assert forall k :: 0 <= k < |a| ==> a[k] == s[k];
    assert forall k :: 0 <= k < |b| ==> b[k] == s[|a| + k];
    assert forall k :: |a| <= k < |s| ==> s[k] == b[k - |a|];
  }

  lemma HasAtSlice(text: string, p: nat, s: string)
    ensures HasAt(text, p, s) <==> p + |s| <= |text| && text[p..p + |s|] == s
  {
    if p + |s| <= |text| && text[p..p + |s|] == s {
      assert forall k :: 0 <= k < |s| ==> s[k] == text[p..p + |s|][k];
    }
  }

  lemma HasAtFive(text: string, p: nat, a: string, b: string, c: string, d: string, e: string)
    requires HasAt(text, p, a + (b + (c + (d + e))))
    ensures HasAt(text, p, a) && HasAt(text, p + |a|, b) && HasAt(text, p + |a| + |b|, c)
    ensures HasAt(text, p + |a| + |b| + |c|, d) && HasAt(text, p + |a| + |b| + |c| + |d|, e)
  {
    HasAtSplit(text, p, a, b + (c + (d + e)));
    HasAtSplit(text, p + |a|, b, c + (d + e));
    HasAtSplit(text, p + |a| + |b|, c, d + e);
    HasAtSplit(text, p + |a| + |b| + |c|, d, e);
  }

  lemma HasAtMiddle(a: string, b: string, c: string)
    ensures HasAt(a + b + c, |a|, b)
  {
  }

  lemma CharAt(text: string, p: nat, s: string, i: nat)
    requires HasAt(text, p, s) && i < |s|
    ensures p + i < |text| && text[p + i] == s[i] && s[i] in s
  {
  }


  lemma {:induction false} SkipsSpace(text: string, p: nat, s: string)
    requires HasAt(text, p, s) && Spaces(s) && (p + |s| < |text| ==> !IsSpace(text[p + |s|]))
    ensures SkipSpace(text, p) == p + |s|
    decreases |s|
  {
    if s == "" {
    } else {
      CharAt(text, p, s, 0);
      HasAtSplit(text, p, s[..1], s[1..]);
      assert s == s[..1] + s[1..];
      SkipsSpace(text, p + 1, s[1..]);
    }
  }

  lemma {:induction false} SkipsWord(text: string, p: nat, s: string)
    requires HasAt(text, p, s) && Word(s) && (p + |s| < |text| ==> !IsWord(text[p + |s|]))
    ensures SkipWord(text, p) == p + |s|
    decreases |s|
  {
    if s == "" {
    } else {
      CharAt(text, p, s, 0);
      HasAtSplit(text, p, s[..1], s[1..]);
      assert s == s[..1] + s[1..];
      SkipsWord(text, p + 1, s[1..]);
    }
  }

  lemma ThenChar(s: string, p: nat, gap: string, next: string)
    requires HasAt(s, p, gap) && HasAt(s, p + |gap|, next) && Spaces(gap) && next != "" && !IsSpace(next[0])
    ensures SkipSpace(s, p) == p + |gap| && p + |gap| < |s| && s[p + |gap|] == next[0]
  {
    CharAt(s, p + |gap|, next, 0);
    SkipsSpace(s, p, gap);
  }

  // ---- attribute contents ----

  /** `( t )` and white space. */
  function Parenthesised(t: string, c: string): string {
    "(" + (t + (")" + c))
  }

  /** `cfg ( t )` with white space anywhere around its parts. */
  function CfgText(a: string, b: string, t: string, c: string): string {
    a + ("cfg" + (b + Parenthesised(t, c)))
  }

  lemma {:induction false} SpacesDropped(s: string, c: string)
    requires Spaces(c) && s != "" && !IsSpace(s[|s| - 1])
    ensures DropSpaceEnd(s + c) == |s|
    decreases |c|
  {
    if c == "" {
      assert s + c == s;
    } else {
      var k := |c| - 1;
      assert (s + c)[|s + c| - 1] == c[k] && (s + c)[..|s + c| - 1] == s + c[..k];
      SpacesDropped(s, c[..k]);
    }
  }

  lemma ParenthesisedAt(text: string, p: nat, t: string, c: string)
    requires HasAt(text, p, Parenthesised(t, c)) && p + |Parenthesised(t, c)| == |text|
    ensures p + 1 + |t| < |text| && text[p] == '(' && text[p + 1..p + 1 + |t|] == t && text[p + 1 + |t|] == ')'
    ensures text == text[..p + 2 + |t|] + c
  {
    HasAtSplit(text, p, "(", t + (")" + c));
    HasAtSplit(text, p + 1, t, ")" + c);
    HasAtSplit(text, p + 1 + |t|, ")", c);
    CharAt(text, p, "(", 0);
    CharAt(text, p + 1 + |t|, ")", 0);
  }

  lemma WordAfterSpace(a: string, word: string, rest: string)
    requires Spaces(a) && word != "" && !IsSpace(word[0])
    ensures var s := a + (word + rest);
            && SkipSpace(s, 0) == |a| && HasAt(s, |a|, word) && HasAt(s, |a| + |word|, rest)
            && |s| == |a| + |word| + |rest|
  {
    var s := a + (word + rest);
    assert HasAt(s, 0, s);
    HasAtSplit(s, 0, a, word + rest);
    HasAtSplit(s, |a|, word, rest);
    ThenChar(s, 0, a, word);
  }

  lemma SpacesThenParenthesis(s: string, p: nat, b: string, t: string, c: string)
    requires Spaces(b) && Spaces(c) && HasAt(s, p, b + Parenthesised(t, c)) && p + |b + Parenthesised(t, c)| == |s|
    ensures var open := p + |b|;
            && SkipSpace(s, p) == open && open + 1 + |t| < |s| && s[open] == '(' && s[open + 1 + |t|] == ')'
            && DropSpaceEnd(s) == open + 2 + |t| && s[open + 1..open + 1 + |t|] == t
  {
    HasAtSplit(s, p, b, Parenthesised(t, c));
    ParenthesisedAt(s, p + |b|, t, c);
    SkipsSpace(s, p, b);
    EndsBefore(s, p + |b| + 2 + |t|, c);
  }

  lemma EndsBefore(s: string, end: nat, c: string)
    requires 0 < end <= |s| && s == s[..end] + c && !IsSpace(s[end - 1]) && Spaces(c)
    ensures DropSpaceEnd(s) == end
  {
    SpacesDropped(s[..end], c);
  }

  lemma CfgContentFrom(s: string, open: nat, end: nat)
    requires HasAt(s, SkipSpace(s, 0), "cfg") && open == SkipSpace(s, SkipSpace(s, 0) + 3) && end == DropSpaceEnd(s)
    requires open + 1 < end && s[open] == '(' && s[end - 1] == ')'
    ensures CfgContent(s) == Some(s[open + 1..end - 1])
  {
  }

  lemma CfgContentAfter(s: string, p: nat, b: string, t: string, c: string)
    requires p >= 3 && SkipSpace(s, 0) == p - 3 && HasAt(s, p - 3, "cfg") && Spaces(b) && Spaces(c)
    requires HasAt(s, p, b + Parenthesised(t, c)) && p + |b + Parenthesised(t, c)| == |s|
    ensures CfgContent(s) == Some(t)
  {
    SpacesThenParenthesis(s, p, b, t, c);
    CfgContentFrom(s, p + |b|, p + |b| + 2 + |t|);
  }

  lemma CfgContentReads(a: string, b: string, t: string, c: string)
    requires Spaces(a) && Spaces(b) && Spaces(c)
    ensures CfgContent(CfgText(a, b, t, c)) == Some(t)
  {
    WordAfterSpace(a, "cfg", b + Parenthesised(t, c));
    CfgContentAfter(CfgText(a, b, t, c), |a| + 3, b, t, c);
  }

  lemma {:induction false} SkippedAreSpaces(s: string, i: nat)
    requires i <= |s|
    ensures Spaces(s[i..SkipSpace(s, i)])
    decreases |s| - i
  {
    if i < |s| && IsSpace(s[i]) {
      SkippedAreSpaces(s, i + 1);
      assert s[i..SkipSpace(s, i)] == [s[i]] + s[i + 1..SkipSpace(s, i + 1)];
    }
  }

  lemma {:induction false} DroppedAreSpaces(s: string)
    ensures Spaces(s[DropSpaceEnd(s)..])
  {
    if s != "" && IsSpace(s[|s| - 1]) {
      var front := s[..|s| - 1];
      DroppedAreSpaces(front);
      assert s[DropSpaceEnd(s)..] == front[DropSpaceEnd(front)..] + [s[|s| - 1]];
    } else {
      assert s[DropSpaceEnd(s)..] == "";
    }
  }

  lemma CfgContentBounds(s: string) returns (i: nat, open: nat, end: nat)
    requires CfgContent(s).Some?
    ensures i == SkipSpace(s, 0) && HasAt(s, i, "cfg") && open == SkipSpace(s, i + 3) && end == DropSpaceEnd(s)
    ensures i + 3 <= open && open + 1 < end <= |s| && s[open] == '(' && s[end - 1] == ')'
    ensures CfgContent(s).value == s[open + 1..end - 1]
  {
    i := SkipSpace(s, 0);
    open, end := SkipSpace(s, i + 3), DropSpaceEnd(s);
  }

  lemma CfgContentShape(s: string, t: string) returns (a: string, b: string, c: string)
    requires CfgContent(s) == Some(t)
    ensures Spaces(a) && Spaces(b) && Spaces(c) && s == CfgText(a, b, t, c)
  {
    var i, open, end := CfgContentBounds(s);
    SliceIsSpaces(s, 0);
    SliceIsSpaces(s, i + 3);
    DroppedAreSpaces(s);
    a, b, c := s[0..i], s[i + 3..open], s[end..];
    assert Spaces(a) && Spaces(b) && Spaces(c);
    CfgShape(s, i, open, end, a, b, t, c);
  }

  lemma CfgShape(s: string, i: nat, open: nat, end: nat, a: string, b: string, t: string, c: string)
    requires HasAt(s, i, "cfg") && i + 3 <= open && open + 1 < end <= |s| && s[open] == '(' && s[end - 1] == ')'
    requires a == s[0..i] && b == s[i + 3..open] && t == s[open + 1..end - 1] && c == s[end..]
    ensures s == CfgText(a, b, t, c)
  {
    CfgTextSlices(s, i, open, end);
  }

  lemma SliceIsSpaces(s: string, i: nat)
    requires i <= |s|
    ensures Spaces(s[i..SkipSpace(s, i)])
  {
    SkippedAreSpaces(s, i);
  }

  /** The contents read as a cfg predicate are exactly those of that shape. */
  lemma CfgContentIff(s: string, t: string)
    ensures CfgContent(s) == Some(t) <==>
            exists a, b, c :: Spaces(a) && Spaces(b) && Spaces(c) && s == CfgText(a, b, t, c)
  {
    if CfgContent(s) == Some(t) {
      var a, b, c := CfgContentShape(s, t);
    }
    if a, b, c :| Spaces(a) && Spaces(b) && Spaces(c) && s == CfgText(a, b, t, c) {
      CfgContentReads(a, b, t, c);
    }
  }

  lemma CfgTextSlices(s: string, i: nat, open: nat, end: nat)
    requires HasAt(s, i, "cfg") && i + 3 <= open && open + 1 < end <= |s| && s[open] == '(' && s[end - 1] == ')'
    ensures s == CfgText(s[0..i], s[i + 3..open], s[open + 1..end - 1], s[end..])
  {
    assert s[end - 1..] == ")" + s[end..];
    assert s[open + 1..] == s[open + 1..end - 1] + s[end - 1..];
    assert s[open..] == "(" + s[open + 1..];
    assert s[i + 3..] == s[i + 3..open] + s[open..];
    assert s[i..] == s[i..i + 3] + s[i + 3..];
    assert s == s[0..i] + s[i..];
  }

  function FirstWord(s: string): string {
    var i := SkipSpace(s, 0);
    s[i..SkipWord(s, i)]
  }

  /** No other attribute is taken for a cfg, such as `cfg_attr` or `cfgtest`. */
  lemma OtherWordIsNoCfg(s: string)
    requires FirstWord(s) != "cfg"
    ensures CfgContent(s).None?
  {
    if CfgContent(s).Some? {
      var i := SkipSpace(s, 0);
      var open := SkipSpace(s, i + 3);
      SkippedAreSpaces(s, i + 3);
      assert i + 3 < |s| && !IsWord(s[i + 3]) by {
        if open > i + 3 {
          assert s[i + 3] == s[i + 3..open][0];
        }
      }
      SkipsWord(s, i, "cfg");
    }
  }

  function Blanked(b: string, c: string, d: string): string {
    b + ("=" + (c + (QUOTES + d)))
  }

  /** `path = ""` with white space around its parts. */
  function PathText(a: string, b: string, c: string, d: string): string {
    a + ("path" + Blanked(b, c, d))
  }

  lemma QuotesRead(s: string, p: nat, c: string, d: string)
    requires HasAt(s, p, c) && HasAt(s, p + |c|, QUOTES) && HasAt(s, p + |c| + 2, d) && p + |c| + 2 + |d| == |s|
    requires Spaces(c) && Spaces(d)
    ensures QuotesEnd(s, p)
  {
    ThenChar(s, p, c, QUOTES);
    SkipsSpace(s, p + |c| + 2, d);
  }

  lemma BlankedReads(s: string, p: nat, b: string, c: string, d: string)
    requires HasAt(s, p, Blanked(b, c, d)) && p + |Blanked(b, c, d)| == |s| && Spaces(b) && Spaces(c) && Spaces(d)
    ensures EqualsBlanked(s, p)
  {
    HasAtFive(s, p, b, "=", c, QUOTES, d);
    ThenChar(s, p, b, "=");
    QuotesRead(s, p + |b| + 1, c, d);
  }

  lemma PathContentReads(a: string, b: string, c: string, d: string)
    requires Spaces(a) && Spaces(b) && Spaces(c) && Spaces(d)
    ensures IsPathContent(PathText(a, b, c, d))
  {
    WordAfterSpace(a, "path", Blanked(b, c, d));
    BlankedReads(PathText(a, b, c, d), |a| + 4, b, c, d);
  }

  /** No other word is taken for a path. */
  lemma OtherWordIsNoPath(s: string)
    requires FirstWord(s) != "path"
    ensures !IsPathContent(s)
  {
    if IsPathContent(s) {
      var i := SkipSpace(s, 0);
      var equals := SkipSpace(s, i + 4);
      SkippedAreSpaces(s, i + 4);
      assert !IsWord(s[i + 4]) by {
        if equals > i + 4 {
          assert s[i + 4] == s[i + 4..equals][0];
        }
      }
      SkipsWord(s, i, "path");
    }
  }

  // ---- runs of attributes ----

  /** A cfg attribute's content: the predicate in any layout. */
  ghost predicate ShowsCfg(content: string, p: Pred) {
    exists a, b, layout, c ::
      Spaces(a) && Spaces(b) && Spaces(c) && content == CfgText(a, b, layout, c) && Squeeze(layout) == Print(p)
  }

  /** White space, a hash, white space and the content in square brackets; `cfg`
      is the predicate if it is a cfg attribute. */
  datatype Attribute = Attribute(space: string, gap: string, content: string, cfg: Option<Pred>)

  /** Neither a square bracket nor a hash. */
  predicate Plain(s: string) {
    forall i :: 0 <= i < |s| ==> s[i] != '[' && s[i] != ']' && s[i] != '#'
  }

  ghost predicate LegalAttribute(x: Attribute) {
    && Spaces(x.space) && Spaces(x.gap) && Plain(x.content)
    && match x.cfg
       case Some(p) => WellFormed(p) && ShowsCfg(x.content, p)
       case None => FirstWord(x.content) != "cfg"
  }

  /** Every build that satisfies it is a test build. */
  predicate TestOnly(x: Attribute) {
    x.cfg.Some? && Implied(x.cfg.value)
  }

  function AttributeText(x: Attribute): string {
    x.space + ("#" + (x.gap + ("[" + (x.content + "]"))))
  }

  function RunText(run: seq<Attribute>): string {
    if run == [] then "" else AttributeText(run[0]) + RunText(run[1..])
  }

  ghost predicate LegalRun(run: seq<Attribute>) {
    forall i :: 0 <= i < |run| ==> LegalAttribute(run[i])
  }

  predicate AnyTestOnly(run: seq<Attribute>) {
    exists i :: 0 <= i < |run| && TestOnly(run[i])
  }

  lemma ContentDecides(text: string, start: nat, end: nat, x: Attribute)
    requires LegalAttribute(x) && start <= end <= |text| && text[start..end] == x.content
    ensures IsTestCfg(text, start, end) <==> TestOnly(x)
  {
    match x.cfg
    case Some(p) =>
      var a, b, layout, c :|
        Spaces(a) && Spaces(b) && Spaces(c) && x.content == CfgText(a, b, layout, c) && Squeeze(layout) == Print(p);
      CfgContentReads(a, b, layout, c);
      SqueezedDecides(layout);
      Decides(p);
    case None => OtherWordIsNoCfg(x.content);
  }

  /** The place of the content of an attribute printed at `p`. */
  function ContentSpan(p: nat, x: Attribute): Span {
    var start := p + |x.space| + |x.gap| + 2;
    Span(start, start + |x.content|)
  }

  /** The parts of the attribute stand one after the other from `p` on. */
  predicate Stands(text: string, p: nat, x: Attribute) {
    var c := ContentSpan(p, x);
    && HasAt(text, p, x.space) && HasAt(text, p + |x.space|, "#") && HasAt(text, p + |x.space| + 1, x.gap)
    && HasAt(text, c.start - 1, "[") && HasAt(text, c.start, x.content) && HasAt(text, c.end, "]")
  }

  /** Attribute `i` of the run stands from `at[i]` to `at[i + 1]`. */
  ghost predicate StandsAt(text: string, run: seq<Attribute>, at: seq<nat>, i: nat)
    requires i < |run| && |at| == |run| + 1
  {
    && LegalAttribute(run[i]) && Stands(text, at[i], run[i])
    && at[i + 1] == ContentSpan(at[i], run[i]).end + 1
  }

  /** The attributes of the run stand one after the other. */
  ghost predicate RunStands(text: string, run: seq<Attribute>, at: seq<nat>) {
    && |at| == |run| + 1 && at[|run|] <= |text|
    && forall i: nat {:trigger StandsAt(text, run, at, i)} :: i < |run| ==> StandsAt(text, run, at, i)
  }

  function ContentSpans(run: seq<Attribute>, at: seq<nat>): (r: seq<Span>)
    requires |at| == |run| + 1
    ensures |r| == |run|
  {
    seq(|run|, i requires 0 <= i < |run| => ContentSpan(at[i], run[i]))
  }

  lemma AttributeParts(text: string, p: nat, x: Attribute)
    requires HasAt(text, p, AttributeText(x))
    ensures Stands(text, p, x) && ContentSpan(p, x).end + 1 == p + |AttributeText(x)|
  {
    HasAtFive(text, p, x.space, "#", x.gap, "[", x.content + "]");
    HasAtSplit(text, ContentSpan(p, x).start, x.content, "]");
  }

  lemma StandsCons(text: string, x: Attribute, p: nat, run: seq<Attribute>, at: seq<nat>)
    requires LegalAttribute(x) && Stands(text, p, x) && RunStands(text, run, at) && at[0] == ContentSpan(p, x).end + 1
    ensures RunStands(text, [x] + run, [p] + at)
  {
    var all, all_at := [x] + run, [p] + at;
    forall i: nat | i < |all|
      ensures StandsAt(text, all, all_at, i)
    {
      if i > 0 {
        assert StandsAt(text, run, at, i - 1);
      }
    }
  }

  lemma FirstStands(text: string, p: nat, run: seq<Attribute>)
    requires run != [] && HasAt(text, p, RunText(run)) && LegalRun(run)
    ensures var q := ContentSpan(p, run[0]).end + 1;
            && LegalAttribute(run[0]) && Stands(text, p, run[0]) && HasAt(text, q, RunText(run[1..]))
            && q == p + |AttributeText(run[0])| && LegalRun(run[1..])
            && q + |RunText(run[1..])| == p + |RunText(run)|
  {
    HasAtSplit(text, p, AttributeText(run[0]), RunText(run[1..]));
    AttributeParts(text, p, run[0]);
  }

  /** Where the attributes of a run printed at `p` start, and where it ends. */
  function Starts(p: nat, run: seq<Attribute>): (r: seq<nat>)
    ensures |r| == |run| + 1 && r[0] == p
    decreases |run|
  {
    if run == [] then [p] else [p] + Starts(ContentSpan(p, run[0]).end + 1, run[1..])
  }

  lemma StandsFirst(text: string, p: nat, run: seq<Attribute>)
    requires run != [] && LegalAttribute(run[0]) && Stands(text, p, run[0])
    requires RunStands(text, run[1..], Starts(ContentSpan(p, run[0]).end + 1, run[1..]))
    ensures RunStands(text, run, Starts(p, run))
    ensures Starts(p, run)[|run|] == Starts(ContentSpan(p, run[0]).end + 1, run[1..])[|run| - 1]
  {
    var rest := Starts(ContentSpan(p, run[0]).end + 1, run[1..]);
    StandsCons(text, run[0], p, run[1..], rest);
    assert [run[0]] + run[1..] == run && Starts(p, run) == [p] + rest;
  }

  lemma {:induction false} PrintedRunStands(text: string, p: nat, run: seq<Attribute>, end: nat)
    requires HasAt(text, p, RunText(run)) && LegalRun(run) && end == p + |RunText(run)|
    ensures RunStands(text, run, Starts(p, run)) && Starts(p, run)[|run|] == end
    decreases |run|
  {
    if run == [] {
    } else {
      FirstStands(text, p, run);
      PrintedRunStands(text, ContentSpan(p, run[0]).end + 1, run[1..], end);
      StandsFirst(text, p, run);
    }
  }

  /** Between an opening bracket and `q` there is no other. */
  lemma {:induction false} PlainBalance(text: string, open: nat, q: nat)
    requires open < q <= |text| && text[open] == '['
    requires forall k :: open < k < q ==> text[k] != '[' && text[k] != ']'
    ensures Balance(text, '[', ']', open, q) == 1
    decreases q
  {
    if q == open + 1 {
      assert Balance(text, '[', ']', open, open) == 0;
    } else {
      PlainBalance(text, open, q - 1);
    }
  }

  lemma PlainCloses(text: string, open: nat, end: nat)
    requires open < end < |text| && text[open] == '[' && text[end] == ']'
    requires forall k :: open < k < end ==> text[k] != '[' && text[k] != ']'
    ensures Closes(text, '[', ']', open, end)
  {
    PlainBalance(text, open, end);
    forall k: nat | open < k <= end
      ensures OpenAt(text, '[', ']', open, k)
    {
      PlainBalance(text, open, k);
    }
  }

  lemma PlainContent(text: string, start: nat, s: string)
    requires HasAt(text, start, s) && Plain(s)
    ensures forall k :: start <= k < start + |s| ==> text[k] != '[' && text[k] != ']' && text[k] != '#'
  {
    forall k | start <= k < start + |s|
      ensures text[k] != '[' && text[k] != ']' && text[k] != '#'
    {
      CharAt(text, start, s, k - start);
    }
  }

  lemma HashFound(text: string, h: nat, gap: string)
    requires HasAt(text, h, "#") && HasAt(text, h + 1, gap) && HasAt(text, h + 1 + |gap|, "[") && Spaces(gap)
    ensures HashBracket(text, h) == Some(h + |gap| + 2) && text[h] == '#'
  {
    CharAt(text, h, "#", 0);
    ThenChar(text, h + 1, gap, "[");
  }

  lemma ContentFound(text: string, p: nat, x: Attribute)
    requires Stands(text, p, x) && Plain(x.content)
    ensures IsContent(text, ContentSpan(p, x))
    ensures text[ContentSpan(p, x).start..ContentSpan(p, x).end] == x.content
  {
    var c := ContentSpan(p, x);
    CharAt(text, c.start - 1, "[", 0);
    CharAt(text, c.end, "]", 0);
    PlainContent(text, c.start, x.content);
    PlainCloses(text, c.start - 1, c.end);
  }

  lemma BracketFound(text: string, p: nat, x: Attribute)
    requires Stands(text, p, x) && Spaces(x.space) && Spaces(x.gap)
    ensures SkipSpace(text, p) == p + |x.space|
    ensures HashBracket(text, p + |x.space|) == Some(ContentSpan(p, x).start)
  {
    HashFound(text, p + |x.space|, x.gap);
    SkipsSpace(text, p, x.space);
  }

  /** A printed attribute is found where it stands. */
  lemma AttributeFound(text: string, p: nat, x: Attribute)
    requires Stands(text, p, x) && LegalAttribute(x)
    ensures AttributeAt(text, p, ContentSpan(p, x))
    ensures ContentSpan(p, x).end < |text| && text[ContentSpan(p, x).start..ContentSpan(p, x).end] == x.content
  {
    ContentFound(text, p, x);
    BracketFound(text, p, x);
  }

  lemma NthFound(text: string, run: seq<Attribute>, at: seq<nat>, i: nat)
    requires RunStands(text, run, at) && i < |run|
    ensures NthFollows(text, at[0], ContentSpans(run, at), i)
    ensures var c := ContentSpans(run, at)[i];
            c.start <= c.end <= |text| && (IsTestCfg(text, c.start, c.end) <==> TestOnly(run[i]))
  {
    assert StandsAt(text, run, at, i);
    var c := ContentSpan(at[i], run[i]);
    AttributeFound(text, at[i], run[i]);
    ContentDecides(text, c.start, c.end, run[i]);
    BeforeIsStart(text, run, at, i);
  }

  lemma BeforeIsStart(text: string, run: seq<Attribute>, at: seq<nat>, i: nat)
    requires RunStands(text, run, at) && i <= |run|
    ensures Before(at[0], ContentSpans(run, at), i) == at[i]
  {
    if i > 0 {
      assert StandsAt(text, run, at, i - 1);
    }
  }

  lemma RunDecides(text: string, run: seq<Attribute>, at: seq<nat>)
    requires RunStands(text, run, at)
    ensures HasTestCfg(text, ContentSpans(run, at)) <==> AnyTestOnly(run)
  {
    var cs := ContentSpans(run, at);
    forall i | 0 <= i < |run|
      ensures cs[i].start <= cs[i].end <= |text| && (IsTestCfg(text, cs[i].start, cs[i].end) <==> TestOnly(run[i]))
    {
      NthFound(text, run, at, i);
    }
  }

  // ---- runs are unique ----

  lemma ClosesOnce(text: string, open: nat, c: nat, d: nat)
    requires Closes(text, '[', ']', open, c) && Closes(text, '[', ']', open, d)
    ensures c == d
  {
    assert c < d ==> OpenAt(text, '[', ']', open, c + 1);
    assert d < c ==> OpenAt(text, '[', ']', open, d + 1);
  }

  lemma AttributeOnce(text: string, at: nat, c: Span, d: Span)
    requires AttributeAt(text, at, c) && AttributeAt(text, at, d)
    ensures c == d
  {
    ClosesOnce(text, c.start - 1, c.end, d.end);
  }

  lemma {:induction false} ChainsAgree(text: string, pos: nat, a: seq<Span>, b: seq<Span>, n: nat)
    requires Chain(text, pos, a) && Chain(text, pos, b) && n <= |a| && n <= |b|
    ensures a[..n] == b[..n] && Before(pos, a, n) == Before(pos, b, n)
  {
    if n == 0 {
    } else {
      ChainsAgree(text, pos, a, b, n - 1);
      assert NthFollows(text, pos, a, n - 1) && NthFollows(text, pos, b, n - 1);
      AttributeOnce(text, Before(pos, a, n - 1), a[n - 1], b[n - 1]);
      assert a[..n] == a[..n - 1] + [a[n - 1]] && b[..n] == b[..n - 1] + [b[n - 1]];
    }
  }

  lemma RunNotLonger(text: string, pos: nat, a: seq<Span>, after: nat, b: seq<Span>)
    requires IsRun(text, pos, a, after) && Chain(text, pos, b)
    ensures |b| <= |a|
  {
    assert |a| < |b| ==> NthFollows(text, pos, b, |a|);
    if |a| < |b| {
      ChainsAgree(text, pos, a, b, |a|);
    }
  }

  lemma RunOnce(text: string, pos: nat, a: seq<Span>, afterA: nat, b: seq<Span>, afterB: nat)
    requires IsRun(text, pos, a, afterA) && IsRun(text, pos, b, afterB)
    ensures a == b && afterA == afterB
  {
    RunNotLonger(text, pos, a, afterA, b);
    RunNotLonger(text, pos, b, afterB, a);
    ChainsAgree(text, pos, a, b, |a|);
    assert a[..|a|] == a && b[..|b|] == b;
  }

  ghost predicate NoHashIn(text: string, lo: nat, hi: nat) {
    forall k :: lo <= k < hi && k < |text| ==> text[k] != '#'
  }

  lemma RunFound(text: string, run: seq<Attribute>, at: seq<nat>)
    requires RunStands(text, run, at) && NoHashIn(text, at[|run|], |text|)
    ensures IsRun(text, at[0], ContentSpans(run, at), at[|run|])
  {
    var cs := ContentSpans(run, at);
    forall i: nat | i < |cs|
      ensures NthFollows(text, at[0], cs, i)
    {
      NthFound(text, run, at, i);
    }
    BeforeIsStart(text, run, at, |run|);
    assert HashBracket(text, SkipSpace(text, at[|run|])).None?;
  }

  lemma SpacesHaveNoHash(text: string, p: nat, s: string, k: nat)
    requires HasAt(text, p, s) && Spaces(s) && p <= k < p + |s|
    ensures text[k] != '#'
  {
    CharAt(text, p, s, k - p);
  }

  lemma OnlyHash(text: string, p: nat, x: Attribute, k: nat)
    requires Stands(text, p, x) && LegalAttribute(x) && p <= k <= ContentSpan(p, x).end && text[k] == '#'
    ensures k == p + |x.space|
  {
    var c := ContentSpan(p, x);
    CharAt(text, c.start - 1, "[", 0);
    CharAt(text, c.end, "]", 0);
    PlainContent(text, c.start, x.content);
    if k < p + |x.space| {
      SpacesHaveNoHash(text, p, x.space, k);
    } else if p + |x.space| < k < c.start - 1 {
      SpacesHaveNoHash(text, p + |x.space| + 1, x.gap, k);
    }
  }

  lemma {:induction false} AttributeOf(text: string, run: seq<Attribute>, at: seq<nat>, k: nat, n: nat) returns (i: nat)
    requires RunStands(text, run, at) && n <= |run| && at[0] <= k < at[n]
    ensures i < n && at[i] <= k < at[i + 1]
  {
    if k >= at[n - 1] {
      i := n - 1;
    } else {
      i := AttributeOf(text, run, at, k, n - 1);
    }
  }

  lemma Rest(text: string, run: seq<Attribute>, at: seq<nat>, i: nat)
    requires RunStands(text, run, at) && i <= |run|
    ensures RunStands(text, run[i..], at[i..])
  {
    forall j: nat | j < |run[i..]|
      ensures StandsAt(text, run[i..], at[i..], j)
    {
      assert StandsAt(text, run, at, i + j);
    }
  }

  /** The run from the hash of attribute `i` on. */
  function RestOf(run: seq<Attribute>, i: nat): seq<Attribute>
    requires i < |run|
  {
    [run[i].(space := "")] + run[i + 1..]
  }

  function RestAt(run: seq<Attribute>, at: seq<nat>, i: nat): seq<nat>
    requires i < |run| && |at| == |run| + 1
  {
    [at[i] + |run[i].space|] + at[i + 1..]
  }

  lemma RestStands(text: string, run: seq<Attribute>, at: seq<nat>, i: nat)
    requires RunStands(text, run, at) && i < |run|
    ensures RunStands(text, RestOf(run, i), RestAt(run, at, i))
  {
    assert StandsAt(text, run, at, i);
    Rest(text, run, at, i + 1);
    BareStands(text, at[i], run[i]);
    StandsCons(text, run[i].(space := ""), at[i] + |run[i].space|, run[i + 1..], at[i + 1..]);
  }

  lemma HashOf(text: string, run: seq<Attribute>, at: seq<nat>, k: nat) returns (i: nat)
    requires RunStands(text, run, at) && at[0] <= k < at[|run|] && text[k] == '#'
    ensures i < |run| && k == at[i] + |run[i].space|
  {
    i := AttributeOf(text, run, at, k, |run|);
    assert StandsAt(text, run, at, i);
    OnlyHash(text, at[i], run[i], k);
  }

  /** A hash inside a printed run starts a printed run of its own: the rest. */
  lemma HashStartsRun(text: string, run: seq<Attribute>, at: seq<nat>, k: nat)
    returns (rest: seq<Attribute>, restAt: seq<nat>)
    requires RunStands(text, run, at) && at[0] <= k < at[|run|] && text[k] == '#'
    ensures RunStands(text, rest, restAt) && rest != [] && restAt[0] == k && restAt[|rest|] == at[|run|]
    ensures AnyTestOnly(rest) ==> AnyTestOnly(run)
  {
    var i := HashOf(text, run, at, k);
    RestStands(text, run, at, i);
    RestTestOnly(run, i);
    rest, restAt := RestOf(run, i), RestAt(run, at, i);
  }

  lemma RestTestOnly(run: seq<Attribute>, i: nat)
    requires i < |run|
    ensures AnyTestOnly(RestOf(run, i)) ==> AnyTestOnly(run)
  {
    var rest := RestOf(run, i);
    if j :| 0 <= j < |rest| && TestOnly(rest[j]) {
      assert TestOnly(run[i + j]);
    }
  }

  lemma BareStands(text: string, p: nat, x: Attribute)
    requires Stands(text, p, x) && LegalAttribute(x)
    ensures var bare := x.(space := "");
            && Stands(text, p + |x.space|, bare) && LegalAttribute(bare)
            && ContentSpan(p + |x.space|, bare) == ContentSpan(p, x)
  {
    assert HasAt(text, p + |x.space|, "");
  }

  // ---- items ----

  /** An optional `pub`, with or without a scope in parentheses. */
  datatype Visibility = Private | Pub(space: string) | PubIn(space: string, gap: string, scope: string)

  function VisibilityText(v: Visibility): string {
    match v
    case Private => ""
    case Pub(space) => space + "pub"
    case PubIn(space, gap, scope) => space + ("pub" + (gap + ("(" + (scope + ")"))))
  }

  datatype Bracket = Paren | Square | Brace

  function Opener(b: Bracket): char {
    match b case Paren => '(' case Square => '[' case Brace => '{'
  }

  function Closer(b: Bracket): char {
    match b case Paren => ')' case Square => ']' case Brace => '}'
  }

  /** Text with balanced brackets, to any depth. */
  datatype Tokens = Done | Mark(c: char, more: Tokens) | Group(b: Bracket, inside: Tokens, rest: Tokens)

  function TokenText(ts: Tokens): string {
    match ts
    case Done => ""
    case Mark(c, more) => [c] + TokenText(more)
    case Group(b, inside, rest) => [Opener(b)] + (TokenText(inside) + ([Closer(b)] + TokenText(rest)))
  }

  predicate LegalTokens(ts: Tokens) {
    match ts
    case Done => true
    case Mark(c, more) => !IsOpener(c) && !IsCloser(c) && c != '#' && LegalTokens(more)
    case Group(_, inside, rest) => LegalTokens(inside) && LegalTokens(rest)
  }

  /** Nothing at the top that ends an item: no body, no semicolon, and a comma only
      in an item proper. */
  predicate Open(ts: Tokens, isItem: bool) {
    match ts
    case Done => true
    case Mark(c, more) => c != ';' && (c == ',' ==> isItem) && Open(more, isItem)
    case Group(b, _, rest) => !b.Brace? && Open(rest, isItem)
  }

  /** How the thing ends: at a semicolon, with a body, at a comma, or just before
      what encloses it closes or the text ends. */
  datatype Ending = AtSemicolon | AtBody(inside: Tokens) | AtComma | AtParent

  function EndingText(e: Ending): string {
    match e
    case AtSemicolon => ";"
    case AtBody(inside) => ['{'] + (TokenText(inside) + ['}'])
    case AtComma => ","
    case AtParent => ""
  }

  /** A keyword or another word, perhaps a name after it, and the rest. */
  datatype Item = Item(space: string, word: string, gap: string, name: string, header: Tokens, ending: Ending)

  function Tail(item: Item): string {
    TokenText(item.header) + EndingText(item.ending)
  }

  /** The words a Rust item other than a field or variant may begin with. */
  datatype Keyword = Mod | Fn | Struct | Enum | Union | Impl | TraitItem | Const | Static | Use | TypeAlias
                   | Extern | MacroRules | Unsafe | Async

  function Spelling(k: Keyword): string {
    match k
    case Mod => "mod" case Fn => "fn" case Struct => "struct" case Enum => "enum" case Union => "union"
    case Impl => "impl" case TraitItem => "trait" case Const => "const" case Static => "static" case Use => "use"
    case TypeAlias => "type" case Extern => "extern" case MacroRules => "macro_rules" case Unsafe => "unsafe"
    case Async => "async"
  }

  /** Commas do not end an item that begins so. */
  predicate IsItem(item: Item) {
    exists k: Keyword :: Spelling(k) == item.word
  }

  lemma KeywordsRead(item: Item)
    ensures IsItem(item) <==> item.word in ITEM_KEYWORDS
  {
    if item.word in ITEM_KEYWORDS {
      assert item.word in [Spelling(Mod), Spelling(Fn), Spelling(Struct), Spelling(Enum), Spelling(Union),
        Spelling(Impl), Spelling(TraitItem), Spelling(Const), Spelling(Static), Spelling(Use), Spelling(TypeAlias),
        Spelling(Extern), Spelling(MacroRules), Spelling(Unsafe), Spelling(Async)];
    }
  }

  // ---- nesting ----

  /** The item is `d` deep at `p` and has not ended before. */
  ghost predicate Quiet(text: string, head: nat, p: nat, isItem: bool, d: int) {
    head <= p <= |text| && NoneBefore(text, head, p, isItem) && Depth(text, head, p) == d
  }

  lemma QuietNext(text: string, head: nat, k: nat, isItem: bool, d: int)
    requires Quiet(text, head, k, isItem, d) && k < |text|
    requires IsCloser(text[k]) ==> d > 0 && !(text[k] == '}' && d == 1)
    requires text[k] == ';' ==> d != 0
    requires text[k] == ',' ==> d != 0 || isItem
    ensures Quiet(text, head, k + 1, isItem, d + if IsOpener(text[k]) then 1 else if IsCloser(text[k]) then -1 else 0)
  {
    assert !ParentCloser(text, head, k) && !LastToken(text, head, k, isItem);
  }

  lemma {:induction false} QuietText(text: string, head: nat, p: nat, s: string, isItem: bool, d: int)
    requires Quiet(text, head, p, isItem, d) && HasAt(text, p, s)
    requires forall i :: 0 <= i < |s| ==> IsSpace(s[i]) || IsWord(s[i])
    ensures Quiet(text, head, p + |s|, isItem, d)
    decreases |s|
  {
    if s == "" {
    } else {
      CharAt(text, p, s, 0);
      QuietNext(text, head, p, isItem, d);
      assert s == s[..1] + s[1..];
      HasAtSplit(text, p, s[..1], s[1..]);
      QuietText(text, head, p + 1, s[1..], isItem, d);
    }
  }

  /** The tokens stand from `p` to `q`. */
  predicate TokensStand(text: string, p: nat, ts: Tokens, q: nat) {
    HasAt(text, p, TokenText(ts)) && q == p + |TokenText(ts)|
  }

  lemma GroupParts(text: string, p: nat, b: Bracket, inside: Tokens, rest: Tokens, q: nat) returns (close: nat)
    requires TokensStand(text, p, Group(b, inside, rest), q)
    ensures p + 1 <= close < |text| && text[p] == Opener(b) && text[close] == Closer(b)
    ensures TokensStand(text, p + 1, inside, close) && TokensStand(text, close + 1, rest, q)
  {
    close := p + 1 + |TokenText(inside)|;
    GroupSplits(text, p, [Opener(b)], TokenText(inside), [Closer(b)], TokenText(rest));
  }

  lemma MarkParts(text: string, p: nat, c: char, more: Tokens, q: nat)
    requires TokensStand(text, p, Mark(c, more), q)
    ensures p < |text| && text[p] == c && TokensStand(text, p + 1, more, q)
  {
    HasAtSplit(text, p, [c], TokenText(more));
    CharAt(text, p, [c], 0);
  }

  lemma GroupSplits(text: string, p: nat, open: string, inside: string, close: string, rest: string)
    requires HasAt(text, p, open + (inside + (close + rest))) && |open| == |close| == 1
    ensures HasAt(text, p + 1, inside) && HasAt(text, p + 2 + |inside|, rest)
    ensures p + 1 + |inside| < |text| && text[p] == open[0] && text[p + 1 + |inside|] == close[0]
  {
    HasAtSplit(text, p, open, inside + (close + rest));
    HasAtSplit(text, p + 1, inside, close + rest);
    HasAtSplit(text, p + 1 + |inside|, close, rest);
    CharAt(text, p, open, 0);
    CharAt(text, p + 1 + |inside|, close, 0);
  }

  lemma OpenStep(text: string, head: nat, p: nat, b: Bracket, isItem: bool, d: int)
    requires Quiet(text, head, p, isItem, d) && p < |text| && text[p] == Opener(b)
    ensures Quiet(text, head, p + 1, isItem, d + 1)
  {
    QuietNext(text, head, p, isItem, d);
  }

  lemma CloseStep(text: string, head: nat, p: nat, b: Bracket, isItem: bool, d: int)
    requires Quiet(text, head, p, isItem, d + 1) && p < |text| && text[p] == Closer(b)
    requires d >= 0 && (d == 0 ==> !b.Brace?)
    ensures Quiet(text, head, p + 1, isItem, d)
  {
    QuietNext(text, head, p, isItem, d + 1);
  }

  /** Balanced text stays at its depth, and at the top ends nothing that is open. */
  lemma {:induction false} QuietTokens(text: string, head: nat, p: nat, ts: Tokens, q: nat, isItem: bool, d: int)
    requires Quiet(text, head, p, isItem, d) && TokensStand(text, p, ts, q) && LegalTokens(ts)
    requires d >= 0 && (d == 0 ==> Open(ts, isItem))
    ensures Quiet(text, head, q, isItem, d)
    decreases ts
  {
    match ts
    case Done =>
    case Mark(c, more) =>
      MarkParts(text, p, c, more, q);
      QuietNext(text, head, p, isItem, d);
      QuietTokens(text, head, p + 1, more, q, isItem, d);
    case Group(b, inside, rest) =>
      var close := GroupParts(text, p, b, inside, rest, q);
      OpenStep(text, head, p, b, isItem, d);
      QuietTokens(text, head, p + 1, inside, close, isItem, d + 1);
      CloseStep(text, head, close, b, isItem, d);
      QuietTokens(text, head, close + 1, rest, q, isItem, d);
  }

  // ---- an item where it stands ----

  predicate EndingStands(text: string, t: nat, ending: Ending, e: nat) {
    match ending
    case AtSemicolon => t < |text| && text[t] == ';' && e == t + 1
    case AtComma => t < |text| && text[t] == ',' && e == t + 1
    case AtBody(inside) =>
      t + 1 < e <= |text| && text[t] == '{' && text[e - 1] == '}' && TokensStand(text, t + 1, inside, e - 1)
    case AtParent => e == t <= |text| && (e < |text| ==> IsCloser(text[e]))
  }

  function NameEnd(head: nat, item: Item): nat {
    head + |item.space| + |item.word| + |item.gap| + |item.name|
  }

  /** The words of the item stand from `head` on. */
  predicate WordsStand(text: string, head: nat, item: Item) {
    && HasAt(text, head, item.space) && HasAt(text, head + |item.space|, item.word)
    && HasAt(text, head + |item.space| + |item.word|, item.gap)
    && HasAt(text, head + |item.space| + |item.word| + |item.gap|, item.name)
  }

  /** The item starts at `head`, its header ends at `t` and all of it at `e`. */
  predicate ItemStands(text: string, head: nat, item: Item, t: nat, e: nat) {
    && WordsStand(text, head, item)
    && TokensStand(text, NameEnd(head, item), item.header, t) && EndingStands(text, t, item.ending, e)
  }

  predicate Identifier(s: string) {
    s != "" && IsWordStart(s[0]) && Word(s)
  }

  predicate LegalWords(item: Item) {
    && Spaces(item.space) && Identifier(item.word) && item.word != "pub" && Spaces(item.gap)
    && (item.name == "" || (item.gap != "" && Identifier(item.name)))
  }

  predicate LegalItem(item: Item) {
    && LegalWords(item) && LegalTokens(item.header) && Open(item.header, IsItem(item))
    && (item.ending.AtBody? ==> LegalTokens(item.ending.inside)) && (item.ending.AtComma? ==> !IsItem(item))
  }

  /** What follows the name is not part of it, and without a name no word comes. */
  predicate Breaks(rest: string, name: string) {
    rest == "" || (!IsWord(rest[0]) && (name == "" ==> !IsSpace(rest[0])))
  }

  predicate BreaksAt(text: string, p: nat, name: string) {
    p >= |text| || (!IsWord(text[p]) && (name == "" ==> !IsSpace(text[p])))
  }

  lemma EndingEnds(text: string, head: nat, t: nat, ending: Ending, isItem: bool, e: nat)
    requires Quiet(text, head, t, isItem, 0) && EndingStands(text, t, ending, e)
    requires ending.AtBody? ==> LegalTokens(ending.inside)
    requires ending.AtComma? ==> !isItem
    ensures EndsItem(text, head, isItem, e)
  {
    match ending
    case AtSemicolon => assert LastToken(text, head, t, isItem);
    case AtComma => assert LastToken(text, head, t, isItem);
    case AtBody(inside) =>
      OpenStep(text, head, t, Brace, isItem, 0);
      QuietTokens(text, head, t + 1, inside, e - 1, isItem, 1);
      assert LastToken(text, head, e - 1, isItem);
    case AtParent =>
      assert e < |text| ==> ParentCloser(text, head, e);
  }

  lemma WordsStayQuiet(text: string, head: nat, item: Item)
    requires WordsStand(text, head, item) && LegalWords(item)
    ensures Quiet(text, head, NameEnd(head, item), IsItem(item), 0)
  {
    var isItem := IsItem(item);
    var a := head + |item.space|;
    var b := a + |item.word|;
    assert Quiet(text, head, head, isItem, 0);
    QuietText(text, head, head, item.space, isItem, 0);
    QuietText(text, head, a, item.word, isItem, 0);
    QuietText(text, head, b, item.gap, isItem, 0);
    QuietText(text, head, b + |item.gap|, item.name, isItem, 0);
  }

  /** A printed item ends where it was printed to end. */
  lemma ItemEnds(text: string, head: nat, item: Item, t: nat, e: nat)
    requires ItemStands(text, head, item, t, e) && LegalItem(item)
    ensures EndsItem(text, head, IsItem(item), e)
  {
    WordsStayQuiet(text, head, item);
    QuietTokens(text, head, NameEnd(head, item), item.header, t, IsItem(item), 0);
    EndingEnds(text, head, t, item.ending, IsItem(item), e);
  }

  lemma EndsOnce(text: string, head: nat, isItem: bool, a: nat, b: nat)
    requires EndsItem(text, head, isItem, a) && EndsItem(text, head, isItem, b)
    ensures a == b
  {
    if a < b {
      EndsNotBefore(text, head, isItem, a, b);
    } else if b < a {
      EndsNotBefore(text, head, isItem, b, a);
    }
  }

  lemma EndsNotBefore(text: string, head: nat, isItem: bool, a: nat, b: nat)
    requires EndsItem(text, head, isItem, a) && EndsItem(text, head, isItem, b)
    ensures a >= b
  {
  }

  // ---- its words ----

  lemma IdentifierRead(text: string, p: nat, space: string, word: string)
    requires HasAt(text, p, space) && HasAt(text, p + |space|, word) && Spaces(space) && Identifier(word)
    requires p + |space| + |word| < |text| ==> !IsWord(text[p + |space| + |word|])
    ensures SkipSpace(text, p) == p + |space| && SkipWord(text, p + |space|) == p + |space| + |word|
    ensures WordAt(text, p) == word
  {
    ThenChar(text, p, space, word);
    SkipsWord(text, p + |space|, word);
  }

  lemma NoWordRead(text: string, p: nat, space: string)
    requires HasAt(text, p, space) && Spaces(space) && BreaksAt(text, p + |space|, "")
    ensures WordAt(text, p) == ""
  {
    SkipsSpace(text, p, space);
  }

  lemma WordBreaks(text: string, head: nat, item: Item)
    requires WordsStand(text, head, item) && LegalWords(item) && BreaksAt(text, NameEnd(head, item), item.name)
    ensures var b := head + |item.space| + |item.word|; b < |text| ==> !IsWord(text[b])
  {
    var b := head + |item.space| + |item.word|;
    if item.gap != "" {
      CharAt(text, b, item.gap, 0);
    } else {
      assert b == NameEnd(head, item);
    }
  }

  lemma NameRead(text: string, b: nat, gap: string, name: string)
    requires HasAt(text, b, gap) && HasAt(text, b + |gap|, name) && Spaces(gap) && (name == "" || Identifier(name))
    requires BreaksAt(text, b + |gap| + |name|, name)
    ensures WordAt(text, b) == name
  {
    if name == "" {
      NoWordRead(text, b, gap);
    } else {
      IdentifierRead(text, b, gap, name);
    }
  }

  lemma FirstWordRead(text: string, head: nat, item: Item)
    requires WordsStand(text, head, item) && LegalWords(item) && BreaksAt(text, NameEnd(head, item), item.name)
    ensures SkipSpace(text, head) == head + |item.space| && WordAt(text, head) == item.word
    ensures SkipWord(text, head + |item.space|) == head + |item.space| + |item.word|
  {
    WordBreaks(text, head, item);
    IdentifierRead(text, head, item.space, item.word);
  }

  lemma NameOfWords(text: string, head: nat, item: Item)
    requires WordsStand(text, head, item) && LegalWords(item) && BreaksAt(text, NameEnd(head, item), item.name)
    ensures head + |item.space| + |item.word| <= |text|
    ensures WordAt(text, head + |item.space| + |item.word|) == item.name
  {
    NameRead(text, head + |item.space| + |item.word|, item.gap, item.name);
  }

  lemma WordsRead(text: string, head: nat, item: Item)
    requires WordsStand(text, head, item) && LegalWords(item) && BreaksAt(text, NameEnd(head, item), item.name)
    ensures WordAt(text, head) == item.word
    ensures WordAt(text, SkipWord(text, SkipSpace(text, head))) == item.name
  {
    FirstWordRead(text, head, item);
    NameOfWords(text, head, item);
  }

  // ---- visibility ----

  predicate VisibilityStands(text: string, q: nat, v: Visibility, head: nat) {
    match v
    case Private => head == q
    case Pub(space) => HasAt(text, q, space) && HasAt(text, q + |space|, "pub") && head == q + |space| + 3
    case PubIn(space, gap, scope) =>
      && HasAt(text, q, space) && HasAt(text, q + |space|, "pub") && HasAt(text, q + |space| + 3, gap)
      && HasAt(text, q + |space| + 3 + |gap|, "(") && HasAt(text, q + |space| + 4 + |gap|, scope)
      && HasAt(text, q + |space| + 4 + |gap| + |scope|, ")") && head == q + |space| + 5 + |gap| + |scope|
  }

  predicate NoParens(s: string) {
    forall i :: 0 <= i < |s| ==> s[i] != '(' && s[i] != ')'
  }

  predicate LegalVisibility(v: Visibility) {
    match v
    case Private => true
    case Pub(space) => Spaces(space)
    case PubIn(space, gap, scope) => Spaces(space) && Spaces(gap) && NoParens(scope)
  }

  lemma {:induction false} ParenReached(text: string, i: nat, s: string)
    requires HasAt(text, i, s) && NoParens(s) && i + |s| < |text| && text[i + |s|] == ')'
    ensures NextParen(text, i) == i + |s|
    decreases |s|
  {
    if s == "" {
    } else {
      CharAt(text, i, s, 0);
      assert s == s[..1] + s[1..];
      HasAtSplit(text, i, s[..1], s[1..]);
      ParenReached(text, i + 1, s[1..]);
    }
  }

  lemma PrivateSkipped(text: string, q: nat, space: string, word: string)
    requires HasAt(text, q, space) && HasAt(text, q + |space|, word) && Spaces(space) && Identifier(word)
    requires word != "pub" && (q + |space| + |word| < |text| ==> !IsWord(text[q + |space| + |word|]))
    ensures AfterVisibility(text, q) == q
  {
    var k := q + |space|;
    IdentifierRead(text, q, space, word);
    if HasAt(text, k, "pub") && (k + 3 < |text| ==> !IsWord(text[k + 3])) {
      SkipsWord(text, k, "pub");
    }
  }

  lemma PubSkipped(text: string, q: nat, space: string)
    requires Spaces(space) && HasAt(text, q, space) && HasAt(text, q + |space|, "pub")
    requires q + |space| + 3 < |text| ==> !IsWord(text[q + |space| + 3])
    ensures AfterVisibility(text, q) == AfterScope(text, q + |space| + 3)
  {
    ThenChar(text, q, space, "pub");
  }

  lemma NoScope(text: string, p: nat, space: string, word: string)
    requires HasAt(text, p, space) && HasAt(text, p + |space|, word) && Spaces(space) && Identifier(word)
    ensures AfterScope(text, p) == p
  {
    ThenChar(text, p, space, word);
  }

  lemma ScopeSkipped(text: string, p: nat, gap: string, scope: string)
    requires HasAt(text, p, gap) && HasAt(text, p + |gap|, "(") && HasAt(text, p + |gap| + 1, scope)
    requires HasAt(text, p + |gap| + 1 + |scope|, ")") && Spaces(gap) && NoParens(scope)
    ensures AfterScope(text, p) == p + |gap| + |scope| + 2
    ensures p < |text| && !IsWord(text[p])
  {
    ThenChar(text, p, gap, "(");
    CharAt(text, p + |gap| + 1 + |scope|, ")", 0);
    ParenReached(text, p + |gap| + 1, scope);
    if gap != "" {
      CharAt(text, p, gap, 0);
    }
  }

  /** After the visibility comes the item. */
  lemma VisibilitySkipped(text: string, q: nat, v: Visibility, head: nat, item: Item)
    requires VisibilityStands(text, q, v, head) && LegalVisibility(v) && (v.Pub? ==> item.space != "")
    requires WordsStand(text, head, item) && LegalWords(item) && BreaksAt(text, NameEnd(head, item), item.name)
    ensures AfterVisibility(text, q) == head
  {
    match v
    case Private =>
      WordBreaks(text, head, item);
      PrivateSkipped(text, q, item.space, item.word);
    case Pub(space) =>
      CharAt(text, head, item.space, 0);
      PubSkipped(text, q, space);
      NoScope(text, head, item.space, item.word);
    case PubIn(space, gap, scope) =>
      ScopeSkipped(text, q + |space| + 3, gap, scope);
      PubSkipped(text, q, space);
  }

  // ---- what the scan finds ----

  /** A text whose only hashes are those of one run of attributes, and the end of
      the thing under it. */
  ghost predicate OneRun(text: string, run: seq<Attribute>, at: seq<nat>, e: nat) {
    && RunStands(text, run, at) && run != [] && run[0].space == ""
    && NoHashIn(text, 0, at[0]) && NoHashIn(text, at[|run|], |text|)
    && var head := AfterVisibility(text, at[|run|]);
       EndsItem(text, head, WordAt(text, head) in ITEM_KEYWORDS, e)
  }

  lemma RunAtHash(text: string, run: seq<Attribute>, at: seq<nat>, k: nat, contents: seq<Span>, after: nat)
    requires RunStands(text, run, at) && at[0] <= k < at[|run|] && text[k] == '#'
    requires NoHashIn(text, at[|run|], |text|) && IsRun(text, k, contents, after)
    ensures after == at[|run|] && (HasTestCfg(text, contents) ==> AnyTestOnly(run))
    ensures k == at[0] + |run[0].space| && run[0].space == "" ==> contents == ContentSpans(run, at)
  {
    var rest, restAt := HashStartsRun(text, run, at, k);
    RunFound(text, rest, restAt);
    RunOnce(text, k, contents, after, ContentSpans(rest, restAt), restAt[|rest|]);
    RunDecides(text, rest, restAt);
    if run[0].space == "" && k == at[0] {
      RunFound(text, run, at);
      RunOnce(text, k, contents, after, ContentSpans(run, at), at[|run|]);
    }
  }

  lemma HashIsInRun(text: string, run: seq<Attribute>, at: seq<nat>, e: nat, k: nat)
    requires OneRun(text, run, at, e) && k < |text| && text[k] == '#'
    ensures at[0] <= k < at[|run|]
  {
  }

  /** Any test-only item of the text lies in the run and ends with the thing. */
  lemma TestItemHere(text: string, run: seq<Attribute>, at: seq<nat>, e: nat, span: Span)
    requires OneRun(text, run, at, e) && IsTestItem(text, span)
    ensures at[0] <= span.start < at[|run|] && AnyTestOnly(run) && span.end == e
  {
    var contents, after :| IsTestSpan(text, span, contents, after);
    HashIsInRun(text, run, at, e, span.start);
    RunAtHash(text, run, at, span.start, contents, after);
    var head := AfterVisibility(text, after);
    EndsOnce(text, head, WordAt(text, head) in ITEM_KEYWORDS, span.end, e);
  }

  lemma FirstHash(text: string, run: seq<Attribute>, at: seq<nat>, e: nat)
    requires OneRun(text, run, at, e)
    ensures at[0] < at[|run|] <= |text| && HashBracket(text, at[0]).Some?
  {
    assert StandsAt(text, run, at, 0);
    BracketFound(text, at[0], run[0]);
    Later(text, run, at, 1, |run|);
  }

  lemma {:induction false} Later(text: string, run: seq<Attribute>, at: seq<nat>, i: nat, j: nat)
    requires RunStands(text, run, at) && i <= j <= |run|
    ensures at[i] <= at[j]
    decreases j
  {
    if i == j {
    } else {
      Later(text, run, at, i, j - 1);
      assert StandsAt(text, run, at, j - 1);
    }
  }

  lemma NotInOtherRun(text: string, run: seq<Attribute>, at: seq<nat>, e: nat)
    requires OneRun(text, run, at, e) && AnyTestOnly(run)
    ensures !InOtherRun(text, at[0])
  {
    FirstHash(text, run, at, e);
    RunFound(text, run, at);
    RunDecides(text, run, at);
    forall span, contents, after | Contains(span, at[0]) && IsOther(text, span, contents, after)
      ensures false
    {
      HashIsInRun(text, run, at, e, span.start);
      RunOnce(text, at[0], contents, after, ContentSpans(run, at), at[|run|]);
    }
  }

  /** Span `i` ends where the thing under the run does. */
  ghost predicate EndsThere(spans: seq<Span>, i: nat, first: nat, e: nat)
    requires i < |spans|
  {
    first <= spans[i].start < e && spans[i].end == e
  }

  lemma AllEndThere(text: string, run: seq<Attribute>, at: seq<nat>, e: nat, spans: seq<Span>, i: nat)
    requires OneRun(text, run, at, e) && Ordered(text, spans) && AllTestItems(text, spans) && i < |spans|
    ensures EndsThere(spans, i, at[0], e) && AnyTestOnly(run)
  {
    assert NthIsTestItem(text, spans, i);
    TestItemHere(text, run, at, e, spans[i]);
  }

  lemma AtMostOne(text: string, run: seq<Attribute>, at: seq<nat>, e: nat, spans: seq<Span>)
    requires OneRun(text, run, at, e) && Ordered(text, spans) && AllTestItems(text, spans)
    ensures |spans| <= 1
  {
    if |spans| > 1 {
      AllEndThere(text, run, at, e, spans, 0);
      AllEndThere(text, run, at, e, spans, 1);
    }
  }

  /** Exactly one span if some attribute admits test builds only, and else none. */
  lemma SpansFound(text: string, run: seq<Attribute>, at: seq<nat>, e: nat, spans: seq<Span>)
    requires OneRun(text, run, at, e)
    requires Ordered(text, spans) && AllTestItems(text, spans) && Accounted(text, spans, |text|)
    ensures spans == if AnyTestOnly(run) then [Span(at[0], e)] else []
  {
    AtMostOne(text, run, at, e, spans);
    if |spans| == 1 {
      AllEndThere(text, run, at, e, spans, 0);
    }
    if AnyTestOnly(run) {
      FirstHash(text, run, at, e);
      NotInOtherRun(text, run, at, e);
      assert InSpans(spans, at[0]);
      var i :| 0 <= i < |spans| && Contains(spans[i], at[0]);
      assert spans == [spans[0]] && i == 0;
    }
  }

  /** Before the run nothing is skipped, so its depth is that of the plain braces. */
  lemma {:induction false} DepthIsBalance(text: string, skips: seq<Span>, k: nat)
    requires k <= |text| && forall j: nat :: j < k ==> !InSpans(skips, j)
    ensures BraceDepth(text, skips, k) == Balance(text, '{', '}', 0, k)
  {
    if k == 0 {
    } else {
      DepthIsBalance(text, skips, k - 1);
      assert !InSpans(skips, k - 1);
    }
  }

  lemma SkipsStartAtHashes(text: string, run: seq<Attribute>, at: seq<nat>, e: nat, skips: seq<Span>, spans: seq<Span>)
    requires OneRun(text, run, at, e) && Skipped(text, skips, spans) && AllTestItems(text, spans)
    ensures forall j: nat :: j < at[0] ==> !InSpans(skips, j)
  {
    forall i | 0 <= i < |skips|
      ensures at[0] <= skips[i].start
    {
      if skips[i] in spans {
        var n: nat :| n < |spans| && spans[n] == skips[i];
        assert NthIsTestItem(text, spans, n);
        TestItemHere(text, run, at, e, skips[i]);
      } else {
        var contents, after :| IsOther(text, skips[i], contents, after);
        HashIsInRun(text, run, at, e, skips[i].start);
      }
    }
    forall j: nat | j < at[0]
      ensures !InSpans(skips, j)
    {
      assert forall i :: 0 <= i < |skips| ==> !Contains(skips[i], j);
    }
  }

  lemma DeclaredHere(text: string, run: seq<Attribute>, at: seq<nat>, e: nat, m: Option<TestModule>)
    requires OneRun(text, run, at, e) && IsTestItemWith(text, Span(at[0], e), m)
    ensures m == DeclaredModule(text, ContentSpans(run, at), at[|run|])
  {
    var contents, after :|
      IsTestSpan(text, Span(at[0], e), contents, after) && m == DeclaredModule(text, contents, after);
    FirstHash(text, run, at, e);
    RunAtHash(text, run, at, at[0], contents, after);
  }

  /** The module a test-only item declares where no brace is open. */
  ghost function ModuleFound(text: string, run: seq<Attribute>, at: seq<nat>): set<TestModule>
    requires |at| == |run| + 1 && at[0] <= |text| && at[|run|] <= |text|
  {
    var m := DeclaredModule(text, ContentSpans(run, at), at[|run|]);
    if AnyTestOnly(run) && Balance(text, '{', '}', 0, at[0]) == 0 && m.Some? then {m.value} else {}
  }

  lemma ModulesFound(text: string, run: seq<Attribute>, at: seq<nat>, e: nat, spans: seq<Span>,
                     skips: seq<Span>, declared: seq<Option<TestModule>>)
    requires OneRun(text, run, at, e) && at[0] <= |text| && AnyTestOnly(run)
    requires AllTestItems(text, spans) && Skipped(text, skips, spans) && AllDeclare(text, skips, spans, declared)
    requires spans == [Span(at[0], e)]
    ensures Modules(declared) == ModuleFound(text, run, at)
  {
    SkipsStartAtHashes(text, run, at, e, skips, spans);
    DepthIsBalance(text, skips, at[0]);
    assert Declares(text, skips, spans[0], declared[0]);
    var m :| IsTestItemWith(text, spans[0], m)
             && declared[0] == if BraceDepth(text, skips, spans[0].start) == 0 then m else None;
    DeclaredHere(text, run, at, e, m);
    OneModule(declared);
  }

  lemma OneModule(declared: seq<Option<TestModule>>)
    requires |declared| == 1
    ensures Modules(declared) == if declared[0].Some? then {declared[0].value} else {}
  {
    assert declared == [] + [declared[0]];
    ModulesAppend([], declared[0]);
  }

  lemma OneRunScanned(text: string, run: seq<Attribute>, at: seq<nat>, e: nat,
                      spans: seq<Span>, modules: set<TestModule>)
    requires OneRun(text, run, at, e) && at[0] <= |text| && ScanResult(text, spans, modules)
    ensures spans == if AnyTestOnly(run) then [Span(at[0], e)] else []
    ensures modules == ModuleFound(text, run, at)
  {
    var skips, declared :|
      && Ordered(text, spans) && AllTestItems(text, spans) && Accounted(text, spans, |text|)
      && Skipped(text, skips, spans) && AllDeclare(text, skips, spans, declared) && modules == Modules(declared);
    SpansFound(text, run, at, e, spans);
    if AnyTestOnly(run) {
      ModulesFound(text, run, at, e, spans, skips, declared);
    }
  }

  // ---- printed source ----

  /** Any text, a run of attributes, the item under it, and any text again. */
  datatype Source = Source(before: string, run: seq<Attribute>, visibility: Visibility, item: Item, after: string)

  function ItemText(item: Item): string {
    item.space + (item.word + (item.gap + (item.name + Tail(item))))
  }

  function SourceText(f: Source): string {
    f.before + (RunText(f.run) + (VisibilityText(f.visibility) + (ItemText(f.item) + f.after)))
  }

  predicate NoHash(s: string) {
    forall i :: 0 <= i < |s| ==> s[i] != '#'
  }

  /** Hashes occur in the attributes only, and the parts do not run together. */
  ghost predicate LegalSource(f: Source) {
    && f.run != [] && f.run[0].space == "" && LegalRun(f.run)
    && LegalVisibility(f.visibility) && (f.visibility.Pub? ==> f.item.space != "") && LegalItem(f.item)
    && NoHash(f.before) && NoHash(VisibilityText(f.visibility)) && NoHash(ItemText(f.item)) && NoHash(f.after)
    && Breaks(Tail(f.item) + f.after, f.item.name)
    && (f.item.ending.AtParent? && f.after != "" ==> IsCloser(f.after[0]))
  }

  /** The parts stand one after the other: the run to `q`, the visibility to
      `head`, the item to `e`, and the rest. */
  predicate PartsStand(text: string, f: Source, q: nat, head: nat, e: nat) {
    && HasAt(text, 0, f.before) && HasAt(text, |f.before|, RunText(f.run)) && q == |f.before| + |RunText(f.run)|
    && HasAt(text, q, VisibilityText(f.visibility)) && head == q + |VisibilityText(f.visibility)|
    && HasAt(text, head, ItemText(f.item)) && e == head + |ItemText(f.item)|
    && HasAt(text, e, f.after) && |text| == e + |f.after|
  }

  /** Where the run and the item end. */
  function RunEnd(f: Source): nat {
    |f.before| + |RunText(f.run)|
  }

  function ItemHead(f: Source): nat {
    RunEnd(f) + |VisibilityText(f.visibility)|
  }

  function SourceItemEnd(f: Source): nat {
    ItemHead(f) + |ItemText(f.item)|
  }

  lemma SourceParts(f: Source)
    ensures PartsStand(SourceText(f), f, RunEnd(f), ItemHead(f), SourceItemEnd(f))
  {
    var text := SourceText(f);
    assert HasAt(text, 0, text);
    HasAtFive(text, 0, f.before, RunText(f.run), VisibilityText(f.visibility), ItemText(f.item), f.after);
  }

  lemma PartHasNoHash(text: string, p: nat, s: string)
    requires HasAt(text, p, s) && NoHash(s)
    ensures NoHashIn(text, p, p + |s|)
  {
    forall k | p <= k < p + |s|
      ensures text[k] != '#'
    {
      CharAt(text, p, s, k - p);
    }
  }

  lemma HashesAreInRun(text: string, f: Source, q: nat, head: nat, e: nat)
    requires LegalSource(f) && PartsStand(text, f, q, head, e)
    ensures NoHashIn(text, 0, |f.before|) && NoHashIn(text, q, |text|)
  {
    PartHasNoHash(text, 0, f.before);
    PartHasNoHash(text, q, VisibilityText(f.visibility));
    PartHasNoHash(text, head, ItemText(f.item));
    PartHasNoHash(text, e, f.after);
  }

  lemma VisibilityParts(text: string, q: nat, v: Visibility)
    requires HasAt(text, q, VisibilityText(v))
    ensures VisibilityStands(text, q, v, q + |VisibilityText(v)|)
  {
    match v
    case Private =>
    case Pub(space) => HasAtSplit(text, q, space, "pub");
    case PubIn(space, gap, scope) =>
      HasAtFive(text, q, space, "pub", gap, "(", scope + ")");
      HasAtSplit(text, q + |space| + 4 + |gap|, scope, ")");
  }

  lemma EndingParts(text: string, t: nat, ending: Ending)
    requires HasAt(text, t, EndingText(ending))
    requires ending.AtParent? && t < |text| ==> IsCloser(text[t])
    ensures EndingStands(text, t, ending, t + |EndingText(ending)|)
  {
    match ending
    case AtSemicolon => CharAt(text, t, ";", 0);
    case AtComma => CharAt(text, t, ",", 0);
    case AtBody(inside) =>
      HasAtSplit(text, t, ['{'], TokenText(inside) + ['}']);
      HasAtSplit(text, t + 1, TokenText(inside), ['}']);
      CharAt(text, t, ['{'], 0);
      CharAt(text, t + 1 + |TokenText(inside)|, ['}'], 0);
    case AtParent =>
  }

  lemma ItemParts(text: string, head: nat, item: Item)
    requires HasAt(text, head, ItemText(item))
    ensures WordsStand(text, head, item) && HasAt(text, NameEnd(head, item), Tail(item))
    ensures head + |ItemText(item)| == NameEnd(head, item) + |Tail(item)|
  {
    HasAtFive(text, head, item.space, item.word, item.gap, item.name, Tail(item));
  }

  lemma TailBreaks(text: string, h: nat, tail: string, after: string, name: string)
    requires HasAt(text, h, tail) && HasAt(text, h + |tail|, after) && |text| == h + |tail| + |after|
    requires Breaks(tail + after, name)
    ensures BreaksAt(text, h, name)
  {
    HasAtSplit(text, h, tail, after);
    if tail + after != "" {
      CharAt(text, h, tail + after, 0);
    }
  }

  lemma TailStands(text: string, h: nat, item: Item, e: nat, after: string)
    requires HasAt(text, h, Tail(item)) && e == h + |Tail(item)| && HasAt(text, e, after) && |text| == e + |after|
    requires item.ending.AtParent? && after != "" ==> IsCloser(after[0])
    ensures var t := h + |TokenText(item.header)|;
            TokensStand(text, h, item.header, t) && EndingStands(text, t, item.ending, e)
  {
    var t := h + |TokenText(item.header)|;
    HasAtSplit(text, h, TokenText(item.header), EndingText(item.ending));
    if after != "" {
      CharAt(text, e, after, 0);
    }
    EndingParts(text, t, item.ending);
  }

  lemma SourceItemStands(text: string, head: nat, item: Item, e: nat, after: string) returns (t: nat)
    requires HasAt(text, head, ItemText(item)) && e == head + |ItemText(item)|
    requires HasAt(text, e, after) && |text| == e + |after| && Breaks(Tail(item) + after, item.name)
    requires item.ending.AtParent? && after != "" ==> IsCloser(after[0])
    ensures ItemStands(text, head, item, t, e) && BreaksAt(text, NameEnd(head, item), item.name)
  {
    var h := NameEnd(head, item);
    ItemParts(text, head, item);
    TailStands(text, h, item, e, after);
    TailBreaks(text, h, Tail(item), after, item.name);
    t := h + |TokenText(item.header)|;
  }

  /** The item is read where it stands, and ends there. */
  lemma ItemRead(text: string, q: nat, v: Visibility, head: nat, item: Item, t: nat, e: nat)
    requires VisibilityStands(text, q, v, head) && LegalVisibility(v) && (v.Pub? ==> item.space != "")
    requires ItemStands(text, head, item, t, e) && LegalItem(item) && BreaksAt(text, NameEnd(head, item), item.name)
    ensures AfterVisibility(text, q) == head && WordAt(text, head) == item.word
    ensures EndsItem(text, head, item.word in ITEM_KEYWORDS, e)
  {
    VisibilitySkipped(text, q, v, head, item);
    FirstWordRead(text, head, item);
    KeywordsRead(item);
    ItemEnds(text, head, item, t, e);
  }

  lemma SourceIsOneRun(text: string, f: Source, q: nat, head: nat, e: nat)
    requires LegalSource(f) && PartsStand(text, f, q, head, e)
    ensures var at := Starts(|f.before|, f.run); at[|f.run|] == q && OneRun(text, f.run, at, e)
  {
    HashesAreInRun(text, f, q, head, e);
    PrintedRunStands(text, |f.before|, f.run, q);
    VisibilityParts(text, q, f.visibility);
    var t := SourceItemStands(text, head, f.item, e, f.after);
    ItemRead(text, q, f.visibility, head, f.item, t, e);
  }

  /** Where the content of the first path attribute starts. */
  function PathStart(run: seq<Attribute>, at: seq<nat>): Option<nat>
    requires |at| == |run| + 1
    decreases |run|
  {
    if run == [] then None
    else if IsPathContent(run[0].content) then Some(ContentSpan(at[0], run[0]).start)
    else PathStart(run[1..], at[1..])
  }

  lemma {:induction false} PathStartFound(text: string, run: seq<Attribute>, at: seq<nat>)
    requires RunStands(text, run, at)
    ensures FirstPath(text, ContentSpans(run, at)) == PathStart(run, at)
    decreases |run|
  {
    if run == [] {
    } else {
      assert StandsAt(text, run, at, 0);
      ContentFound(text, at[0], run[0]);
      Rest(text, run, at, 1);
      PathStartFound(text, run[1..], at[1..]);
      assert ContentSpans(run, at)[1..] == ContentSpans(run[1..], at[1..]);
    }
  }

  /** What a printed module declaration declares. */
  function Declared(f: Source): Option<TestModule> {
    if f.item.word == "mod" && f.item.name != ""
    then Some(TestModule(f.item.name, PathStart(f.run, Starts(|f.before|, f.run)))) else None
  }

  lemma ModuleAfter(text: string, contents: seq<Span>, q: nat, head: nat, item: Item)
    requires q <= |text| && AfterVisibility(text, q) == head
    requires WordsStand(text, head, item) && LegalWords(item) && BreaksAt(text, NameEnd(head, item), item.name)
    ensures DeclaredModule(text, contents, q) ==
            if item.word == "mod" && item.name != "" then Some(TestModule(item.name, FirstPath(text, contents)))
            else None
  {
    WordsRead(text, head, item);
  }

  lemma ModuleRead(text: string, contents: seq<Span>, q: nat, v: Visibility, head: nat, item: Item)
    requires VisibilityStands(text, q, v, head) && LegalVisibility(v) && (v.Pub? ==> item.space != "")
    requires WordsStand(text, head, item) && LegalWords(item) && BreaksAt(text, NameEnd(head, item), item.name)
    ensures q <= |text| && DeclaredModule(text, contents, q) ==
            if item.word == "mod" && item.name != "" then Some(TestModule(item.name, FirstPath(text, contents)))
            else None
  {
    VisibilitySkipped(text, q, v, head, item);
    ModuleAfter(text, contents, q, head, item);
  }

  lemma DeclaredFound(text: string, f: Source, q: nat, head: nat, e: nat)
    requires LegalSource(f) && PartsStand(text, f, q, head, e)
    ensures var at := Starts(|f.before|, f.run);
            q <= |text| && DeclaredModule(text, ContentSpans(f.run, at), q) == Declared(f)
  {
    var at := Starts(|f.before|, f.run);
    PrintedRunStands(text, |f.before|, f.run, q);
    PathStartFound(text, f.run, at);
    VisibilityParts(text, q, f.visibility);
    var t := SourceItemStands(text, head, f.item, e, f.after);
    ModuleRead(text, ContentSpans(f.run, at), q, f.visibility, head, f.item);
  }

  lemma {:induction false} BalanceIsLocal(a: string, b: string, k: nat)
    requires k <= |a| && k <= |b| && a[..k] == b[..k]
    ensures Balance(a, '{', '}', 0, k) == Balance(b, '{', '}', 0, k)
  {
    if k == 0 {
    } else {
      assert a[..k][..k - 1] == a[..k - 1] && b[..k][..k - 1] == b[..k - 1];
      assert a[k - 1] == a[..k][k - 1] && b[k - 1] == b[..k][k - 1];
      BalanceIsLocal(a, b, k - 1);
    }
  }

  lemma BalanceBefore(text: string, before: string)
    requires HasAt(text, 0, before)
    ensures Balance(text, '{', '}', 0, |before|) == Balance(before, '{', '}', 0, |before|)
  {
    HasAtSlice(text, 0, before);
    assert before[..|before|] == before;
    BalanceIsLocal(text, before, |before|);
  }

  /** What the scan finds in printed source. */
  ghost predicate Finds(f: Source, spans: seq<Span>, modules: set<TestModule>) {
    && spans == (if AnyTestOnly(f.run) then [Span(|f.before|, SourceItemEnd(f))] else [])
    && modules == if AnyTestOnly(f.run) && Balance(f.before, '{', '}', 0, |f.before|) == 0 && Declared(f).Some?
                  then {Declared(f).value} else {}
  }

  lemma PartsScanned(text: string, f: Source, q: nat, head: nat, e: nat, spans: seq<Span>, modules: set<TestModule>)
    requires LegalSource(f) && PartsStand(text, f, q, head, e) && ScanResult(text, spans, modules)
    ensures spans == if AnyTestOnly(f.run) then [Span(|f.before|, e)] else []
    ensures modules ==
            if AnyTestOnly(f.run) && Balance(f.before, '{', '}', 0, |f.before|) == 0 && Declared(f).Some?
            then {Declared(f).value} else {}
  {
    var at := Starts(|f.before|, f.run);
    SourceIsOneRun(text, f, q, head, e);
    DeclaredFound(text, f, q, head, e);
    BalanceBefore(text, f.before);
    OneRunScanned(text, f.run, at, e, spans, modules);
  }

  lemma SourceScanned(f: Source, spans: seq<Span>, modules: set<TestModule>)
    requires LegalSource(f) && ScanResult(SourceText(f), spans, modules)
    ensures Finds(f, spans, modules)
  {
    SourceParts(f);
    PartsScanned(SourceText(f), f, RunEnd(f), ItemHead(f), SourceItemEnd(f), spans, modules);
  }

  /** The scan of printed source finds the attributes with their item exactly when
      some cfg predicate admits test builds only; and a module that the item
      declares, exactly when no brace is open before it. */
  method ScanSource(f: Source) returns (spans: seq<Span>, modules: set<TestModule>)
    requires LegalSource(f)
    ensures Finds(f, spans, modules)
  {
    ghost var skips, declared;
    spans, modules, skips, declared := ScanTestOnly(SourceText(f));
    assert ScanResult(SourceText(f), spans, modules);
    SourceScanned(f, spans, modules);
  }
}
