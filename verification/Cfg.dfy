/** When does a cfg predicate admit only test builds? The text-level decision
    procedure of the module-SCC scanner, against the meaning of predicates. */
module Cfg {
  import opened Text

  function Squeeze(s: string): (r: string)
    ensures |r| <= |s|
  {
    if s == "" then "" else (if IsSpace(s[0]) then "" else [s[0]]) + Squeeze(s[1..])
  }

  // ---- splitting an argument list at its depth-0 commas ----

  /** The parts still to come when `cur` is the part read so far. */
  function Parts(cur: string, rest: string, depth: int): (r: seq<string>)
    ensures |r| > 0 && forall i :: 0 <= i < |r| ==> |r[i]| <= |cur| + |rest|
    decreases |rest|
  {
    if rest == "" then [cur]
    else if rest[0] == '(' then Parts(cur + rest[..1], rest[1..], depth + 1)
    else if rest[0] == ')' then Parts(cur + rest[..1], rest[1..], depth - 1)
    else if rest[0] == ',' && depth == 0 then [cur] + Parts("", rest[1..], depth)
    else Parts(cur + rest[..1], rest[1..], depth)
  }

  function NonEmpty(parts: seq<string>): (r: seq<string>)
    ensures forall i :: 0 <= i < |r| ==> r[i] in parts
  {
    if parts == [] then [] else (if parts[0] == "" then [] else [parts[0]]) + NonEmpty(parts[1..])
  }

  function CfgArgs(args: string): (r: seq<string>)
    ensures forall i :: 0 <= i < |r| ==> |r[i]| <= |args|
  {
    NonEmpty(Parts("", args, 0))
  }

  lemma {:induction false} NonEmptyAppend(a: seq<string>, b: seq<string>)
    ensures NonEmpty(a + b) == NonEmpty(a) + NonEmpty(b)
  {
    if a == [] {
      assert a + b == b;
    } else {
      assert (a + b)[1..] == a[1..] + b;
      NonEmptyAppend(a[1..], b);
    }
  }

  /** One step of the split at position `i`, the current part begun at `k`. */
  lemma PartsStep(s: string, k: nat, i: nat, depth: int)
    requires k <= i < |s|
    ensures Parts(s[k..i], s[i..], depth) ==
            if s[i] == '(' then Parts(s[k..i + 1], s[i + 1..], depth + 1)
            else if s[i] == ')' then Parts(s[k..i + 1], s[i + 1..], depth - 1)
            else if s[i] == ',' && depth == 0 then [s[k..i]] + Parts(s[i + 1..i + 1], s[i + 1..], depth)
            else Parts(s[k..i + 1], s[i + 1..], depth)
  {
    var rest := s[i..];
    assert rest[0] == s[i] && rest[1..] == s[i + 1..];
    assert s[k..i] + rest[..1] == s[k..i + 1];
    assert s[i + 1..i + 1] == "";
  }

  /** The scanner's loop over the characters computes the same list. */
  method SplitCfgArgs(args: string) returns (r: seq<string>)
    ensures r == CfgArgs(args)
  {
    var parts, depth, start := [], 0, 0;
    assert args[0..] == args && args[0..0] == "";
    for index := 0 to |args|
      invariant 0 <= start <= index
      invariant parts + Parts(args[start..index], args[index..], depth) == Parts("", args, 0)
    {
      PartsStep(args, start, index, depth);
      var c := args[index];
      if c == '(' {
        depth := depth + 1;
      } else if c == ')' {
        depth := depth - 1;
      } else if c == ',' && depth == 0 {
        parts := parts + [args[start..index]];
        start := index + 1;
      }
    }
    assert args[|args|..] == "" && args[start..|args|] == args[start..];
    parts := parts + [args[start..]];
    r := NonEmpty(parts);
  }

  /** The decision procedure, on predicate text. */
  predicate CfgImpliesTest(text: string)
    decreases |text|, 1
  {
    var s := Squeeze(text);
    s == "test" || CallImpliesTest(s)
  }

  /** Its recursive case: `all(...)`, `any(...)` or `not(...)`. */
  predicate CallImpliesTest(s: string)
    decreases |s|, 0
  {
    && |s| >= 5 && s[3] == '(' && s[|s| - 1] == ')'
    && var args := CfgArgs(s[4..|s| - 1]);
       if s[..3] == "all" then exists i :: 0 <= i < |args| && CfgImpliesTest(args[i])
       else if s[..3] == "any" then |args| > 0 && forall i :: 0 <= i < |args| ==> CfgImpliesTest(args[i])
       else false
  }

  // ---- predicates and what they mean ----

  /** A cfg predicate. An atom tests one configuration option `key`, such as
      `feature="a"`; its `text` is what the lexed file shows of it, where string
      contents are blanked, so different options may share a text. A list may
      end in a comma. */
  datatype Pred =
    | Atom(text: string, key: string)
    | All(args: Preds, trailing: bool)
    | Any(args: Preds, trailing: bool)
    | Not(arg: Pred)

  datatype Preds = Nil | Cons(head: Pred, tail: Preds)

  predicate AtomText(t: string) {
    t != "" && forall c :: c in t ==> !IsSpace(c) && c != '(' && c != ')' && c != ','
  }

  predicate WellFormed(p: Pred) {
    match p
    case Atom(t, key) => AtomText(t) && (t == "test" <==> key == "test")
    case All(args, _) => AllWellFormed(args)
    case Any(args, _) => AllWellFormed(args)
    case Not(a) => WellFormed(a)
  }

  predicate AllWellFormed(ps: Preds) {
    ps.Cons? ==> WellFormed(ps.head) && AllWellFormed(ps.tail)
  }

  /** Whether a build that enables exactly these options satisfies the predicate. */
  ghost predicate Holds(p: Pred, enabled: string -> bool) {
    match p
    case Atom(_, key) => enabled(key)
    case All(args, _) => AllHold(args, enabled)
    case Any(args, _) => SomeHolds(args, enabled)
    case Not(a) => !Holds(a, enabled)
  }

  ghost predicate AllHold(ps: Preds, enabled: string -> bool) {
    ps.Cons? ==> Holds(ps.head, enabled) && AllHold(ps.tail, enabled)
  }

  ghost predicate SomeHolds(ps: Preds, enabled: string -> bool) {
    ps.Cons? && (Holds(ps.head, enabled) || SomeHolds(ps.tail, enabled))
  }

  /** The predicate's text, without white space. */
  function Print(p: Pred): string {
    match p
    case Atom(t, _) => t
    case All(args, trailing) => "all(" + PrintArgs(args, trailing) + ")"
    case Any(args, trailing) => "any(" + PrintArgs(args, trailing) + ")"
    case Not(a) => "not(" + Print(a) + ")"
  }

  function PrintArgs(ps: Preds, trailing: bool): string {
    match ps
    case Nil => ""
    case Cons(p, Nil) => Print(p) + (if trailing then "," else "")
    case Cons(p, rest) => Print(p) + "," + PrintArgs(rest, trailing)
  }

  function Texts(ps: Preds): seq<string> {
    if ps.Nil? then [] else [Print(ps.head)] + Texts(ps.tail)
  }

  /** The decision on the predicate's structure. */
  predicate Implied(p: Pred) {
    match p
    case Atom(t, _) => t == "test"
    case All(args, _) => SomeImplied(args)
    case Any(args, _) => args.Cons? && AllImplied(args)
    case Not(_) => false
  }

  predicate SomeImplied(ps: Preds) {
    ps.Cons? && (Implied(ps.head) || SomeImplied(ps.tail))
  }

  predicate AllImplied(ps: Preds) {
    ps.Cons? ==> Implied(ps.head) && AllImplied(ps.tail)
  }

  // ---- the text of a printed predicate is taken apart again ----

  /** At this depth the text `t` becomes part of the current argument. */
  ghost predicate Passes(cur: string, t: string, rest: string, depth: int) {
    Parts(cur, t + rest, depth) == Parts(cur + t, rest, depth)
  }

  /** A run of characters that neither nests nor separates. */
  lemma {:induction false} PartsPlain(cur: string, t: string, rest: string, depth: int)
    requires forall c :: c in t ==> c != '(' && c != ')' && (c == ',' ==> depth != 0)
    ensures Passes(cur, t, rest, depth)
    decreases |t|
  {
    if t == "" {
      assert t + rest == rest && cur + t == cur;
    } else {
      assert (t + rest)[0] == t[0] && (t + rest)[..1] == t[..1] && (t + rest)[1..] == t[1..] + rest;
      assert t[0] in t && forall c :: c in t[1..] ==> c in t;
      PartsPlain(cur + t[..1], t[1..], rest, depth);
      assert cur + t[..1] + t[1..] == cur + t;
    }
  }

  lemma PassesAppend(cur: string, a: string, b: string, rest: string, depth: int)
    requires Passes(cur, a, b + rest, depth) && Passes(cur + a, b, rest, depth)
    ensures Passes(cur, a + b, rest, depth)
  {
    assert a + b + rest == a + (b + rest) && cur + a + b == cur + (a + b);
  }

  lemma PassesBracket(cur: string, bracket: string, rest: string, depth: int)
    requires bracket == "(" || bracket == ")"
    ensures Parts(cur, bracket + rest, depth) ==
            Parts(cur + bracket, rest, if bracket == "(" then depth + 1 else depth - 1)
  {
    var text := bracket + rest;
    assert text[0] == bracket[0] && text[..1] == bracket && text[1..] == rest;
  }

  /** A bracketed group whose inside passes one level deeper. */
  lemma PartsGroup(cur: string, op: string, inside: string, rest: string, depth: int)
    requires forall c :: c in op ==> c != '(' && c != ')' && c != ','
    requires Passes(cur + op + "(", inside, ")" + rest, depth + 1)
    ensures Passes(cur, op + "(" + inside + ")", rest, depth)
  {
    var close := ")" + rest;
    PartsPlain(cur, op, "(" + (inside + close), depth);
    PassesBracket(cur + op, "(", inside + close, depth);
    PassesBracket(cur + op + "(" + inside, ")", rest, depth + 1);
    assert op + "(" + inside + ")" + rest == op + ("(" + (inside + close));
    assert cur + op + "(" + inside + ")" == cur + (op + "(" + inside + ")");
  }

  lemma {:induction false} PartsPred(p: Pred, cur: string, rest: string, depth: nat)
    requires WellFormed(p)
    ensures Passes(cur, Print(p), rest, depth)
    decreases p, 0
  {
    match p
    case Atom(t, _) => PartsPlain(cur, t, rest, depth);
    case All(args, trailing) =>
      assert "all" + "(" == "all(";
      PartsInner(args, trailing, cur + "all" + "(", ")" + rest, depth + 1);
      PartsGroup(cur, "all", PrintArgs(args, trailing), rest, depth);
    case Any(args, trailing) =>
      assert "any" + "(" == "any(";
      PartsInner(args, trailing, cur + "any" + "(", ")" + rest, depth + 1);
      PartsGroup(cur, "any", PrintArgs(args, trailing), rest, depth);
    case Not(a) =>
      assert "not" + "(" == "not(";
      PartsPred(a, cur + "not" + "(", ")" + rest, depth + 1);
      PartsGroup(cur, "not", Print(a), rest, depth);
  }

  /** Inside brackets the commas of a list separate nothing. */
  lemma {:induction false} PartsInner(ps: Preds, trailing: bool, cur: string, rest: string, depth: nat)
    requires AllWellFormed(ps) && depth > 0
    ensures Passes(cur, PrintArgs(ps, trailing), rest, depth)
    decreases ps, 0
  {
    if ps.Nil? {
      assert "" + rest == rest && cur + "" == cur;
    } else if ps.tail.Nil? {
      var comma := if trailing then "," else "";
      PartsPred(ps.head, cur, comma + rest, depth);
      PartsPlain(cur + Print(ps.head), comma, rest, depth);
      PassesAppend(cur, Print(ps.head), comma, rest, depth);
    } else {
      var first, more := Print(ps.head), PrintArgs(ps.tail, trailing);
      PartsPred(ps.head, cur, "," + (more + rest), depth);
      PartsPlain(cur + first, ",", more + rest, depth);
      PassesAppend(cur, first, ",", more + rest, depth);
      PartsInner(ps.tail, trailing, cur + (first + ","), rest, depth);
      PassesAppend(cur, first + ",", more, rest, depth);
    }
  }

  lemma {:induction false} PrintChars(p: Pred)
    requires WellFormed(p)
    ensures Print(p) != "" && forall c :: c in Print(p) ==> !IsSpace(c)
  {
    match p
    case Atom(t, _) =>
    case All(args, trailing) => PrintArgsChars(args, trailing);
    case Any(args, trailing) => PrintArgsChars(args, trailing);
    case Not(a) => PrintChars(a);
  }

  lemma {:induction false} PrintArgsChars(ps: Preds, trailing: bool)
    requires AllWellFormed(ps)
    ensures forall c :: c in PrintArgs(ps, trailing) ==> !IsSpace(c)
  {
    if ps.Nil? {
    } else {
      PrintChars(ps.head);
      PrintArgsChars(ps.tail, trailing);
    }
  }

  /** Splitting a printed argument list gives back the printed arguments. */
  lemma {:induction false} ArgsRecovered(ps: Preds, trailing: bool)
    requires AllWellFormed(ps)
    ensures CfgArgs(PrintArgs(ps, trailing)) == Texts(ps)
  {
    if ps.Nil? {
    } else {
      var t := Print(ps.head);
      PrintChars(ps.head);
      var more := PrintArgs(ps.tail, trailing);
      var tail := if ps.tail.Cons? then "," + more else if trailing then "," else "";
      assert PrintArgs(ps, trailing) == t + tail;
      assert "" + t == t;
      PartsPred(ps.head, "", tail, 0);
      assert Parts("", t + tail, 0) == Parts("" + t, tail, 0);
      if tail == "" {
        assert Parts(t, tail, 0) == [t];
        assert NonEmpty([t]) == [t] + NonEmpty([t][1..]);
        assert ps.tail.Nil?;
        assert Texts(ps) == [t] + [];
      } else {
        assert tail[1..] == more;
        assert Parts(t, tail, 0) == [t] + Parts("", more, 0);
        NonEmptyAppend([t], Parts("", more, 0));
        ArgsRecovered(ps.tail, trailing);
      }
    }
  }

  lemma {:induction false} SqueezeKeeps(s: string)
    requires forall c :: c in s ==> !IsSpace(c)
    ensures Squeeze(s) == s
  {
    if s == "" {
    } else {
      assert s[0] in s && forall c :: c in s[1..] ==> c in s;
      SqueezeKeeps(s[1..]);
    }
  }

  /** Layout does not matter: only the squeezed text is looked at. */
  lemma SqueezedDecides(text: string)
    ensures CfgImpliesTest(text) <==> CfgImpliesTest(Squeeze(text))
  {
    SqueezeClears(text);
    SqueezeKeeps(Squeeze(text));
  }

  lemma {:induction false} SqueezeClears(s: string)
    ensures forall c :: c in Squeeze(s) ==> !IsSpace(c)
  {
    if s == "" {
    } else {
      SqueezeClears(s[1..]);
    }
  }

  /** Some of the texts imply `test`, and all of them do. */
  predicate SomeImply(ts: seq<string>) {
    ts != [] && (CfgImpliesTest(ts[0]) || SomeImply(ts[1..]))
  }

  predicate EveryImplies(ts: seq<string>) {
    ts == [] || (CfgImpliesTest(ts[0]) && EveryImplies(ts[1..]))
  }

  lemma {:induction false} SomeImplyIff(ts: seq<string>)
    ensures SomeImply(ts) <==> exists i :: 0 <= i < |ts| && CfgImpliesTest(ts[i])
  {
    if ts == [] {
    } else {
      SomeImplyIff(ts[1..]);
      if i :| 0 <= i < |ts[1..]| && CfgImpliesTest(ts[1..][i]) {
        assert CfgImpliesTest(ts[i + 1]);
      }
      if i :| 0 < i < |ts| && CfgImpliesTest(ts[i]) {
        assert CfgImpliesTest(ts[1..][i - 1]);
      }
    }
  }

  lemma {:induction false} EveryImpliesIff(ts: seq<string>)
    ensures EveryImplies(ts) <==> forall i :: 0 <= i < |ts| ==> CfgImpliesTest(ts[i])
  {
    if ts == [] {
    } else {
      EveryImpliesIff(ts[1..]);
      if i :| 0 <= i < |ts[1..]| && !CfgImpliesTest(ts[1..][i]) {
        assert !CfgImpliesTest(ts[i + 1]);
      }
      if i :| 0 < i < |ts| && !CfgImpliesTest(ts[i]) {
        assert !CfgImpliesTest(ts[1..][i - 1]);
      }
    }
  }

  lemma CallDecides(op: string, inside: string)
    requires op in {"all", "any", "not"} && forall c :: c in inside ==> !IsSpace(c)
    ensures var args := CfgArgs(inside);
            CfgImpliesTest(op + "(" + inside + ")") <==>
            if op == "all" then SomeImply(args) else if op == "any" then args != [] && EveryImplies(args) else false
  {
    CallShape(op, inside);
    SomeImplyIff(CfgArgs(inside));
    EveryImpliesIff(CfgArgs(inside));
  }

  lemma CallShape(op: string, inside: string)
    requires op in {"all", "any", "not"} && forall c :: c in inside ==> !IsSpace(c)
    ensures var s := op + "(" + inside + ")";
            && Squeeze(s) == s && s != "test" && |s| >= 5
            && s[3] == '(' && s[|s| - 1] == ')' && s[..3] == op && s[4..|s| - 1] == inside
  {
    var s := op + "(" + inside + ")";
    assert forall c :: c in op ==> !IsSpace(c);
    SqueezeKeeps(s);
    assert s[3] == '(';
  }

  lemma {:induction false} DecidesSome(ps: Preds)
    requires AllWellFormed(ps)
    ensures SomeImply(Texts(ps)) <==> SomeImplied(ps)
    ensures EveryImplies(Texts(ps)) <==> AllImplied(ps)
    decreases ps, 0
  {
    if ps.Nil? {
    } else {
      Decides(ps.head);
      DecidesSome(ps.tail);
      assert Texts(ps)[0] == Print(ps.head) && Texts(ps)[1..] == Texts(ps.tail);
    }
  }

  lemma {:induction false} DecidesCall(op: string, ps: Preds, trailing: bool)
    requires AllWellFormed(ps) && op in {"all", "any"}
    ensures CfgImpliesTest(op + "(" + PrintArgs(ps, trailing) + ")") <==>
            if op == "all" then SomeImplied(ps) else ps.Cons? && AllImplied(ps)
    decreases ps, 1
  {
    PrintArgsChars(ps, trailing);
    ArgsRecovered(ps, trailing);
    CallDecides(op, PrintArgs(ps, trailing));
    DecidesSome(ps);
  }

  /** On printed text the procedure decides the structural condition. */
  lemma {:induction false} Decides(p: Pred)
    requires WellFormed(p)
    ensures CfgImpliesTest(Print(p)) <==> Implied(p)
    decreases p, 0
  {
    match p
    case Atom(t, _) =>
      SqueezeKeeps(t);
      assert |t| >= 5 ==> t[3] in t;
    case All(args, trailing) =>
      assert "all" + "(" == "all(";
      DecidesCall("all", args, trailing);
    case Any(args, trailing) =>
      assert "any" + "(" == "any(";
      DecidesCall("any", args, trailing);
    case Not(a) =>
      assert "not" + "(" == "not(";
      PrintChars(a);
      CallDecides("not", Print(a));
  }

  // ---- soundness, and where the procedure is exact ----

  lemma {:induction false} ImpliedSound(p: Pred, enabled: string -> bool)
    requires WellFormed(p) && Implied(p) && Holds(p, enabled)
    ensures enabled("test")
  {
    match p
    case Atom(t, _) =>
    case All(args, _) => SomeImpliedSound(args, enabled);
    case Any(args, _) => AllImpliedSound(args, enabled);
  }

  lemma {:induction false} SomeImpliedSound(ps: Preds, enabled: string -> bool)
    requires AllWellFormed(ps) && SomeImplied(ps) && AllHold(ps, enabled)
    ensures enabled("test")
  {
    if Implied(ps.head) { ImpliedSound(ps.head, enabled); } else { SomeImpliedSound(ps.tail, enabled); }
  }

  lemma {:induction false} AllImpliedSound(ps: Preds, enabled: string -> bool)
    requires AllWellFormed(ps) && AllImplied(ps) && SomeHolds(ps, enabled)
    ensures enabled("test")
  {
    if Holds(ps.head, enabled) { ImpliedSound(ps.head, enabled); } else { AllImpliedSound(ps.tail, enabled); }
  }

  /** Whatever its layout, a predicate text answered True admits test builds
      only: no configuration that satisfies it leaves `test` unset. */
  lemma CfgSound(text: string, p: Pred, enabled: string -> bool)
    requires WellFormed(p) && Squeeze(text) == Print(p)
    requires CfgImpliesTest(text) && Holds(p, enabled)
    ensures enabled("test")
  {
    SqueezedDecides(text);
    Decides(p);
    ImpliedSound(p, enabled);
  }

  /** No negation, and no `any()` over nothing. */
  predicate Positive(p: Pred) {
    match p
    case Atom(_, _) => true
    case All(args, _) => AllPositive(args)
    case Any(args, _) => args.Cons? && AllPositive(args)
    case Not(_) => false
  }

  predicate AllPositive(ps: Preds) {
    ps.Cons? ==> Positive(ps.head) && AllPositive(ps.tail)
  }

  /** A positive predicate that is not implied is satisfied by the build that
      enables everything but `test`. */
  lemma {:induction false} PositiveWitness(p: Pred)
    requires WellFormed(p) && Positive(p)
    ensures Holds(p, key => key != "test") <==> !Implied(p)
  {
    match p
    case Atom(t, _) =>
    case All(args, _) => PositiveWitnesses(args);
    case Any(args, _) => PositiveWitnesses(args);
  }

  lemma {:induction false} PositiveWitnesses(ps: Preds)
    requires AllWellFormed(ps) && AllPositive(ps)
    ensures AllHold(ps, key => key != "test") <==> !SomeImplied(ps)
    ensures SomeHolds(ps, key => key != "test") <==> !AllImplied(ps)
  {
    if ps.Nil? {
    } else {
      PositiveWitness(ps.head);
      PositiveWitnesses(ps.tail);
    }
  }

  /** On positive predicates the answer is exact. */
  lemma CfgExact(text: string, p: Pred)
    requires WellFormed(p) && Positive(p) && Squeeze(text) == Print(p)
    ensures CfgImpliesTest(text) <==> forall enabled: string -> bool :: Holds(p, enabled) ==> enabled("test")
  {
    SqueezedDecides(text);
    Decides(p);
    if Implied(p) {
      forall enabled: string -> bool | Holds(p, enabled) ensures enabled("test") {
        ImpliedSound(p, enabled);
      }
    } else {
      PositiveWitness(p);
      var production: string -> bool := key => key != "test";
      assert Holds(p, production) && !production("test");
    }
  }
}
