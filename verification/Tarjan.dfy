/** The recursive component search of the module-SCC ratchet: one mutable
    record (numbering, low links, node stack, finished components) shared by
    all recursive visits, proved to return exactly the components of two or
    more nodes. */
module Tarjan {
  import opened Digraph

  /** What the proof tracks of the search: the numbers given, the nodes on the
      stack, and the nodes whose visit is still running. The stack itself is
      always sorted by number, so a set is enough. */
  datatype Search = Search(index: map<string, nat>, on: set<string>, active: set<string>)

  /** Numbered and already popped. */
  ghost function Done(e: Search): set<string> {
    e.index.Keys - e.on
  }

  ghost predicate Numbered(g: Adj, e: Search) {
    && (forall x {:trigger x in Nodes(g)} :: x in e.index ==> x in Nodes(g))
    && (forall x {:trigger x in e.on} :: x in e.on ==> x in e.index)
    && (forall x {:trigger x in e.active} :: x in e.active ==> x in e.on)
    && (forall x {:trigger e.index[x]} :: x in e.index ==> e.index[x] < |e.index|)
  }

  /** Older stack nodes reach newer ones. */
  ghost predicate Chained(g: Adj, e: Search)
    requires Numbered(g, e)
  {
    forall x, y {:trigger Reaches(g, x, y)} ::
      x in e.on && y in e.on && e.index[x] <= e.index[y] ==> Reaches(g, x, y)
  }

  ghost predicate Returns(g: Adj, e: Search, y: string, x: string)
    requires Numbered(g, e) && y in e.on
  {
    x in e.active && e.index[x] <= e.index[y] && Reaches(g, y, x)
  }

  ghost predicate HasAnchor(g: Adj, e: Search, y: string)
    requires Numbered(g, e) && y in e.on
  {
    exists x :: Returns(g, e, y, x)
  }

  /** Every stack node reaches a running visit that is not newer. */
  ghost predicate Anchored(g: Adj, e: Search)
    requires Numbered(g, e)
  {
    forall y {:trigger HasAnchor(g, e, y)} :: y in e.on ==> HasAnchor(g, e, y)
  }

  /** A finished visit has no unnumbered successor. */
  ghost predicate Explored(g: Adj, e: Search) {
    forall x, y {:trigger y in Succ(g, x)} :: x in e.index && x !in e.active && y in Succ(g, x) ==> y in e.index
  }

  ghost predicate Inv(g: Adj, e: Search) {
    && Numbered(g, e)
    && Chained(g, e)
    && Anchored(g, e)
    && Explored(g, e)
    && Closed(g, Done(e))
  }

  /** `cs` holds exactly the components of two or more nodes inside `d`. */
  ghost predicate Collected(g: Adj, d: set<string>, cs: set<set<string>>) {
    forall c {:trigger c in cs} {:trigger IsScc(g, c)} :: c in cs <==> (IsScc(g, c) && c <= d && |c| >= 2)
  }

  // ---- entering, leaving and popping keep the invariant ----

  ghost function Entered(e: Search, n: string): Search {
    Search(e.index[n := |e.index|], e.on + {n}, e.active + {n})
  }

  lemma EnterNumbered(g: Adj, e: Search, n: string)
    requires Numbered(g, e) && n in Nodes(g) && n !in e.index
    ensures Numbered(g, Entered(e, n)) && Done(Entered(e, n)) == Done(e)
    ensures Entered(e, n).index.Keys == e.index.Keys + {n}
  {
    assert e.index[n := |e.index|].Keys == e.index.Keys + {n};
    assert |e.index[n := |e.index|].Keys| == |e.index.Keys| + 1;
  }

  lemma EnterChained(g: Adj, e: Search, n: string)
    requires Numbered(g, e) && Chained(g, e) && Anchored(g, e) && n !in e.index
    requires Numbered(g, Entered(e, n))
    requires forall x :: x in e.active ==> Reaches(g, x, n)
    ensures Chained(g, Entered(e, n))
  {
    ReachesSelf(g, n);
    forall x | x in e.on ensures Reaches(g, x, n) {
      assert HasAnchor(g, e, x);
      var z :| Returns(g, e, x, z);
      ReachesTrans(g, x, z, n);
    }
  }

  lemma EnterKeepsInv(g: Adj, e: Search, n: string)
    requires Inv(g, e) && n in Nodes(g) && n !in e.index
    requires forall x :: x in e.active ==> Reaches(g, x, n)
    ensures Inv(g, Entered(e, n)) && Done(Entered(e, n)) == Done(e)
  {
    var f := Entered(e, n);
    EnterNumbered(g, e, n);
    EnterChained(g, e, n);
    forall y | y in f.on ensures HasAnchor(g, f, y) {
      if y == n {
        ReachesSelf(g, n);
        assert Returns(g, f, n, n);
      } else {
        assert HasAnchor(g, e, y);
        var x :| Returns(g, e, y, x);
        assert Returns(g, f, y, x);
      }
    }
  }

  ghost function Left(e: Search, n: string): Search {
    e.(active := e.active - {n})
  }

  /** Leaving a visit that can still return to an older stack node `w`. */
  lemma LeaveKeepsInv(g: Adj, e: Search, n: string, w: string)
    requires Inv(g, e) && n in e.active && Succ(g, n) <= e.index.Keys
    requires w in e.on && Reaches(g, n, w) && e.index[w] < e.index[n]
    ensures Inv(g, Left(e, n)) && Done(Left(e, n)) == Done(e)
  {
    var f := Left(e, n);
    assert Numbered(g, f) && Done(f) == Done(e);
    assert HasAnchor(g, e, w);
    var z :| Returns(g, e, w, z);
    ReachesTrans(g, n, w, z);
    forall y | y in f.on ensures HasAnchor(g, f, y) {
      assert HasAnchor(g, e, y);
      var x :| Returns(g, e, y, x);
      if x == n {
        ReachesTrans(g, y, n, z);
        assert Returns(g, f, y, z);
      } else {
        assert Returns(g, f, y, x);
      }
    }
  }

  /** The stack nodes numbered `b` or later. */
  ghost function Segment(e: Search, b: nat): set<string> {
    set x | x in e.on && x in e.index && e.index[x] >= b
  }

  ghost function Popped(e: Search, n: string, b: nat): Search {
    Search(e.index, e.on - Segment(e, b), e.active - {n})
  }

  /** `n`, numbered `b`, is the newest running visit, its successors are all
      numbered, and no edge leaves the segment for an older stack node. */
  ghost predicate Poppable(g: Adj, e: Search, n: string, b: nat)
    requires Numbered(g, e)
  {
    && n in e.active && e.index[n] == b
    && (forall x :: x in e.active && x != n ==> e.index[x] < b)
    && Succ(g, n) <= e.index.Keys
    && (forall u, v :: u in Segment(e, b) && v in Succ(g, u) && v in e.on ==> e.index[v] >= b)
  }

  lemma SegmentCloses(g: Adj, e: Search, n: string, b: nat)
    requires Numbered(g, e) && Explored(g, e) && Closed(g, Done(e)) && Poppable(g, e, n, b)
    ensures Closed(g, Done(e) + Segment(e, b))
  {
    var seg, d := Segment(e, b), Done(e);
    forall u | u in d + seg ensures Succ(g, u) <= d + seg {
      if u in seg {
        assert Succ(g, u) <= e.index.Keys;
        forall v | v in Succ(g, u) ensures v in d + seg {
        }
      }
    }
  }

  lemma SegmentIsScc(g: Adj, e: Search, n: string, b: nat)
    requires Inv(g, e) && Poppable(g, e, n, b)
    ensures IsScc(g, Segment(e, b))
  {
    var seg, d := Segment(e, b), Done(e);
    SegmentCloses(g, e, n, b);
    forall y | y in seg ensures Mutual(g, n, y) {
      assert Reaches(g, n, y);
      assert HasAnchor(g, e, y);
      var x :| Returns(g, e, y, x);
      ClosedReach(g, d + seg, y, x);
    }
    forall u, v | u in seg ensures v in seg <==> Mutual(g, u, v) {
      if v in seg {
        ReachesTrans(g, u, n, v);
        ReachesTrans(g, v, n, u);
      } else if Mutual(g, u, v) {
        ClosedReach(g, d + seg, u, v);
        ClosedReach(g, d, v, u);
        assert false;
      }
    }
    assert n in seg;
  }

  lemma PopKeepsInv(g: Adj, e: Search, n: string, b: nat)
    requires Inv(g, e) && Poppable(g, e, n, b)
    ensures Inv(g, Popped(e, n, b)) && Done(Popped(e, n, b)) == Done(e) + Segment(e, b)
  {
    var f := Popped(e, n, b);
    SegmentCloses(g, e, n, b);
    assert Done(f) == Done(e) + Segment(e, b);
    assert Numbered(g, f);
    forall y | y in f.on ensures HasAnchor(g, f, y) {
      assert HasAnchor(g, e, y);
      var x :| Returns(g, e, y, x);
      assert Returns(g, f, y, x);
    }
  }

  lemma SccSplits(g: Adj, d: set<string>, seg: set<string>, c: set<string>)
    requires IsScc(g, seg) && IsScc(g, c) && c <= d + seg
    ensures c <= d || c == seg
  {
    if !(c <= d) {
      var u :| u in c && u !in d;
      SccsAgree(g, c, seg, u);
    }
  }

  /** Popping a component adds it, and nothing else, to what is collected. */
  lemma CollectSegment(g: Adj, d: set<string>, seg: set<string>, cs: set<set<string>>)
    requires Collected(g, d, cs) && IsScc(g, seg)
    ensures Collected(g, d + seg, if |seg| >= 2 then cs + {seg} else cs)
  {
    var cs' := if |seg| >= 2 then cs + {seg} else cs;
    forall c ensures c in cs' <==> (IsScc(g, c) && c <= d + seg && |c| >= 2) {
      if IsScc(g, c) && c <= d + seg {
        SccSplits(g, d, seg, c);
      }
    }
  }

  // ---- what one visit promises, and what its successor loop maintains ----

  function Min(a: nat, b: nat): nat {
    if b < a then b else a
  }

  /** From `e` to `f` numbers persist and whatever joined the stack is newer. */
  ghost predicate Extends(e: Search, f: Search) {
    && (forall x :: x in e.index ==> x in f.index && f.index[x] == e.index[x])
    && e.on <= f.on
    && (forall x :: x in f.on && x !in e.on ==> x in f.index && f.index[x] >= |e.index|)
  }

  lemma ExtendsTrans(e: Search, f: Search, h: Search)
    requires Extends(e, f) && Extends(f, h) && |e.index| <= |f.index|
    ensures Extends(e, h)
  {
  }

  /** `low` bounds every edge from a node numbered `b` or later into `lower`. */
  ghost predicate CrossBound(g: Adj, f: Search, lower: set<string>, b: nat, low: nat) {
    forall u, v :: u in Segment(f, b) && v in Succ(g, u) && v in lower && v in f.index ==> low <= f.index[v]
  }

  ghost predicate LowReaches(g: Adj, f: Search, n: string, low: nat, w: string) {
    w in f.on && w in f.index && f.index[w] == low && Reaches(g, n, w)
  }

  /** After a visit of `n` begun in `e` and ended in `f` with low link `low`:
      either `n`'s component was popped, or `n` reaches an old stack node with
      that number; and no edge of the new stack part lands below `low`. */
  ghost predicate Visited(g: Adj, e: Search, f: Search, n: string, low: nat) {
    && Extends(e, f) && f.active == e.active && n in f.index && |e.index| <= |f.index|
    && (low >= |e.index| || exists w :: LowReaches(g, f, n, low, w))
    && CrossBound(g, f, e.on, |e.index|, low)
  }

  ghost predicate SeenBound(g: Adj, e: Search, f: Search, n: string, todo: set<string>, low: nat) {
    forall v :: v in Succ(g, n) && v !in todo ==> v in f.index && (v in e.on ==> low <= f.index[v])
  }

  /** The successor loop of the visit of `n` begun in `e`, now in `f`, with the
      successors in `todo` still to come. */
  ghost predicate Looping(g: Adj, e: Search, f: Search, n: string, todo: set<string>, low: nat) {
    && Extends(e, f) && f.active == e.active + {n} && n in f.on && |e.index| < |f.index|
    && n in f.index && low <= f.index[n] == |e.index|
    && (exists w :: LowReaches(g, f, n, low, w))
    && (forall x :: x in f.on && x in f.index && f.index[x] == |e.index| ==> x == n)
    && CrossBound(g, f, e.on, |e.index| + 1, low)
    && SeenBound(g, e, f, n, todo, low)
  }

  lemma LoopStarts(g: Adj, e: Search, n: string)
    requires Numbered(g, e) && n in Nodes(g) && n !in e.index
    ensures Looping(g, e, Entered(e, n), n, Succ(g, n), |e.index|)
  {
    ReachesSelf(g, n);
    EnterNumbered(g, e, n);
    assert |Entered(e, n).index.Keys| == |e.index.Keys| + 1;
    assert LowReaches(g, Entered(e, n), n, |e.index|, n);
  }

  /** A successor that already has a number: it counts only if on the stack. */
  lemma LoopMeets(g: Adj, e: Search, f: Search, n: string, todo: set<string>, low: nat, s: string)
    requires Looping(g, e, f, n, todo, low) && s in Succ(g, n) && s in f.index
    ensures s in f.on ==> Looping(g, e, f, n, todo - {s}, Min(low, f.index[s]))
    ensures s !in f.on ==> Looping(g, e, f, n, todo - {s}, low)
  {
    if s in f.on && f.index[s] < low {
      ReachesEdge(g, n, s);
      assert LowReaches(g, f, n, Min(low, f.index[s]), s);
    } else {
      var w :| LowReaches(g, f, n, low, w);
      assert s in f.on ==> LowReaches(g, f, n, Min(low, f.index[s]), w);
    }
  }

  lemma VisitedLow(g: Adj, f: Search, h: Search, n: string, low: nat, s: string, lowS: nat)
    requires Extends(f, h) && s in Succ(g, n)
    requires exists w :: LowReaches(g, f, n, low, w)
    requires lowS < low ==> exists w :: LowReaches(g, h, s, lowS, w)
    ensures exists w :: LowReaches(g, h, n, Min(low, lowS), w)
  {
    if lowS < low {
      var z :| LowReaches(g, h, s, lowS, z);
      ReachesEdge(g, n, s);
      ReachesTrans(g, n, s, z);
      assert LowReaches(g, h, n, Min(low, lowS), z);
    } else {
      var w :| LowReaches(g, f, n, low, w);
      assert LowReaches(g, h, n, Min(low, lowS), w);
    }
  }

  lemma VisitedCross(g: Adj, f: Search, h: Search, lower: set<string>, b: nat, low: nat, lowS: nat)
    requires Numbered(g, f) && Extends(f, h) && lower <= f.on
    requires CrossBound(g, f, lower, b, low) && CrossBound(g, h, f.on, |f.index|, lowS)
    ensures CrossBound(g, h, lower, b, Min(low, lowS))
  {
    forall u, v | u in Segment(h, b) && v in Succ(g, u) && v in lower && v in h.index
      ensures Min(low, lowS) <= h.index[v]
    {
      if u in f.on {
        assert u in Segment(f, b);
      } else {
        assert u in Segment(h, |f.index|);
      }
    }
  }

  /** A successor just visited from `f` to `h`. */
  lemma LoopVisits(g: Adj, e: Search, f: Search, h: Search, n: string, todo: set<string>, low: nat,
                   s: string, lowS: nat)
    requires Numbered(g, f)
    requires Looping(g, e, f, n, todo, low) && s in Succ(g, n)
    requires Visited(g, f, h, s, lowS) && s !in f.index && e.on <= e.index.Keys
    ensures Looping(g, e, h, n, todo - {s}, Min(low, lowS))
  {
    ExtendsTrans(e, f, h);
    VisitedLow(g, f, h, n, low, s, lowS);
    VisitedCross(g, f, h, e.on, |e.index| + 1, low, lowS);
  }

  /** The loop over, every edge into the old stack is bounded by `low`. */
  lemma LoopEnds(g: Adj, e: Search, f: Search, n: string, low: nat)
    requires Numbered(g, e) && n !in e.index && Looping(g, e, f, n, {}, low)
    ensures Succ(g, n) <= f.index.Keys && f.active - {n} == e.active
    ensures CrossBound(g, f, e.on, |e.index|, low)
  {
  }

  /** Leaving without popping. */
  lemma LoopLeaves(g: Adj, e: Search, f: Search, n: string, low: nat)
    requires Numbered(g, e) && n !in e.index && Looping(g, e, f, n, {}, low) && low < f.index[n]
    ensures Visited(g, e, Left(f, n), n, low)
  {
    LoopEnds(g, e, f, n, low);
    var w :| LowReaches(g, f, n, low, w);
    assert LowReaches(g, Left(f, n), n, low, w);
    assert Segment(Left(f, n), |e.index|) == Segment(f, |e.index|);
  }

  lemma LoopLeavesInv(g: Adj, e: Search, f: Search, n: string, low: nat)
    requires Numbered(g, e) && n !in e.index && Inv(g, f)
    requires Looping(g, e, f, n, {}, low) && low < f.index[n]
    ensures Inv(g, Left(f, n)) && Done(Left(f, n)) == Done(f)
  {
    LoopEnds(g, e, f, n, low);
    var w :| LowReaches(g, f, n, low, w);
    LeaveKeepsInv(g, f, n, w);
  }

  /** Popping: a low link equal to the own number leaves no edge downwards. */
  lemma LoopPops(g: Adj, e: Search, f: Search, n: string)
    requires Numbered(g, e) && n !in e.index && Numbered(g, f)
    requires Looping(g, e, f, n, {}, |e.index|)
    ensures Poppable(g, f, n, |e.index|)
    ensures Popped(f, n, |e.index|).on == e.on
    ensures Visited(g, e, Popped(f, n, |e.index|), n, |e.index|)
  {
    LoopEnds(g, e, f, n, |e.index|);
    assert Popped(f, n, |e.index|).on == e.on;
    assert Segment(Popped(f, n, |e.index|), |e.index|) == {};
  }

  // ---- the search itself ----

  /** The node stack lists `on`, oldest number first. */
  ghost predicate Stacked(stack: seq<string>, index: map<string, nat>, on: set<string>) {
    && (set x | x in stack) == on
    && (forall i :: 0 <= i < |stack| ==> stack[i] in index)
    && (forall i, j :: 0 <= i < j < |stack| ==> index[stack[i]] < index[stack[j]])
  }

  lemma PushStacked(stack: seq<string>, index: map<string, nat>, on: set<string>, n: string)
    requires Stacked(stack, index, on) && n !in index && forall x :: x in index ==> index[x] < |index|
    ensures Stacked(stack + [n], index[n := |index|], on + {n})
  {
  }

  lemma PopStacked(stack: seq<string>, index: map<string, nat>, on: set<string>)
    requires Stacked(stack, index, on) && stack != []
    ensures Stacked(stack[..|stack| - 1], index, on - {stack[|stack| - 1]})
    ensures forall x :: x in on ==> x in index && index[x] <= index[stack[|stack| - 1]]
  {
    var k := |stack| - 1;
    assert stack == stack[..k] + [stack[k]];
  }

  /** The five collections that all visits share. */
  datatype Record = Record(index: map<string, nat>, lowlink: map<string, nat>, stack: seq<string>,
                           onStack: set<string>, components: set<set<string>>)

  /** The record, with the running visits and the visits made so far, is
      consistent. */
  ghost predicate Sound(g: Adj, r: Record, active: set<string>, visits: multiset<string>) {
    var e := At(r, active);
    && Inv(g, e)
    && Stacked(r.stack, r.index, r.onStack)
    && r.lowlink.Keys == r.index.Keys
    && Collected(g, Done(e), r.components)
    && visits == multiset(r.index.Keys)
  }

  ghost function At(r: Record, active: set<string>): Search {
    Search(r.index, r.onStack, active)
  }

  function Pushed(r: Record, n: string): Record {
    r.(index := r.index[n := |r.index|], lowlink := r.lowlink[n := |r.index|],
       stack := r.stack + [n], onStack := r.onStack + {n})
  }

  lemma EnterKeys(index: map<string, nat>, lowlink: map<string, nat>, n: string)
    requires lowlink.Keys == index.Keys && n !in index
    ensures lowlink[n := |index|].Keys == index[n := |index|].Keys
    ensures multiset(index[n := |index|].Keys) == multiset(index.Keys) + multiset{n}
  {
    assert index[n := |index|].Keys == index.Keys + {n};
    assert lowlink[n := |index|].Keys == index.Keys + {n};
  }

  lemma EnterSound(g: Adj, r: Record, active: set<string>, visits: multiset<string>, n: string)
    requires Sound(g, r, active, visits) && n in Nodes(g) && n !in r.index
    requires forall x :: x in active ==> Reaches(g, x, n)
    ensures Sound(g, Pushed(r, n), active + {n}, visits + multiset{n})
    ensures Looping(g, At(r, active), At(Pushed(r, n), active + {n}),
                    n, Succ(g, n), |r.index|)
  {
    var e := At(r, active);
    EnterNumbered(g, e, n);
    EnterKeepsInv(g, e, n);
    PushStacked(r.stack, r.index, r.onStack, n);
    LoopStarts(g, e, n);
    EnterKeys(r.index, r.lowlink, n);
  }

  lemma LeaveSound(g: Adj, e: Search, r: Record, active: set<string>, visits: multiset<string>, n: string, low: nat)
    requires Sound(g, r, active, visits) && Numbered(g, e) && n !in e.index
    requires Looping(g, e, At(r, active), n, {}, low) && low < r.index[n]
    ensures Sound(g, r, active - {n}, visits)
    ensures Visited(g, e, At(r, active - {n}), n, low)
  {
    var f := At(r, active);
    LoopLeaves(g, e, f, n, low);
    LoopLeavesInv(g, e, f, n, low);
  }

  lemma PopSound(g: Adj, e: Search, r: Record, r': Record, active: set<string>, visits: multiset<string>, n: string)
    requires Sound(g, r, active, visits) && Numbered(g, e) && n !in e.index
    requires Looping(g, e, At(r, active), n, {}, |e.index|)
    requires r'.index == r.index && r'.lowlink == r.lowlink && Stacked(r'.stack, r'.index, r'.onStack)
    requires var seg := Segment(At(r, active), |e.index|);
             && r'.onStack == r.onStack - seg
             && r'.components == if |seg| >= 2 then r.components + {seg} else r.components
    ensures Sound(g, r', active - {n}, visits)
    ensures Visited(g, e, At(r', active - {n}), n, |e.index|)
  {
    var f := At(r, active);
    LoopPops(g, e, f, n);
    SegmentIsScc(g, f, n, |e.index|);
    PopKeepsInv(g, f, n, |e.index|);
    CollectSegment(g, Done(f), Segment(f, |e.index|), r.components);
  }

  function Lowered(r: Record, n: string, v: nat): Record
    requires n in r.lowlink
  {
    r.(lowlink := r.lowlink[n := Min(r.lowlink[n], v)])
  }

  lemma LowerSound(g: Adj, r: Record, active: set<string>, visits: multiset<string>, n: string, v: nat)
    requires Sound(g, r, active, visits) && n in r.lowlink
    ensures Sound(g, Lowered(r, n, v), active, visits)
  {
    assert Lowered(r, n, v).lowlink.Keys == r.lowlink.Keys;
  }

  /** Low links of the nodes numbered in `e` are the same in both records. */
  ghost predicate LowKept(e: Search, r: Record, r': Record) {
    forall x {:trigger r'.lowlink[x]} ::
      x in e.index && x in r.lowlink ==> x in r'.lowlink && r'.lowlink[x] == r.lowlink[x]
  }

  lemma FollowVisited(g: Adj, e: Search, r: Record, r': Record, active: set<string>, visits: multiset<string>,
                      n: string, todo: set<string>, s: string)
    requires Numbered(g, e) && Numbered(g, At(r, active)) && Sound(g, r', active, visits)
    requires r.lowlink.Keys == r.index.Keys && n in r.lowlink && s in r'.lowlink
    requires Looping(g, e, At(r, active), n, todo, r.lowlink[n]) && s in Succ(g, n) && s !in r.index
    requires Visited(g, At(r, active), At(r', active), s, r'.lowlink[s])
    requires LowKept(At(r, active), r, r')
    ensures n in r'.lowlink && Sound(g, Lowered(r', n, r'.lowlink[s]), active, visits)
    ensures Looping(g, e, At(Lowered(r', n, r'.lowlink[s]), active), n, todo - {s},
                    Lowered(r', n, r'.lowlink[s]).lowlink[n])
    ensures LowKept(e, r, Lowered(r', n, r'.lowlink[s]))
  {
    LoopVisits(g, e, At(r, active), At(r', active), n, todo, r.lowlink[n], s, r'.lowlink[s]);
    LowerSound(g, r', active, visits, n, r'.lowlink[s]);
    assert n !in e.index;
  }

  lemma FollowMet(g: Adj, e: Search, r: Record, active: set<string>, visits: multiset<string>,
                  n: string, todo: set<string>, s: string)
    requires Numbered(g, e) && Sound(g, r, active, visits) && n in r.lowlink
    requires Looping(g, e, At(r, active), n, todo, r.lowlink[n]) && s in Succ(g, n) && s in r.index
    ensures s !in r.onStack ==> Looping(g, e, At(r, active), n, todo - {s}, r.lowlink[n])
    ensures s in r.onStack ==>
              var r' := Lowered(r, n, r.index[s]);
              && Sound(g, r', active, visits) && LowKept(e, r, r')
              && Looping(g, e, At(r', active), n, todo - {s}, r'.lowlink[n])
  {
    LoopMeets(g, e, At(r, active), n, todo, r.lowlink[n], s);
    LowerSound(g, r, active, visits, n, r.index[s]);
    assert n !in e.index;
  }

  /** Every running visit reaches each successor of the newest one. */
  lemma ActiveReach(g: Adj, e: Search, f: Search, n: string, todo: set<string>, low: nat, s: string)
    requires Numbered(g, e) && Inv(g, f) && Looping(g, e, f, n, todo, low) && s in Succ(g, n)
    ensures forall x :: x in f.active ==> Reaches(g, x, s)
    ensures s in Nodes(g)
  {
    assert n in g && s in g[n];
    ReachesEdge(g, n, s);
    forall x | x in f.active ensures Reaches(g, x, s) {
      assert x in e.active || x == n;
      assert Reaches(g, x, n);
      ReachesTrans(g, x, n, s);
    }
  }

  class Finder {
    const g: Adj
    var r: Record
    ghost var active: set<string>
    ghost var visits: multiset<string>

    ghost predicate Valid()
      reads this
    {
      Sound(g, r, active, visits)
    }

    constructor (g: Adj)
      ensures this.g == g && Valid() && r.index == map[] && active == {} && r.onStack == {}
    {
      this.g := g;
      r := Record(map[], map[], [], {}, {});
      active, visits := {}, multiset{};
      new;
      assert Done(At(r, active)) == {};
      assert forall c :: IsScc(g, c) && c <= {} ==> c == {};
    }

    /** Replace the record, the running visits and the visits made. */
    method Replace(r': Record, ghost active': set<string>, ghost visits': multiset<string>)
      requires Sound(g, r', active', visits')
      modifies this
      ensures r == r' && active == active' && visits == visits' && Valid()
    {
      r, active, visits := r', active', visits';
    }

    /** Number `node` and push it. */
    method Enter(node: string)
      requires Valid() && node in Nodes(g) && node !in r.index
      requires forall x :: x in active ==> Reaches(g, x, node)
      modifies this
      ensures Valid() && r == Pushed(old(r), node)
      ensures Looping(g, At(old(r), old(active)), At(r, active), node, Succ(g, node), |old(r.index)|)
    {
      EnterSound(g, r, active, visits, node);
      Replace(Pushed(r, node), active + {node}, visits + multiset{node});
    }

    /** Visit one unnumbered node that every running visit reaches. */
    method Visit(node: string)
      requires Valid() && node in Nodes(g) && node !in r.index
      requires forall x :: x in active ==> Reaches(g, x, node)
      modifies this
      ensures Valid() && node in r.lowlink
      ensures Visited(g, At(old(r), old(active)), At(r, active), node, r.lowlink[node])
      ensures LowKept(At(old(r), old(active)), old(r), r)
      decreases Nodes(g) - r.index.Keys, 2
    {
      ghost var e := At(r, active);
      Enter(node);
      FollowAll(node, e);
      Finish(node, e);
    }

    /** The successor loop of the visit of `node` begun in `e`. */
    method FollowAll(node: string, ghost e: Search)
      requires Valid() && Numbered(g, e) && node in Nodes(g) && node !in e.index && node in r.lowlink
      requires Looping(g, e, At(r, active), node, Succ(g, node), r.lowlink[node])
      modifies this
      ensures Valid() && node in r.lowlink
      ensures Looping(g, e, At(r, active), node, {}, r.lowlink[node]) && LowKept(e, old(r), r)
      decreases Nodes(g) - e.index.Keys, 1
    {
      var todo := Succ(g, node);
      while todo != {}
        invariant Valid() && node in r.lowlink && todo <= Succ(g, node)
        invariant Looping(g, e, At(r, active), node, todo, r.lowlink[node])
        invariant LowKept(e, old(r), r)
        decreases todo
      {
        var successor :| successor in todo;
        Follow(node, successor, e, todo);
        todo := todo - {successor};
      }
    }

    /** One round of the successor loop of the visit of `node` begun in `e`. */
    method Follow(node: string, successor: string, ghost e: Search, ghost todo: set<string>)
      requires Valid() && Numbered(g, e) && node in r.lowlink && successor in Succ(g, node)
      requires Looping(g, e, At(r, active), node, todo, r.lowlink[node])
      modifies this
      ensures Valid() && node in r.lowlink
      ensures Looping(g, e, At(r, active), node, todo - {successor}, r.lowlink[node])
      ensures LowKept(e, old(r), r)
      decreases Nodes(g) - r.index.Keys, 4
    {
      if successor !in r.index {
        Descend(node, successor, e, todo);
      } else {
        Meet(node, successor, e, todo);
      }
    }

    /** The round for a successor that already has a number. */
    method Meet(node: string, successor: string, ghost e: Search, ghost todo: set<string>)
      requires Valid() && Numbered(g, e) && node in r.lowlink && successor in Succ(g, node) && successor in r.index
      requires Looping(g, e, At(r, active), node, todo, r.lowlink[node])
      modifies this
      ensures Valid() && node in r.lowlink
      ensures Looping(g, e, At(r, active), node, todo - {successor}, r.lowlink[node])
      ensures LowKept(e, old(r), r)
    {
      FollowMet(g, e, r, active, visits, node, todo, successor);
      if successor in r.onStack {
        Replace(Lowered(r, node, r.index[successor]), active, visits);
      }
    }

    /** The round for a successor that has no number yet. */
    method Descend(node: string, successor: string, ghost e: Search, ghost todo: set<string>)
      requires Valid() && Numbered(g, e) && node in r.lowlink && successor in Succ(g, node) && successor !in r.index
      requires Looping(g, e, At(r, active), node, todo, r.lowlink[node])
      modifies this
      ensures Valid() && node in r.lowlink
      ensures Looping(g, e, At(r, active), node, todo - {successor}, r.lowlink[node])
      ensures LowKept(e, old(r), r)
      decreases Nodes(g) - r.index.Keys, 3
    {
      ActiveReach(g, e, At(r, active), node, todo, r.lowlink[node], successor);
      Visit(successor);
      FollowVisited(g, e, old(r), r, active, visits, node, todo, successor);
      Replace(Lowered(r, node, r.lowlink[successor]), active, visits);
    }

    /** Pop `node`'s component if `node` is its oldest node. */
    method Finish(node: string, ghost e: Search)
      requires Valid() && Numbered(g, e) && node !in e.index && node in r.lowlink
      requires Looping(g, e, At(r, active), node, {}, r.lowlink[node])
      modifies this
      ensures Valid() && r.lowlink == old(r.lowlink)
      ensures Visited(g, e, At(r, active), node, r.lowlink[node])
    {
      if r.lowlink[node] == r.index[node] {
        Pop(node, e);
      } else {
        LeaveSound(g, e, r, active, visits, node, r.lowlink[node]);
        Replace(r, active - {node}, visits);
      }
    }

    /** Pop `node`'s component, and keep it if it has two or more nodes. */
    method Pop(node: string, ghost e: Search)
      requires Valid() && Numbered(g, e) && node !in e.index && node in r.lowlink
      requires Looping(g, e, At(r, active), node, {}, r.lowlink[node]) && r.lowlink[node] == r.index[node]
      modifies this
      ensures Valid() && r.lowlink == old(r.lowlink)
      ensures Visited(g, e, At(r, active), node, r.lowlink[node])
    {
      ghost var before := r;
      var component := PopThrough(node);
      var after := if |component| >= 2 then r.(components := r.components + {component}) else r;
      PopSound(g, e, before, after, active, visits, node);
      Replace(after, active - {node}, visits);
    }

    /** Pop the stack down to and including `node`. */
    method PopThrough(node: string) returns (component: set<string>)
      requires Stacked(r.stack, r.index, r.onStack) && node in r.onStack
      modifies this`r
      ensures r == old(r).(stack := r.stack, onStack := old(r.onStack) - component)
      ensures Stacked(r.stack, r.index, r.onStack)
      ensures node in r.index && component == Segment(At(old(r), old(active)), r.index[node])
    {
      component := {};
      assert node in r.stack;
      while true
        invariant r == old(r).(stack := r.stack, onStack := old(r.onStack) - component)
        invariant Stacked(r.stack, r.index, r.onStack)
        invariant component <= old(r.onStack)
        invariant node in r.onStack
        invariant forall x :: x in component ==> x in r.index && r.index[x] > r.index[node]
        decreases |r.stack|
      {
        assert node in r.stack && r.stack[|r.stack| - 1] in r.stack;
        PopStacked(r.stack, r.index, r.onStack);
        var popped := r.stack[|r.stack| - 1];
        assert popped in r.onStack && r.onStack <= old(r.onStack);
        r := r.(stack := r.stack[..|r.stack| - 1], onStack := r.onStack - {popped});
        component := component + {popped};
        if popped == node {
          break;
        }
      }
    }
  }

  /** With no visit running the stack is empty. */
  lemma Quiet(g: Adj, e: Search)
    requires Inv(g, e) && e.active == {}
    ensures e.on == {}
  {
    assert forall y :: y in e.on ==> HasAnchor(g, e, y);
  }

  lemma AllCollected(g: Adj, e: Search, cs: set<set<string>>)
    requires Inv(g, e) && e.active == {} && g.Keys <= e.index.Keys && Collected(g, Done(e), cs)
    ensures cs == Sccs(g) && e.index.Keys == Nodes(g)
  {
    Quiet(g, e);
    forall x | x in Nodes(g) ensures x in e.index {
      if x !in g {
        var u, v :| u in g && v in g[u] && v == x;
        assert x in Succ(g, u);
      }
    }
    forall x | x in e.index ensures x in Nodes(g) {
    }
    forall c ensures c in cs <==> c in Sccs(g) {
      assert c in cs <==> (IsScc(g, c) && c <= Done(e) && |c| >= 2);
    }
  }

  /** The components of two or more nodes, each node visited once, whatever the
      order in which nodes and successors are taken. */
  method TarjanSccs(g: Adj) returns (sccs: set<set<string>>, ghost visits: multiset<string>)
    ensures sccs == Sccs(g)
    ensures visits == multiset(Nodes(g))
  {
    var finder := new Finder(g);
    var todo := g.Keys;
    while todo != {}
      invariant finder.Valid() && finder.g == g && finder.active == {}
      invariant todo <= g.Keys && forall x :: x in g && x !in todo ==> x in finder.r.index
      decreases todo
    {
      var node :| node in todo;
      todo := todo - {node};
      if node !in finder.r.index {
        finder.Visit(node);
      }
    }
    AllCollected(g, At(finder.r, finder.active), finder.r.components);
    sccs, visits := finder.r.components, finder.visits;
  }
}
