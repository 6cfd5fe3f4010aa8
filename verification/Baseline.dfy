/** The committed baseline document: how it is validated when loaded, and that
    whatever the print command writes loads back and checks clean. */
module Baseline {
  import opened Digraph
  import opened Outcomes
  import opened Ratchet
  import opened Sequences
  import opened Text

  datatype Json =
    | JNull
    | JBool(b: bool)
    | JInt(n: int)
    | JStr(s: string)
    | JList(items: seq<Json>)
    | JObj(fields: map<string, Json>)

  datatype Table = Table(excluded: map<string, string>, crates: map<string, set<set<string>>>)

  const SCHEMA := 1

  /** Counting the distinct elements of a list tells whether it repeats one. */
  lemma {:induction false} DistinctIffCard<T>(xs: seq<T>)
    ensures |set x | x in xs| <= |xs|
    ensures |set x | x in xs| == |xs| <==> Distinct(xs)
  {
    if xs == [] {
    } else {
      var k := |xs| - 1;
      var head := xs[..k];
      DistinctIffCard(head);
      assert xs == head + [xs[k]];
      assert (set x | x in xs) == (set x | x in head) + {xs[k]};
      if xs[k] in head {
        var i :| 0 <= i < k && head[i] == xs[k];
        assert (set x | x in xs) == (set x | x in head);
        assert xs[i] == xs[k];
      } else {
        assert Distinct(xs) <==> Distinct(head);
      }
    }
  }

  predicate IsRow(row: Json) {
    row.JList? && (forall x :: x in row.items ==> x.JStr?) && |row.items| >= 2 && Distinct(row.items)
  }

  function Names(row: Json): set<string>
    requires row.JList?
  {
    set x | x in row.items && x.JStr? :: x.s
  }

  ghost predicate RowsListed(rows: seq<Json>) {
    && (forall i :: 0 <= i < |rows| ==> IsRow(rows[i]))
    && (forall i, j :: 0 <= i < j < |rows| ==> Names(rows[i]) !! Names(rows[j]))
  }

  ghost function RowSets(rows: seq<Json>): set<set<string>>
    requires RowsListed(rows)
  {
    set i | 0 <= i < |rows| :: Names(rows[i])
  }

  ghost predicate AcceptsRows(rows: Json) {
    rows.JList? && RowsListed(rows.items)
  }

  /** Whether `names` meets none of the rows read so far. */
  method Disjoint(earlier: seq<set<string>>, names: set<string>) returns (ok: bool)
    ensures ok <==> forall i :: 0 <= i < |earlier| ==> earlier[i] !! names
  {
    for k := 0 to |earlier|
      invariant forall i :: 0 <= i < k ==> earlier[i] !! names
    {
      if !(earlier[k] !! names) {
        return false;
      }
    }
    return true;
  }

  /** One crate's rows: accepted exactly when they are pairwise disjoint lists
      of two or more distinct module names. */
  method BaselineRow(rows: Json) returns (r: Result<set<set<string>>>)
    ensures r.Ok? <==> AcceptsRows(rows)
    ensures r.Ok? ==> r.value == RowSets(rows.items)
  {
    if !rows.JList? {
      return Err;
    }
    var sccs: seq<set<string>> := [];
    for k := 0 to |rows.items|
      invariant |sccs| == k && RowsListed(rows.items[..k])
      invariant forall i :: 0 <= i < k ==> sccs[i] == Names(rows.items[i])
    {
      var row := rows.items[k];
      if !row.JList? || exists x :: x in row.items && !x.JStr? {
        return Err;
      }
      DistinctIffCard(row.items);
      if |row.items| < 2 || |set x | x in row.items| != |row.items| {
        return Err;
      }
      var separate := Disjoint(sccs, Names(row));
      if !separate {
        return Err;
      }
      sccs := sccs + [Names(row)];
      assert rows.items[..k + 1] == rows.items[..k] + [row];
    }
    assert rows.items[..|rows.items|] == rows.items;
    r := Ok(set s | s in sccs);
    assert forall i :: 0 <= i < |sccs| ==> sccs[i] in sccs;
  }

  ghost predicate AcceptsExcluded(j: Json) {
    j.JObj? && forall p :: p in j.fields ==> j.fields[p].JStr? && j.fields[p].s != ""
  }

  ghost predicate Accepts(document: Json) {
    && document.JObj?
    && "schema" in document.fields && document.fields["schema"] == JInt(SCHEMA)
    && "excluded" in document.fields && AcceptsExcluded(document.fields["excluded"])
    && "crates" in document.fields && document.fields["crates"].JObj?
    && AcceptsCrates(document.fields["crates"].fields)
  }

  ghost predicate AcceptsCrates(crates: map<string, Json>) {
    forall c :: c in crates ==> AcceptsRows(crates[c])
  }

  ghost function CrateRows(crates: map<string, Json>): map<string, set<set<string>>>
    requires AcceptsCrates(crates)
  {
    map c | c in crates :: RowSets(crates[c].items)
  }

  ghost function Loaded(document: Json): Table
    requires Accepts(document)
  {
    var excluded := document.fields["excluded"].fields;
    Table(map p | p in excluded :: excluded[p].s, CrateRows(document.fields["crates"].fields))
  }

  /** Whatever loads has, for every crate, disjoint rows of two or more, and a
      reason for every exclusion. */
  lemma LoadedRows(document: Json)
    requires Accepts(document)
    ensures forall c :: c in Loaded(document).crates ==> Rows(Loaded(document).crates[c])
    ensures forall p :: p in Loaded(document).excluded ==> Loaded(document).excluded[p] != ""
  {
    forall c | c in Loaded(document).crates ensures Rows(Loaded(document).crates[c]) {
      RowSetsAreRows(document.fields["crates"].fields[c].items);
    }
  }

  lemma RowSetsAreRows(rows: seq<Json>)
    requires RowsListed(rows)
    ensures Rows(RowSets(rows))
  {
    forall r | r in RowSets(rows) ensures |r| >= 2 {
      var i :| 0 <= i < |rows| && r == Names(rows[i]);
      var items := rows[i].items;
      assert items[0] in items && items[1] in items;
      assert {items[0].s, items[1].s} <= r;
      assert |{items[0].s, items[1].s}| == 2;
      Subset({items[0].s, items[1].s}, r);
    }
  }

  lemma Subset(a: set<string>, b: set<string>)
    requires a <= b
    ensures |a| <= |b|
  {
    assert b == a + (b - a);
  }

  /** The document reader. */
  method LoadBaseline(document: Json) returns (r: Result<Table>)
    ensures r.Ok? <==> Accepts(document)
    ensures r.Ok? ==> r.value == Loaded(document)
  {
    if !document.JObj? || "schema" !in document.fields || document.fields["schema"] != JInt(SCHEMA) {
      return Err;
    }
    if "excluded" !in document.fields || !document.fields["excluded"].JObj? {
      return Err;
    }
    var excluded := document.fields["excluded"].fields;
    if exists p :: p in excluded && !(excluded[p].JStr? && excluded[p].s != "") {
      return Err;
    }
    if "crates" !in document.fields || !document.fields["crates"].JObj? {
      return Err;
    }
    var rows := document.fields["crates"].fields;
    var crates: map<string, set<set<string>>> := map[];
    var todo := rows.Keys;
    while todo != {}
      invariant todo <= rows.Keys && crates.Keys == rows.Keys - todo
      invariant forall c :: c in crates ==> AcceptsRows(rows[c]) && crates[c] == RowSets(rows[c].items)
      decreases todo
    {
      var c :| c in todo;
      var row := BaselineRow(rows[c]);
      if row.Err? {
        return Err;
      }
      crates := crates[c := row.value];
      todo := todo - {c};
    }
    r := Ok(Table(map p | p in excluded :: excluded[p].s, crates));
  }

  // ---- print, then load, then check ----

  /** Lists compare by their first difference. */
  predicate RowLeq(a: seq<string>, b: seq<string>) {
    a == [] || (b != [] && if a[0] == b[0] then RowLeq(a[1..], b[1..]) else Leq(a[0], b[0]))
  }

  lemma {:induction false} RowLeqTotal(a: seq<string>, b: seq<string>)
    ensures RowLeq(a, b) || RowLeq(b, a)
    ensures RowLeq(a, b) && RowLeq(b, a) ==> a == b
  {
    if a == [] || b == [] {
    } else if a[0] == b[0] {
      RowLeqTotal(a[1..], b[1..]);
      assert a == [a[0]] + a[1..] && b == [b[0]] + b[1..];
    } else {
      LeqTotal(a[0], b[0]);
    }
  }

  lemma {:induction false} RowLeqTrans(a: seq<string>, b: seq<string>, c: seq<string>)
    requires RowLeq(a, b) && RowLeq(b, c)
    ensures RowLeq(a, c)
  {
    if a == [] {
    } else if a[0] == b[0] == c[0] {
      RowLeqTrans(a[1..], b[1..], c[1..]);
    } else {
      if a[0] != b[0] && b[0] != c[0] {
        LeqTrans(a[0], b[0], c[0]);
      }
      LeqTotal(a[0], b[0]);
    }
  }

  lemma OrdersAreTotal()
    ensures TotalOrder(Leq) && TotalOrder(RowLeq)
  {
    forall a, b
      ensures (Leq(a, b) || Leq(b, a)) && (Leq(a, b) && Leq(b, a) ==> a == b)
    {
      LeqTotal(a, b);
    }
    forall a, b, c | Leq(a, b) && Leq(b, c)
      ensures Leq(a, c)
    {
      LeqTrans(a, b, c);
    }
    forall a, b
      ensures (RowLeq(a, b) || RowLeq(b, a)) && (RowLeq(a, b) && RowLeq(b, a) ==> a == b)
    {
      RowLeqTotal(a, b);
    }
    forall a, b, c | RowLeq(a, b) && RowLeq(b, c)
      ensures RowLeq(a, c)
    {
      RowLeqTrans(a, b, c);
    }
  }

  function RowOf(names: seq<string>): Json {
    JList(seq(|names|, i requires 0 <= i < |names| => JStr(names[i])))
  }

  function RowsOfLists(lists: seq<seq<string>>): Json {
    JList(seq(|lists|, i requires 0 <= i < |lists| => RowOf(lists[i])))
  }

  function Elements(names: seq<string>): set<string> {
    set x | x in names
  }

  /** `lists` holds every component of `sccs` once, each in order, and they are
      in order themselves. */
  ghost predicate Lists(lists: seq<seq<string>>, sccs: set<set<string>>) {
    && (forall i :: 0 <= i < |lists| ==> Ascending(lists[i], Leq) && Elements(lists[i]) in sccs)
    && Ascending(lists, RowLeq)
    && (forall i, j :: 0 <= i < j < |lists| ==> Elements(lists[i]) != Elements(lists[j]))
    && (forall s {:trigger Shows(lists, s)} :: s in sccs ==> Shows(lists, s))
  }

  ghost predicate Shows(lists: seq<seq<string>>, s: set<string>) {
    exists i :: 0 <= i < |lists| && Elements(lists[i]) == s
  }

  ghost predicate ListsSccs(rows: Json, sccs: set<set<string>>) {
    exists lists :: rows == RowsOfLists(lists) && Lists(lists, sccs)
  }

  lemma NamesOfRow(names: seq<string>)
    ensures Names(RowOf(names)) == Elements(names)
  {
    var items := RowOf(names).items;
    forall x | x in names
      ensures x in Names(RowOf(names))
    {
      var i :| 0 <= i < |names| && names[i] == x;
      assert items[i] == JStr(x) && items[i] in items;
    }
  }

  method SortedNames(s: set<string>) returns (names: seq<string>)
    ensures Ascending(names, Leq) && Elements(names) == s
  {
    OrdersAreTotal();
    names := SortedList(s, Leq);
  }

  method SortedRows(s: set<seq<string>>) returns (rows: seq<seq<string>>)
    ensures Ascending(rows, RowLeq) && forall x :: x in rows <==> x in s
  {
    OrdersAreTotal();
    rows := SortedList(s, RowLeq);
  }

  /** Each set is listed in order. */
  ghost predicate Listing(listing: map<set<string>, seq<string>>) {
    forall s :: s in listing ==> Ascending(listing[s], Leq) && Elements(listing[s]) == s
  }

  /** One crate's components, as the print command lists them. */
  method RenderRows(sccs: set<set<string>>) returns (rows: Json)
    ensures ListsSccs(rows, sccs)
  {
    var listing: map<set<string>, seq<string>> := map[];
    var todo := sccs;
    while todo != {}
      invariant todo <= sccs && listing.Keys == sccs - todo && Listing(listing)
      decreases todo
    {
      var s :| s in todo;
      todo := todo - {s};
      var names := SortedNames(s);
      listing := listing[s := names];
    }
    var lists := SortedRows(set s | s in listing :: listing[s]);
    ListedInOrder(listing, lists);
    rows := RowsOfLists(lists);
  }

  lemma ListedInOrder(listing: map<set<string>, seq<string>>, lists: seq<seq<string>>)
    requires Listing(listing) && Ascending(lists, RowLeq)
    requires forall l :: l in lists <==> l in set s | s in listing :: listing[s]
    ensures Lists(lists, listing.Keys)
  {
    forall i | 0 <= i < |lists|
      ensures Elements(lists[i]) in listing && listing[Elements(lists[i])] == lists[i] && Ascending(lists[i], Leq)
    {
      assert lists[i] in lists;
    }
    forall s | s in listing
      ensures Shows(lists, s)
    {
      assert listing[s] in lists;
    }
  }

  /** What the print command writes for these exclusions and measurements;
      crates without a component have no entry. */
  ghost predicate Printed(document: Json, excluded: map<string, string>, measured: map<string, set<set<string>>>) {
    && document.JObj? && document.fields.Keys == {"schema", "excluded", "crates"}
    && document.fields["schema"] == JInt(SCHEMA)
    && document.fields["excluded"] == JObj(map p | p in excluded :: JStr(excluded[p]))
    && document.fields["crates"].JObj?
    && document.fields["crates"].fields.Keys == (set c | c in measured && measured[c] != {})
    && (forall c :: c in document.fields["crates"].fields ==>
          ListsSccs(document.fields["crates"].fields[c], measured[c]))
  }

  /** The baseline document of these exclusions and measurements. */
  method RenderBaseline(excluded: map<string, string>, measured: map<string, set<set<string>>>) returns (document: Json)
    ensures Printed(document, excluded, measured)
  {
    var shown := set c | c in measured && measured[c] != {};
    var crates: map<string, Json> := map[];
    var todo := shown;
    while todo != {}
      invariant todo <= shown && crates.Keys == shown - todo
      invariant forall c :: c in crates ==> ListsSccs(crates[c], measured[c])
      decreases todo
    {
      var c :| c in todo;
      todo := todo - {c};
      var rows := RenderRows(measured[c]);
      crates := crates[c := rows];
    }
    document := JObj(map["schema" := JInt(SCHEMA),
                         "excluded" := JObj(map p | p in excluded :: JStr(excluded[p])),
                         "crates" := JObj(crates)]);
  }

  lemma AscendingIsRow(names: seq<string>)
    requires Ascending(names, Leq) && |Elements(names)| >= 2
    ensures IsRow(RowOf(names))
  {
    CardElements(names);
  }

  lemma {:induction false} CardElements(names: seq<string>)
    ensures |Elements(names)| <= |names|
  {
    if names == [] {
      assert Elements(names) == {};
    } else {
      var k := |names| - 1;
      CardElements(names[..k]);
      assert names == names[..k] + [names[k]];
      assert Elements(names) == Elements(names[..k]) + {names[k]};
    }
  }

  lemma ListedRows(lists: seq<seq<string>>, sccs: set<set<string>>)
    requires Lists(lists, sccs) && Rows(sccs)
    ensures RowsListed(RowsOfLists(lists).items)
    ensures forall i :: 0 <= i < |lists| ==> Names(RowsOfLists(lists).items[i]) == Elements(lists[i])
  {
    var items := RowsOfLists(lists).items;
    forall i | 0 <= i < |items|
      ensures IsRow(items[i]) && Names(items[i]) == Elements(lists[i])
    {
      AscendingIsRow(lists[i]);
      NamesOfRow(lists[i]);
    }
    forall i, j | 0 <= i < j < |items|
      ensures Names(items[i]) !! Names(items[j])
    {
      assert Elements(lists[i]) in sccs && Elements(lists[j]) in sccs;
    }
  }

  lemma ListedSets(lists: seq<seq<string>>, sccs: set<set<string>>)
    requires Lists(lists, sccs) && Rows(sccs)
    ensures RowsListed(RowsOfLists(lists).items) && RowSets(RowsOfLists(lists).items) == sccs
  {
    ListedRows(lists, sccs);
    var items := RowsOfLists(lists).items;
    forall s | s in sccs
      ensures s in RowSets(items)
    {
      assert Shows(lists, s);
      var i :| 0 <= i < |lists| && Elements(lists[i]) == s;
      assert Names(items[i]) == s;
    }
    forall s | s in RowSets(items)
      ensures s in sccs
    {
      var i :| 0 <= i < |items| && Names(items[i]) == s;
      assert Names(items[i]) == Elements(lists[i]);
    }
  }

  lemma ListedLoads(rows: Json, sccs: set<set<string>>)
    requires ListsSccs(rows, sccs) && Rows(sccs)
    ensures AcceptsRows(rows) && RowSets(rows.items) == sccs
  {
    var lists :| rows == RowsOfLists(lists) && Lists(lists, sccs);
    ListedSets(lists, sccs);
  }

  function Measured(graphs: map<string, Graph>, crate: string): Graph {
    if crate in graphs then graphs[crate] else map[]
  }

  function RowsOf(crates: map<string, set<set<string>>>, crate: string): set<set<string>> {
    if crate in crates then crates[crate] else {}
  }

  ghost function Measurements(graphs: map<string, Graph>): map<string, set<set<string>>> {
    map c | c in graphs :: Sccs(Edges(graphs[c]))
  }

  lemma PrintedLoads(document: Json, excluded: map<string, string>, measured: map<string, set<set<string>>>)
    requires forall p :: p in excluded ==> excluded[p] != ""
    requires forall c :: c in measured ==> Rows(measured[c])
    requires Printed(document, excluded, measured)
    ensures Accepts(document)
    ensures Loaded(document) == Table(excluded, map c | c in measured && measured[c] != {} :: measured[c])
  {
    var crates := document.fields["crates"].fields;
    forall c | c in crates ensures AcceptsRows(crates[c]) && RowSets(crates[c].items) == measured[c] {
      ListedLoads(crates[c], measured[c]);
    }
    assert AcceptsExcluded(document.fields["excluded"]);
    assert Loaded(document).excluded == excluded;
    LoadedCrates(crates, measured);
  }

  lemma LoadedCrates(crates: map<string, Json>, measured: map<string, set<set<string>>>)
    requires AcceptsCrates(crates)
    requires crates.Keys == (set c | c in measured && measured[c] != {})
    requires forall c :: c in crates ==> CrateRows(crates)[c] == measured[c]
    ensures CrateRows(crates) == map c | c in measured && measured[c] != {} :: measured[c]
  {
  }

  /** A printed baseline is accepted, keeps the exclusions apart from the
      measured crates, and the check right after it reports nothing. */
  lemma PrintedChecksClean(document: Json, excluded: map<string, string>, graphs: map<string, Graph>)
    requires forall p :: p in excluded ==> excluded[p] != "" && p !in graphs
    requires Printed(document, excluded, Measurements(graphs))
    ensures Accepts(document) && Loaded(document).excluded == excluded
    ensures forall p :: p in excluded ==> p !in Loaded(document).crates
    ensures forall c ::
              Compare(RowsOf(Measurements(graphs), c), RowsOf(Loaded(document).crates, c), Measured(graphs, c))
              == Report({}, {})
  {
    var measured := Measurements(graphs);
    forall c | c in measured ensures Rows(measured[c]) {
      SccsDisjoint(Edges(graphs[c]));
    }
    PrintedLoads(document, excluded, measured);
    forall c
      ensures Compare(RowsOf(measured, c), RowsOf(Loaded(document).crates, c), Measured(graphs, c)) == Report({}, {})
    {
      CleanIffEqual(RowsOf(measured, c), RowsOf(measured, c), Measured(graphs, c));
    }
  }
}
