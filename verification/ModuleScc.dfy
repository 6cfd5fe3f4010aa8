/** The two commands of the module-SCC ratchet, put together from their parts. */
module ModuleScc {
  import opened Digraph
  import opened Outcomes
  import opened Tarjan
  import opened Ratchet
  import opened Baseline

  /** What the baseline may say about the packages of the workspace. */
  ghost predicate Suits(t: Table, packages: set<string>) {
    forall p :: p in t.excluded ==> p in packages && p !in t.crates
  }

  /** The inputs both commands demand: a baseline that loads and suits. */
  ghost predicate Usable(document: Json, packages: set<string>) {
    Accepts(document) && Suits(Loaded(document), packages)
  }

  function Included(workspace: map<string, Graph>, excluded: map<string, string>): map<string, Graph> {
    map c | c in workspace && c !in excluded :: workspace[c]
  }

  /** Load the baseline, check it against the workspace and measure every
      package it does not exclude. */
  method Measure(document: Json, workspace: map<string, Graph>)
    returns (r: Result<(Table, map<string, set<set<string>>>)>)
    ensures r.Ok? <==> Usable(document, workspace.Keys)
    ensures r.Ok? ==> r.value.0 == Loaded(document)
                      && r.value.1 == Measurements(Included(workspace, r.value.0.excluded))
    ensures r.Ok? ==> var excluded := r.value.0.excluded.Keys;
                      && r.value.1.Keys !! excluded && r.value.1.Keys + excluded == workspace.Keys
                      && r.value.0.crates.Keys !! excluded
                      && forall c :: c in r.value.1 ==> r.value.1[c] == Sccs(Edges(workspace[c]))
  {
    var loaded := LoadBaseline(document);
    if loaded.Err? {
      return Err;
    }
    var table := loaded.value;
    if exists p :: p in table.excluded && (p !in workspace || p in table.crates) {
      return Err;
    }
    var graphs := Included(workspace, table.excluded);
    var measured: map<string, set<set<string>>> := map[];
    var todo := graphs.Keys;
    while todo != {}
      invariant todo <= graphs.Keys && measured.Keys == graphs.Keys - todo
      invariant forall c :: c in measured ==> measured[c] == Sccs(Edges(graphs[c]))
      decreases todo
    {
      var c :| c in todo;
      todo := todo - {c};
      var sccs, _ := TarjanSccs(Edges(graphs[c]));
      measured := measured[c := sccs];
    }
    r := Ok((table, measured));
  }

  /** A crate is as recorded: its components are its rows; a crate without
      components, or no longer measured, has none. */
  ghost predicate AsRecorded(t: Table, graphs: map<string, Graph>, c: string) {
    RowsOf(Measurements(graphs), c) == RowsOf(t.crates, c)
  }

  /** The check command: an input error, or whether every crate is as recorded. */
  method Check(document: Json, workspace: map<string, Graph>) returns (r: Result<bool>)
    ensures r.Ok? <==> Usable(document, workspace.Keys)
    ensures r.Ok? ==>
              var t := Loaded(document);
              r.value <==> forall c :: AsRecorded(t, Included(workspace, t.excluded), c)
  {
    var inputs := Measure(document, workspace);
    if inputs.Err? {
      return Err;
    }
    var table, measured := inputs.value.0, inputs.value.1;
    var graphs := Included(workspace, table.excluded);
    var todo := measured.Keys + table.crates.Keys;
    var clean := true;
    while todo != {}
      invariant todo <= measured.Keys + table.crates.Keys
      invariant clean <==> forall c :: c in measured.Keys + table.crates.Keys - todo ==> AsRecorded(table, graphs, c)
      decreases todo
    {
      var c :| c in todo;
      todo := todo - {c};
      var report := Compare(RowsOf(measured, c), RowsOf(table.crates, c), Measured(graphs, c));
      CrateClean(document, graphs, c);
      clean := clean && report == Report({}, {});
    }
    assert forall c :: c !in measured.Keys + table.crates.Keys ==> AsRecorded(table, graphs, c);
    r := Ok(clean);
  }

  lemma CrateClean(document: Json, graphs: map<string, Graph>, c: string)
    requires Accepts(document)
    ensures var rows := RowsOf(Loaded(document).crates, c);
            Compare(RowsOf(Measurements(graphs), c), rows, Measured(graphs, c)) == Report({}, {})
            <==> AsRecorded(Loaded(document), graphs, c)
  {
    LoadedRows(document);
    if c in graphs {
      SccsDisjoint(Edges(graphs[c]));
    }
    CleanIffEqual(RowsOf(Measurements(graphs), c), RowsOf(Loaded(document).crates, c), Measured(graphs, c));
  }

  /** The print command: the same input errors, or the new baseline. */
  method PrintBaseline(document: Json, workspace: map<string, Graph>) returns (r: Result<Json>)
    ensures r.Ok? <==> Usable(document, workspace.Keys)
    ensures r.Ok? ==>
              var excluded := Loaded(document).excluded;
              Printed(r.value, excluded, Measurements(Included(workspace, excluded)))
  {
    var inputs := Measure(document, workspace);
    if inputs.Err? {
      return Err;
    }
    var document' := RenderBaseline(inputs.value.0.excluded, inputs.value.1);
    r := Ok(document');
  }

  /** What print writes is usable and every crate is as it records, whatever the
      old baseline said. */
  lemma PrintedIsRecorded(document: Json, workspace: map<string, Graph>, document': Json)
    requires Usable(document, workspace.Keys)
    requires var excluded := Loaded(document).excluded;
             Printed(document', excluded, Measurements(Included(workspace, excluded)))
    ensures Usable(document', workspace.Keys)
    ensures var t := Loaded(document');
            forall c :: AsRecorded(t, Included(workspace, t.excluded), c)
  {
    var excluded := Loaded(document).excluded;
    var graphs := Included(workspace, excluded);
    PrintedChecksClean(document', excluded, graphs);
    forall c
      ensures AsRecorded(Loaded(document'), graphs, c)
    {
      CrateClean(document', graphs, c);
    }
  }

  /** Print, then check: clean, unless the old baseline was no usable input. */
  method PrintThenCheck(document: Json, workspace: map<string, Graph>) returns (r: Result<bool>)
    ensures r == if Usable(document, workspace.Keys) then Ok(true) else Err
  {
    var printed := PrintBaseline(document, workspace);
    if printed.Err? {
      return Err;
    }
    PrintedIsRecorded(document, workspace, printed.value);
    r := Check(printed.value, workspace);
  }
}
