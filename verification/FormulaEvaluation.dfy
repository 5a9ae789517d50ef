/** Running scheduled formulas over a table, with inputs masked to what was available before each row's cutoff
    (ima/feature_definitions.py, ima/feature_lifecycle.py). */
module FormulaEvaluation {
  import opened UnitSignatures
  import opened FeatureExpressions
  import opened FormulaScheduling

  /** A cell of a numeric column, or of a column that only reads as a time (none if it does not parse). */
  datatype Cell = Number(value: Value) | Moment(time: Option<int>)

  datatype Dtype = Numeric | Other

  /** One row and its cutoff. */
  datatype Line = Line(cells: map<string, Cell>, cutoff: int)

  /** Inputs, availability times and outputs share one namespace of columns. */
  datatype Table = Table(columns: map<string, Dtype>, lines: seq<Line>)

  datatype State = State(table: Table, metadata: map<string, Metadata>)

  /** What stays fixed: the numerical library, how it reads a number as a time, the names already taken, and
      whether cutoffs were supplied. */
  datatype Context = Context(num: Numerics, asTime: Value -> Option<int>, reserved: set<string>, cutoffs: bool)

  /** No formula may take the name of a column or of a known input. */
  function Start(num: Numerics, asTime: Value -> Option<int>, cutoffs: bool, s: State): Context {
    Context(num, asTime, s.table.columns.Keys + s.metadata.Keys, cutoffs)
  }

  predicate DistinctDefinitions(ds: seq<Definition>) {
    forall i, j :: 0 <= i < j < |ds| ==> ds[i].name != ds[j].name && ds[i].content != ds[j].content
  }

  /** The declared inputs and unit are those of the expression, which must itself be acceptable. */
  predicate ValidDefinition(num: Numerics, d: Definition, metadata: map<string, Metadata>) {
    && Size(d.expression) <= MAX_NODES && Height(d.expression) <= MAX_DEPTH
    && TypeOf(num, metadata, d.expression).Ok?
    && Refs(d.expression) == d.inputs
    && UnitSignature(num, d.unit) == Ok(TypeOf(num, metadata, d.expression).value)
  }

  /** Every input is a column, and every tracked input has its times and the cutoffs to compare them with. */
  predicate Bindable(d: Definition, s: State, cutoffs: bool) {
    forall name | name in d.inputs ::
      && name in s.table.columns && s.table.columns[name].Numeric? && name in s.metadata
      && (s.metadata[name].availability.Some? ==> cutoffs && s.metadata[name].availability.value in s.table.columns)
  }

  function NumberAt(line: Line, name: string): Value {
    if name in line.cells && line.cells[name].Number? then line.cells[name].value else Nan
  }

  /** `pd.to_datetime(output[column], errors="coerce")`: numbers are read as times too. */
  function TimeAt(asTime: Value -> Option<int>, line: Line, column: string): Option<int> {
    if column !in line.cells then None
    else if line.cells[column].Number? then asTime(line.cells[column].value)
    else line.cells[column].time
  }

  /** Not tracked, or known to be available strictly before the row's cutoff. */
  predicate Available(asTime: Value -> Option<int>, meta: Metadata, line: Line) {
    meta.availability.Some? ==>
      var time := TimeAt(asTime, line, meta.availability.value);
      time.Some? && time.value < line.cutoff
  }

  function Bound(c: Context, metadata: map<string, Metadata>, line: Line, name: string): Value {
    if name in metadata && Available(c.asTime, metadata[name], line) then NumberAt(line, name) else Nan
  }

  function Binding(c: Context, metadata: map<string, Metadata>, line: Line): string -> Value {
    name => Bound(c, metadata, line, name)
  }

  function Computed(c: Context, d: Definition, metadata: map<string, Metadata>, line: Line): Value {
    Evaluate(c.num, d.expression, Binding(c, metadata, line))
  }

  function WithOutput(c: Context, d: Definition, metadata: map<string, Metadata>, line: Line): Line {
    var v := Computed(c, d, metadata, line);
    line.(cells := line.cells[d.name := Number(v)][d.FeatureId() := Number(v)])
  }

  function OutputMetadata(d: Definition): Metadata { Metadata(d.unit, PreRace, false, None) }

  /** What is known once a definition has run. */
  function Known(d: Definition, metadata: map<string, Metadata>): map<string, Metadata> {
    metadata[d.name := OutputMetadata(d)][d.FeatureId() := OutputMetadata(d)]
  }

  /** An output column may be one that later formulas are tracked by. */
  function Extended(c: Context, d: Definition, s: State): State {
    State(
      Table(s.table.columns[d.name := Numeric][d.FeatureId() := Numeric],
        seq(|s.table.lines|, i requires 0 <= i < |s.table.lines| => WithOutput(c, d, s.metadata, s.table.lines[i]))),
      Known(d, s.metadata))
  }

  function ApplyOne(c: Context, d: Definition, s: State): Option<State> {
    if d.name in c.reserved || !ValidDefinition(c.num, d, s.metadata) || !Bindable(d, s, c.cutoffs) then None
    else Some(Extended(c, d, s))
  }

  function ApplyAll(c: Context, order: seq<Definition>, s: State): Option<State> {
    if order == [] then Some(s)
    else
      var next := ApplyOne(c, order[0], s);
      if next.None? then None else ApplyAll(c, order[1..], next.value)
  }

  /** Schedule, then apply in that order. */
  function Run(c: Context, pending: seq<Definition>, completed: set<string>, s: State): Option<State> {
    var order := Rounds(pending, s.metadata.Keys, completed);
    if order.None? then None else ApplyAll(c, order.value, s)
  }

  /** The outcome for a frame and its metadata. */
  function Formulas(num: Numerics, asTime: Value -> Option<int>, cutoffs: bool, definitions: seq<Definition>, initial: State): Option<State> {
    if DistinctDefinitions(definitions) then Run(Start(num, asTime, cutoffs, initial), definitions, {}, initial) else None
  }

  // ---- the loop ----

  lemma {:induction false} ApplyAppend(c: Context, first: seq<Definition>, later: seq<Definition>, s: State)
    ensures ApplyAll(c, first + later, s) ==
      if ApplyAll(c, first, s).None? then None else ApplyAll(c, later, ApplyAll(c, first, s).value)
  {
    hide ApplyOne;
    if first == [] {
      assert first + later == later;
    } else {
      assert (first + later)[1..] == first[1..] + later;
      var next := ApplyOne(c, first[0], s);
      if next.Some? { ApplyAppend(c, first[1..], later, next.value); }
    }
  }

  lemma ApplySnoc(c: Context, first: seq<Definition>, d: Definition, s: State)
    ensures ApplyAll(c, first + [d], s) ==
      if ApplyAll(c, first, s).None? then None else ApplyOne(c, d, ApplyAll(c, first, s).value)
  {
    hide ApplyOne;
    ApplyAppend(c, first, [d], s);
    assert [d][1..] == [];
  }

  lemma OneExtendsKeys(c: Context, d: Definition, s: State)
    requires ApplyOne(c, d, s).Some?
    ensures ApplyOne(c, d, s).value.metadata.Keys == s.metadata.Keys + d.Produces()
  {
    hide ValidDefinition, Bindable;
  }

  lemma {:induction false} AllExtendKeys(c: Context, order: seq<Definition>, s: State)
    requires ApplyAll(c, order, s).Some?
    ensures ApplyAll(c, order, s).value.metadata.Keys == s.metadata.Keys + ProducedBy(order)
  {
    hide ApplyOne;
    if order != [] {
      var n := |order| - 1;
      assert order == order[..n] + [order[n]];
      ApplySnoc(c, order[..n], order[n], s);
      AllExtendKeys(c, order[..n], s);
      OneExtendsKeys(c, order[n], ApplyAll(c, order[..n], s).value);
    }
  }

  /** One round of the loop: the ready definitions applied, the rest pending. */
  lemma RunRound(c: Context, pending: seq<Definition>, completed: set<string>, s: State)
    requires pending != []
    ensures var ready := Sift(pending, s.metadata.Keys, completed, true);
      var order := SortByName(ready);
      var next := ApplyAll(c, order, s);
      && (ready == [] ==> Run(c, pending, completed, s) == None)
      && (ready != [] && next.None? ==> Run(c, pending, completed, s) == None)
      && (ready != [] && next.Some? ==>
            Run(c, pending, completed, s)
            == Run(c, Sift(pending, s.metadata.Keys, completed, false), completed + ContentsOf(order), next.value))
  {
    hide ApplyAll, SortByName, Sift, ProducedBy, ContentsOf;
    var ready := Sift(pending, s.metadata.Keys, completed, true);
    var order := SortByName(ready);
    if ready != [] {
      SiftSplits(pending, s.metadata.Keys, completed);
      var rest := Sift(pending, s.metadata.Keys, completed, false);
      var later := Rounds(rest, s.metadata.Keys + ProducedBy(order), completed + ContentsOf(order));
      if later.Some? { ApplyAppend(c, order, later.value, s); }
      if ApplyAll(c, order, s).Some? { AllExtendKeys(c, order, s); }
    }
  }

  /** `evaluate_formulas`: every round runs what is ready, alphabetically; the result is that of the schedule. */
  method EvaluateFormulas(num: Numerics, asTime: Value -> Option<int>, cutoffs: bool, definitions: seq<Definition>, initial: State)
    returns (r: Option<State>)
    ensures r == Formulas(num, asTime, cutoffs, definitions, initial)
  {
    hide ApplyOne, ApplyAll, Run, Ready, DistinctDefinitions, SortByName;
    var c := Start(num, asTime, cutoffs, initial);
    if !DistinctDefinitions(definitions) { return None; }
    var pending, completed, s := definitions, {}, initial;
    while pending != []
      invariant Run(c, pending, completed, s) == Run(c, definitions, {}, initial)
      decreases |pending|
    {
      var ready := Sift(pending, s.metadata.Keys, completed, true);
      RunRound(c, pending, completed, s);
      SiftSplits(pending, s.metadata.Keys, completed);
      if ready == [] { return None; }
      var order := SortByName(ready);
      var now, done := s, {};
      ApplyNothing(c, order[..0], s);
      for k := 0 to |order|
        invariant ApplyAll(c, order[..k], s) == Some(now) && done == ContentsOf(order[..k])
      {
        assert order[..k + 1] == order[..k] + [order[k]];
        ApplySnoc(c, order[..k], order[k], s);
        ContentsSnoc(order[..k], order[k]);
        var next := ApplyOne(c, order[k], now);
        if next.None? {
          FailsEarly(c, order, k, s);
          return None;
        }
        now, done := next.value, done + {order[k].content};
      }
      assert order[..|order|] == order;
      pending := Sift(pending, s.metadata.Keys, completed, false);
      completed := completed + done;
      s := now;
    }
    RunNothing(c, pending, completed, s);
    return Some(s);
  }

  lemma ApplyNothing(c: Context, order: seq<Definition>, s: State)
    requires order == []
    ensures ApplyAll(c, order, s) == Some(s) && ContentsOf(order) == {}
  {}

  lemma RunNothing(c: Context, pending: seq<Definition>, completed: set<string>, s: State)
    requires pending == []
    ensures Run(c, pending, completed, s) == Some(s)
  {}

  lemma ContentsSnoc(ds: seq<Definition>, d: Definition)
    ensures ContentsOf(ds + [d]) == ContentsOf(ds) + {d.content}
  {
    assert (ds + [d])[..|ds|] == ds;
  }

  lemma FailsEarly(c: Context, order: seq<Definition>, k: nat, s: State)
    requires k < |order| && ApplyAll(c, order[..k + 1], s).None?
    ensures ApplyAll(c, order, s).None?
  {
    ApplyAppend(c, order[..k + 1], order[k + 1..], s);
    assert order[..k + 1] + order[k + 1..] == order;
  }

  // ---- what a formula reads ----

  /** The row as a formula may see it: a tracked input is missing unless its availability column reads as a time
      strictly before the row's cutoff. */
  function Masked(asTime: Value -> Option<int>, metadata: map<string, Metadata>, line: Line): string -> Value {
    name =>
      if name !in metadata then Nan
      else match metadata[name].availability
        case None => NumberAt(line, name)
        case Some(column) =>
          match TimeAt(asTime, line, column)
          case None => Nan
          case Some(time) => if line.cutoff <= time then Nan else NumberAt(line, name)
  }

  lemma {:induction false} SameEval(num: Numerics, e: Expression, row: string -> Value, other: string -> Value)
    requires forall n :: row(n) == other(n)
    ensures Eval(num, e, row) == Eval(num, e, other)
  {
    hide Apply1, Apply2;
    match e
    case Ref(_) =>
    case Constant(_) =>
    case Unary(_, a) => SameEval(num, a, row, other);
    case Binary(_, l, r) => SameEval(num, l, row, other); SameEval(num, r, row, other);
  }

  lemma StepValue(c: Context, d: Definition, s: State, i: nat)
    requires ApplyOne(c, d, s).Some? && i < |s.table.lines|
    ensures var t := ApplyOne(c, d, s).value.table;
            |t.lines| == |s.table.lines| && d.name in t.lines[i].cells && d.FeatureId() in t.lines[i].cells
            && t.lines[i].cells[d.name] == t.lines[i].cells[d.FeatureId()]
               == Number(Evaluate(c.num, d.expression, Masked(c.asTime, s.metadata, s.table.lines[i])))
  {
    hide ValidDefinition, Bindable, Eval;
    var line := s.table.lines[i];
    forall name ensures Binding(c, s.metadata, line)(name) == Masked(c.asTime, s.metadata, line)(name) {}
    SameEval(c.num, d.expression, Binding(c, s.metadata, line), Masked(c.asTime, s.metadata, line));
  }

  lemma StepKeeps(c: Context, d: Definition, s: State, i: nat, column: string)
    requires ApplyOne(c, d, s).Some? && i < |s.table.lines| && column !in d.Produces()
    ensures var t := ApplyOne(c, d, s).value.table;
            |t.lines| == |s.table.lines| && t.lines[i].cutoff == s.table.lines[i].cutoff
            && (column in t.lines[i].cells <==> column in s.table.lines[i].cells)
            && (column in s.table.lines[i].cells ==> t.lines[i].cells[column] == s.table.lines[i].cells[column])
  {
    hide ValidDefinition, Bindable, Computed;
  }

  lemma {:induction false} AllKeep(c: Context, order: seq<Definition>, s: State, i: nat, column: string)
    requires ApplyAll(c, order, s).Some? && i < |s.table.lines|
    requires forall d :: d in order ==> column !in d.Produces()
    ensures var t := ApplyAll(c, order, s).value.table;
            |t.lines| == |s.table.lines| && t.lines[i].cutoff == s.table.lines[i].cutoff
            && (column in t.lines[i].cells <==> column in s.table.lines[i].cells)
            && (column in s.table.lines[i].cells ==> t.lines[i].cells[column] == s.table.lines[i].cells[column])
  {
    hide ApplyOne;
    if order != [] {
      assert order[0] in order && forall d :: d in order[1..] ==> d in order;
      StepKeeps(c, order[0], s, i, column);
      AllKeep(c, order[1..], ApplyOne(c, order[0], s).value, i, column);
    }
  }

  /** In every row, the k-th formula's column is its expression over what the row may show when the formula runs, and
      it stays so unless a later formula writes the same column. */
  lemma RunValues(c: Context, order: seq<Definition>, k: nat, s: State, i: nat)
    requires ApplyAll(c, order, s).Some? && k < |order| && i < |s.table.lines|
    requires forall later :: later in order[k + 1..] ==> order[k].FeatureId() !in later.Produces()
    ensures ApplyAll(c, order[..k], s).Some?
    ensures var before, after := ApplyAll(c, order[..k], s).value, ApplyAll(c, order, s).value.table;
            && |before.table.lines| == |after.lines| == |s.table.lines|
            && order[k].FeatureId() in after.lines[i].cells
            && after.lines[i].cells[order[k].FeatureId()]
               == Number(Evaluate(c.num, order[k].expression, Masked(c.asTime, before.metadata, before.table.lines[i])))
  {
    hide ApplyOne, Masked, Evaluate;
    var d := order[k];
    assert order == order[..k] + ([d] + order[k + 1..]);
    ApplyAppend(c, order[..k], [d] + order[k + 1..], s);
    var before := ApplyAll(c, order[..k], s).value;
    LinesKept(c, order[..k], s);
    assert ([d] + order[k + 1..])[1..] == order[k + 1..];
    StepValue(c, d, before, i);
    AllKeep(c, order[k + 1..], ApplyOne(c, d, before).value, i, d.FeatureId());
  }

  lemma {:induction false} LinesKept(c: Context, order: seq<Definition>, s: State)
    requires ApplyAll(c, order, s).Some?
    ensures |ApplyAll(c, order, s).value.table.lines| == |s.table.lines|
  {
    hide ValidDefinition, Bindable, WithOutput;
    if order != [] { LinesKept(c, order[1..], ApplyOne(c, order[0], s).value); }
  }

  // ---- point in time ----

  /** The columns that availability times are read from. */
  function Tracking(metadata: map<string, Metadata>): set<string> {
    set name | name in metadata && metadata[name].availability.Some? :: metadata[name].availability.value
  }

  /** Two rows that agree on every availability time and on every input that is untracked or whose availability time
      lies strictly before the cutoff; the other inputs may differ at will. */
  ghost predicate AgreeAsOf(asTime: Value -> Option<int>, metadata: map<string, Metadata>, a: Line, b: Line) {
    && a.cutoff == b.cutoff && a.cells.Keys == b.cells.Keys
    && (forall column | column in Tracking(metadata) :: TimeAt(asTime, a, column) == TimeAt(asTime, b, column))
    && forall name | name in metadata ::
         (metadata[name].availability.Some? ==>
            var time := TimeAt(asTime, a, metadata[name].availability.value); time.Some? && time.value < a.cutoff)
         ==> NumberAt(a, name) == NumberAt(b, name)
  }

  ghost predicate TablesAgree(asTime: Value -> Option<int>, metadata: map<string, Metadata>, a: Table, b: Table) {
    && a.columns == b.columns && |a.lines| == |b.lines|
    && forall i :: 0 <= i < |a.lines| ==> AgreeAsOf(asTime, metadata, a.lines[i], b.lines[i])
  }

  /** No formula writes a column that availability times are read from. */
  ghost predicate NoClash(definitions: seq<Definition>, metadata: map<string, Metadata>) {
    forall d :: d in definitions ==> d.Produces() !! Tracking(metadata)
  }

  lemma SameAvailability(asTime: Value -> Option<int>, metadata: map<string, Metadata>, a: Line, b: Line, name: string)
    requires AgreeAsOf(asTime, metadata, a, b) && name in metadata
    ensures Available(asTime, metadata[name], a) <==> Available(asTime, metadata[name], b)
  {
    if metadata[name].availability.Some? {
      assert metadata[name].availability.value in Tracking(metadata);
    }
  }

  lemma SameComputed(c: Context, d: Definition, metadata: map<string, Metadata>, a: Line, b: Line)
    requires AgreeAsOf(c.asTime, metadata, a, b)
    ensures Computed(c, d, metadata, a) == Computed(c, d, metadata, b)
  {
    hide Eval, TimeAt, NumberAt;
    forall name ensures Binding(c, metadata, a)(name) == Binding(c, metadata, b)(name) {
      if name in metadata { SameAvailability(c.asTime, metadata, a, b, name); }
    }
    SameEval(c.num, d.expression, Binding(c, metadata, a), Binding(c, metadata, b));
  }

  lemma TrackingShrinks(d: Definition, metadata: map<string, Metadata>)
    ensures Tracking(Known(d, metadata)) <= Tracking(metadata)
  {}

  lemma OutputAgrees(c: Context, d: Definition, metadata: map<string, Metadata>, a: Line, b: Line)
    requires AgreeAsOf(c.asTime, metadata, a, b) && d.Produces() !! Tracking(metadata)
    ensures AgreeAsOf(c.asTime, Known(d, metadata), WithOutput(c, d, metadata, a), WithOutput(c, d, metadata, b))
  {
    hide Computed;
    SameComputed(c, d, metadata, a, b);
    TrackingShrinks(d, metadata);
    var x, y, known := WithOutput(c, d, metadata, a), WithOutput(c, d, metadata, b), Known(d, metadata);
    forall column | column in Tracking(metadata)
      ensures TimeAt(c.asTime, x, column) == TimeAt(c.asTime, a, column) && TimeAt(c.asTime, y, column) == TimeAt(c.asTime, b, column)
    {
      assert column != d.name && column != d.FeatureId();
    }
    forall name | name in known && Available(c.asTime, known[name], x) ensures NumberAt(x, name) == NumberAt(y, name) {
      if name !in d.Produces() {
        if metadata[name].availability.Some? {
          assert metadata[name].availability.value in Tracking(metadata);
        }
        assert Available(c.asTime, metadata[name], a);
      }
    }
  }

  lemma StepAgrees(c: Context, d: Definition, metadata: map<string, Metadata>, a: Table, b: Table)
    requires TablesAgree(c.asTime, metadata, a, b) && d.Produces() !! Tracking(metadata)
    ensures ApplyOne(c, d, State(a, metadata)).Some? <==> ApplyOne(c, d, State(b, metadata)).Some?
    ensures ApplyOne(c, d, State(a, metadata)).Some? ==>
      var x, y := ApplyOne(c, d, State(a, metadata)).value, ApplyOne(c, d, State(b, metadata)).value;
      x.metadata == y.metadata == Known(d, metadata) && TablesAgree(c.asTime, x.metadata, x.table, y.table)
  {
    hide AgreeAsOf, WithOutput, ValidDefinition;
    forall i | 0 <= i < |a.lines| { OutputAgrees(c, d, metadata, a.lines[i], b.lines[i]); }
  }

  /** Values of tracked inputs that were not available before a row's cutoff reach no output of that row. */
  lemma {:induction false} UnavailableInputsIrrelevant(c: Context, order: seq<Definition>, metadata: map<string, Metadata>, a: Table, b: Table)
    requires TablesAgree(c.asTime, metadata, a, b) && NoClash(order, metadata)
    ensures ApplyAll(c, order, State(a, metadata)).Some? <==> ApplyAll(c, order, State(b, metadata)).Some?
    ensures ApplyAll(c, order, State(a, metadata)).Some? ==>
      var x, y := ApplyAll(c, order, State(a, metadata)).value, ApplyAll(c, order, State(b, metadata)).value;
      x.metadata == y.metadata && TablesAgree(c.asTime, x.metadata, x.table, y.table)
  {
    hide ApplyOne, TablesAgree, Tracking;
    if order != [] {
      assert order[0] in order && forall d :: d in order[1..] ==> d in order;
      StepAgrees(c, order[0], metadata, a, b);
      TrackingShrinks(order[0], metadata);
      if ApplyOne(c, order[0], State(a, metadata)).Some? {
        var x, y := ApplyOne(c, order[0], State(a, metadata)).value, ApplyOne(c, order[0], State(b, metadata)).value;
        UnavailableInputsIrrelevant(c, order[1..], x.metadata, x.table, y.table);
      }
    }
  }

  /** The column of a formula that has run: present in every row, and not tracked. */
  ghost predicate HasColumn(d: Definition, s: State) {
    && d.FeatureId() in s.metadata && s.metadata[d.FeatureId()].availability.None?
    && forall i :: 0 <= i < |s.table.lines| ==> d.FeatureId() in s.table.lines[i].cells
  }

  lemma ColumnAfter(c: Context, ran: Definition, s: State, d: Definition)
    requires ApplyOne(c, ran, s).Some? && (d == ran || HasColumn(d, s))
    ensures HasColumn(d, ApplyOne(c, ran, s).value)
  {
    hide ValidDefinition, Bindable, Computed;
  }

  lemma {:induction false} ColumnsPresent(c: Context, order: seq<Definition>, s: State, d: Definition)
    requires ApplyAll(c, order, s).Some? && (d in order || HasColumn(d, s))
    ensures HasColumn(d, ApplyAll(c, order, s).value)
  {
    hide ApplyOne, HasColumn;
    if order != [] {
      assert order == [order[0]] + order[1..];
      var next := ApplyOne(c, order[0], s).value;
      if d == order[0] || HasColumn(d, s) { ColumnAfter(c, order[0], s, d); }
      ColumnsPresent(c, order[1..], next, d);
    }
  }

  lemma ColumnsEqual(asTime: Value -> Option<int>, d: Definition, x: State, y: State)
    requires HasColumn(d, x) && HasColumn(d, y) && x.metadata == y.metadata && TablesAgree(asTime, x.metadata, x.table, y.table)
    ensures SameColumn(d, x.table, y.table)
  {
    forall i | 0 <= i < |x.table.lines|
      ensures NumberAt(x.table.lines[i], d.FeatureId()) == NumberAt(y.table.lines[i], d.FeatureId())
    {
      assert AgreeAsOf(asTime, x.metadata, x.table.lines[i], y.table.lines[i]);
      assert Available(asTime, x.metadata[d.FeatureId()], x.table.lines[i]);
    }
  }

  /** The formula's column exists in both tables, with the same value in every row. */
  ghost predicate SameColumn(d: Definition, a: Table, b: Table) {
    |a.lines| == |b.lines| &&
    forall i :: 0 <= i < |a.lines| ==>
      d.FeatureId() in a.lines[i].cells && d.FeatureId() in b.lines[i].cells
      && NumberAt(a.lines[i], d.FeatureId()) == NumberAt(b.lines[i], d.FeatureId())
  }

  /** Both tables fail, or both succeed with the same value of every formula in every row. */
  ghost predicate SameOutcome(num: Numerics, asTime: Value -> Option<int>, cutoffs: bool, definitions: seq<Definition>,
                              metadata: map<string, Metadata>, a: Table, b: Table)
  {
    var x, y := Formulas(num, asTime, cutoffs, definitions, State(a, metadata)), Formulas(num, asTime, cutoffs, definitions, State(b, metadata));
    && (x.Some? <==> y.Some?)
    && (x.Some? ==> forall d :: d in definitions ==> SameColumn(d, x.value.table, y.value.table))
  }

  /** The statement for whole runs, where no formula writes an availability column. */
  lemma PointInTimeOutputs(num: Numerics, asTime: Value -> Option<int>, cutoffs: bool, definitions: seq<Definition>,
                           metadata: map<string, Metadata>, a: Table, b: Table)
    requires TablesAgree(asTime, metadata, a, b) && NoClash(definitions, metadata)
    ensures SameOutcome(num, asTime, cutoffs, definitions, metadata, a, b)
  {
    hide ApplyAll, Follows, HasColumn, AgreeAsOf, SameColumn, Tracking, Rounds;
    var c := Start(num, asTime, cutoffs, State(a, metadata));
    var order := Rounds(definitions, metadata.Keys, {});
    if order.Some? {
      if DistinctDefinitions(definitions) {
        RoundsFollow(definitions, metadata.Keys, {});
        UnavailableInputsIrrelevant(c, order.value, metadata, a, b);
        var x, y := ApplyAll(c, order.value, State(a, metadata)), ApplyAll(c, order.value, State(b, metadata));
        if x.Some? {
          forall d | d in definitions ensures SameColumn(d, x.value.table, y.value.table) {
            ColumnsPresent(c, order.value, State(a, metadata), d);
            ColumnsPresent(c, order.value, State(b, metadata), d);
            ColumnsEqual(asTime, d, x.value, y.value);
          }
        }
      }
    }
  }

  // ---- the lifecycle's scheduler ----

  /** Checking without running: each definition in turn against the metadata known by then. */
  function CheckAll(num: Numerics, order: seq<Definition>, metadata: map<string, Metadata>, allowed: Definition -> bool): bool {
    order == [] ||
    (allowed(order[0]) && ValidDefinition(num, order[0], metadata)
     && CheckAll(num, order[1..], Known(order[0], metadata), allowed))
  }

  function MetadataAfter(order: seq<Definition>, metadata: map<string, Metadata>): map<string, Metadata> {
    if order == [] then metadata
    else MetadataAfter(order[1..], Known(order[0], metadata))
  }

  lemma {:induction false} CheckAppend(num: Numerics, first: seq<Definition>, later: seq<Definition>, metadata: map<string, Metadata>, allowed: Definition -> bool)
    ensures CheckAll(num, first + later, metadata, allowed)
       <==> CheckAll(num, first, metadata, allowed) && CheckAll(num, later, MetadataAfter(first, metadata), allowed)
    ensures MetadataAfter(first + later, metadata) == MetadataAfter(later, MetadataAfter(first, metadata))
  {
    hide ValidDefinition, Known;
    if first == [] {
      assert first + later == later;
    } else {
      assert (first + later)[1..] == first[1..] + later;
      CheckAppend(num, first[1..], later, Known(first[0], metadata), allowed);
    }
  }

  lemma CheckSnoc(num: Numerics, first: seq<Definition>, d: Definition, metadata: map<string, Metadata>, allowed: Definition -> bool)
    ensures CheckAll(num, first + [d], metadata, allowed)
       <==> CheckAll(num, first, metadata, allowed) && allowed(d) && ValidDefinition(num, d, MetadataAfter(first, metadata))
    ensures MetadataAfter(first + [d], metadata)
         == Known(d, MetadataAfter(first, metadata))
  {
    hide ValidDefinition, Known;
    CheckAppend(num, first, [d], metadata, allowed);
    assert [d][1..] == [];
  }

  lemma {:induction false} MetadataKeys(order: seq<Definition>, metadata: map<string, Metadata>)
    ensures MetadataAfter(order, metadata).Keys == metadata.Keys + ProducedBy(order)
  {
    hide OutputMetadata;
    if order != [] {
      var n := |order| - 1;
      assert order == order[..n] + [order[n]];
      MetadataKeys(order[..n], metadata);
      MetadataSnoc(order[..n], order[n], metadata);
    }
  }

  lemma {:induction false} MetadataSnoc(first: seq<Definition>, d: Definition, metadata: map<string, Metadata>)
    ensures MetadataAfter(first + [d], metadata)
         == Known(d, MetadataAfter(first, metadata))
  {
    hide Known;
    if first == [] {
      assert first + [d] == [d] && [d][1..] == [];
    } else {
      assert (first + [d])[1..] == first[1..] + [d];
      MetadataSnoc(first[1..], d, Known(first[0], metadata));
    }
  }

  /** The order the lifecycle accepts, if it accepts. */
  function Accepted(num: Numerics, pending: seq<Definition>, completed: set<string>, metadata: map<string, Metadata>, allowed: Definition -> bool)
    : Option<seq<Definition>>
  {
    var order := Rounds(pending, metadata.Keys, completed);
    if order.None? || !CheckAll(num, order.value, metadata, allowed) then None else order
  }

  lemma AcceptedRound(num: Numerics, pending: seq<Definition>, completed: set<string>, metadata: map<string, Metadata>, allowed: Definition -> bool)
    requires pending != []
    ensures var ready := Sift(pending, metadata.Keys, completed, true);
      var order := SortByName(ready);
      var rest := Accepted(num, Sift(pending, metadata.Keys, completed, false), completed + ContentsOf(order), MetadataAfter(order, metadata), allowed);
      Accepted(num, pending, completed, metadata, allowed) ==
        if ready == [] || !CheckAll(num, order, metadata, allowed) || rest.None? then None else Some(order + rest.value)
  {
    hide CheckAll, MetadataAfter, SortByName, Sift, ProducedBy, ContentsOf;
    var order := SortByName(Sift(pending, metadata.Keys, completed, true));
    SiftSplits(pending, metadata.Keys, completed);
    MetadataKeys(order, metadata);
    var later := Rounds(Sift(pending, metadata.Keys, completed, false), metadata.Keys + ProducedBy(order), completed + ContentsOf(order));
    if later.Some? { CheckAppend(num, order, later.value, metadata, allowed); }
  }

  /** `_validate_definitions`; `allowed` is: safe names, a known unit, and nothing by that name in the parent. */
  method ValidateDefinitions(num: Numerics, definitions: seq<Definition>, metadata: map<string, Metadata>, allowed: Definition -> bool)
    returns (r: Option<seq<Definition>>)
    ensures r == if 1 <= |definitions| <= 16 && DistinctDefinitions(definitions) then Accepted(num, definitions, {}, metadata, allowed) else None
  {
    hide CheckAll, MetadataAfter, Accepted, DistinctDefinitions, SortByName, ValidDefinition, ContentsOf, Known;
    if !(1 <= |definitions| <= 16) || !DistinctDefinitions(definitions) { return None; }
    var pending, completed, known := definitions, {}, metadata;
    var ordered: seq<Definition> := [];
    assert ordered + [] == [];
    AcceptedPrefixed(num, definitions, metadata, allowed);
    while pending != []
      invariant Accepted(num, definitions, {}, metadata, allowed) == Prefixed(ordered, Accepted(num, pending, completed, known, allowed))
      decreases |pending|
    {
      var ready := Sift(pending, known.Keys, completed, true);
      AcceptedRound(num, pending, completed, known, allowed);
      SiftSplits(pending, known.Keys, completed);
      if ready == [] { return None; }
      var order := SortByName(ready);
      var meta, done := known, {};
      CheckNothing(num, order[..0], known, allowed);
      for k := 0 to |order|
        invariant CheckAll(num, order[..k], known, allowed) && meta == MetadataAfter(order[..k], known) && done == ContentsOf(order[..k])
      {
        assert order[..k + 1] == order[..k] + [order[k]];
        CheckSnoc(num, order[..k], order[k], known, allowed);
        ContentsSnoc(order[..k], order[k]);
        if !allowed(order[k]) || !ValidDefinition(num, order[k], meta) {
          CheckAppend(num, order[..k + 1], order[k + 1..], known, allowed);
          assert order[..k + 1] + order[k + 1..] == order;
          return None;
        }
        meta := Known(order[k], meta);
        done := done + {order[k].content};
      }
      assert order[..|order|] == order;
      var rest := Sift(pending, known.Keys, completed, false);
      PrefixedAppend(ordered, order, Accepted(num, rest, completed + done, meta, allowed));
      pending, completed, known, ordered := rest, completed + done, meta, ordered + order;
    }
    AcceptedNothing(num, pending, completed, known, allowed);
    assert ordered + [] == ordered;
    return Some(ordered);
  }

  function Prefixed(first: seq<Definition>, later: Option<seq<Definition>>): Option<seq<Definition>> {
    if later.None? then None else Some(first + later.value)
  }

  lemma PrefixedAppend(first: seq<Definition>, second: seq<Definition>, later: Option<seq<Definition>>)
    ensures Prefixed(first, Prefixed(second, later)) == Prefixed(first + second, later)
  {
    if later.Some? { assert first + (second + later.value) == (first + second) + later.value; }
  }

  lemma AcceptedPrefixed(num: Numerics, definitions: seq<Definition>, metadata: map<string, Metadata>, allowed: Definition -> bool)
    ensures Prefixed([], Accepted(num, definitions, {}, metadata, allowed)) == Accepted(num, definitions, {}, metadata, allowed)
  {
    var a := Accepted(num, definitions, {}, metadata, allowed);
    if a.Some? { assert [] + a.value == a.value; }
  }

  lemma AcceptedNothing(num: Numerics, pending: seq<Definition>, completed: set<string>, metadata: map<string, Metadata>, allowed: Definition -> bool)
    requires pending == []
    ensures Accepted(num, pending, completed, metadata, allowed) == Some([])
  {}

  lemma CheckNothing(num: Numerics, order: seq<Definition>, metadata: map<string, Metadata>, allowed: Definition -> bool)
    requires order == []
    ensures CheckAll(num, order, metadata, allowed) && MetadataAfter(order, metadata) == metadata && ContentsOf(order) == {}
  {}

  // ---- what the lifecycle accepts, the evaluator runs ----

  /** Every known input is a column with what its masking needs. */
  predicate Supplied(s: State, cutoffs: bool) {
    forall name | name in s.metadata ::
      && name in s.table.columns && s.table.columns[name].Numeric?
      && (s.metadata[name].availability.Some? ==> cutoffs && s.metadata[name].availability.value in s.table.columns)
  }

  lemma StepRuns(c: Context, d: Definition, s: State)
    requires Supplied(s, c.cutoffs) && d.inputs <= s.metadata.Keys && d.name !in c.reserved && ValidDefinition(c.num, d, s.metadata)
    ensures ApplyOne(c, d, s).Some? && Supplied(ApplyOne(c, d, s).value, c.cutoffs)
    ensures ApplyOne(c, d, s).value.metadata == Known(d, s.metadata)
  {
    hide ValidDefinition, WithOutput;
  }

  lemma {:induction false} CheckedRuns(c: Context, order: seq<Definition>, s: State, allowed: Definition -> bool, completed: set<string>)
    requires Supplied(s, c.cutoffs) && Follows(order, s.metadata.Keys, completed)
    requires CheckAll(c.num, order, s.metadata, allowed) && forall d :: d in order ==> d.name !in c.reserved
    ensures ApplyAll(c, order, s).Some?
  {
    hide ValidDefinition, ApplyOne, Supplied;
    if order != [] {
      assert order[0] in order;
      StepRuns(c, order[0], s);
      var next := ApplyOne(c, order[0], s).value;
      OneExtendsKeys(c, order[0], s);
      assert order == [order[0]] + order[1..];
      CheckedRuns(c, order[1..], next, allowed, completed + {order[0].content});
    }
  }

  /** A build the lifecycle accepted runs, in the accepted order, on any table that supplies the known inputs. */
  lemma AcceptedBuildsRun(c: Context, definitions: seq<Definition>, s: State, allowed: Definition -> bool)
    requires DistinctDefinitions(definitions) && Supplied(s, c.cutoffs)
    requires Accepted(c.num, definitions, {}, s.metadata, allowed).Some? && forall d :: d in definitions ==> d.name !in c.reserved
    ensures Run(c, definitions, {}, s).Some?
    ensures Run(c, definitions, {}, s) == ApplyAll(c, Accepted(c.num, definitions, {}, s.metadata, allowed).value, s)
  {
    hide CheckAll, ApplyAll, Follows, Supplied;
    RoundsFollow(definitions, s.metadata.Keys, {});
    CheckedRuns(c, Rounds(definitions, s.metadata.Keys, {}).value, s, allowed, {});
  }
}
