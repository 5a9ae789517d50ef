/** The smallest runs of the formula evaluator, worked out by hand (ima/feature_definitions.py, `evaluate_formulas`). */
module FormulaExamples {
  import opened UnitSignatures
  import opened FeatureExpressions
  import opened FormulaScheduling
  import opened FormulaEvaluation

  /** One row with a number and the time at which the number became available. */
  function TrackedRow(input: string, column: string, v: Value, time: Option<int>, cutoff: int): Table {
    Table(map[input := Numeric, column := Other], [Line(map[input := Number(v), column := Moment(time)], cutoff)])
  }

  function CopyOf(name: string, content: string, input: string, unit: UnitTree): Definition {
    Definition(name, content, {input}, {}, Ref(input), unit)
  }

  lemma SingleRound(d: Definition, known: set<string>)
    requires d.inputs <= known && d.parents == {}
    ensures Rounds([d], known, {}) == Some([d])
  {
    assert [d][1..] == [] && Ready(d, known, {});
    assert Sift([], known, {}, true) == [] && Sift([], known, {}, false) == [];
    assert SortByName([]) == [] && SortByName([d]) == [d];
    assert [d] + [] == [d];
  }

  lemma SingleRun(num: Numerics, asTime: Value -> Option<int>, cutoffs: bool, d: Definition, s: State)
    requires d.inputs <= s.metadata.Keys && d.parents == {}
    ensures Formulas(num, asTime, cutoffs, [d], s) == ApplyOne(Start(num, asTime, cutoffs, s), d, s)
  {
    hide ApplyOne, Rounds, Start;
    var c := Start(num, asTime, cutoffs, s);
    SingleRound(d, s.metadata.Keys);
    assert [d][1..] == [];
    assert ApplyAll(c, [d], s) == ApplyOne(c, d, s);
  }

  /** The table has the copy under its name and its identifier: the number itself if it is one and its time lies strictly
      before the cutoff, nothing otherwise. */
  predicate ShowsInTime(t: Table, name: string, id: string, v: Value, time: Option<int>, cutoff: int) {
    && |t.lines| == 1 && name in t.lines[0].cells && id in t.lines[0].cells
    && t.lines[0].cells[id] == t.lines[0].cells[name]
    && t.lines[0].cells[name] == Number(if v.Fin? && time.Some? && time.value < cutoff then v else Nan)
  }

  /** A copy of a tracked historical input shows the input's number exactly where its time lies strictly before the
      cutoff; without cutoffs it is refused. */
  lemma TrackedCopy(num: Numerics, asTime: Value -> Option<int>, unit: UnitTree, input: string, column: string, name: string,
                    content: string, v: Value, time: Option<int>, cutoff: int, cutoffs: bool)
    requires UnitSignature(num, unit).Ok? && input != column && name != input && name != column
    ensures var s := State(TrackedRow(input, column, v, time, cutoff), map[input := Metadata(unit, Historical, false, Some(column))]);
            var r := Formulas(num, asTime, cutoffs, [CopyOf(name, content, input, unit)], s);
            && (r.Some? <==> cutoffs)
            && (r.Some? ==>
                  && r.value.table.columns == s.table.columns[name := Numeric]["dfs_" + content := Numeric]
                  && ShowsInTime(r.value.table, name, "dfs_" + content, v, time, cutoff))
  {
    hide Formulas, ApplyOne, ShowsInTime;
    var d := CopyOf(name, content, input, unit);
    var s := State(TrackedRow(input, column, v, time, cutoff), map[input := Metadata(unit, Historical, false, Some(column))]);
    var c := Start(num, asTime, cutoffs, s);
    SingleRun(num, asTime, cutoffs, d, s);
    CopyAccepted(c, d, s, input, column);
    if cutoffs { CopyShows(c, d, s, input, column, v, time, cutoff); }
  }

  lemma CopyShows(c: Context, d: Definition, s: State, input: string, column: string, v: Value, time: Option<int>, cutoff: int)
    requires d.expression == Ref(input) && ApplyOne(c, d, s).Some?
    requires s.table.lines == [Line(map[input := Number(v), column := Moment(time)], cutoff)]
    requires input in s.metadata && s.metadata[input].availability == Some(column) && input != column
    ensures ShowsInTime(ApplyOne(c, d, s).value.table, d.name, d.FeatureId(), v, time, cutoff)
  {
    hide Evaluate, Masked, ApplyOne;
    StepValue(c, d, s, 0);
    CopyValue(c.num, c.asTime, s.metadata, s.table.lines[0], input, column, v, time, cutoff);
  }

  lemma CopyAccepted(c: Context, d: Definition, s: State, input: string, column: string)
    requires d == CopyOf(d.name, d.content, input, d.unit) && UnitSignature(c.num, d.unit).Ok? && d.name !in c.reserved
    requires s.metadata == map[input := Metadata(d.unit, Historical, false, Some(column))]
    requires s.table.columns.Keys == {input, column} && s.table.columns[input] == Numeric
    ensures ApplyOne(c, d, s).Some? <==> c.cutoffs
    ensures c.cutoffs ==> ApplyOne(c, d, s).value.table.columns == s.table.columns[d.name := Numeric][d.FeatureId() := Numeric]
  {
    assert ValidDefinition(c.num, d, s.metadata);
    hide ValidDefinition, WithOutput;
    assert Bindable(d, s, c.cutoffs) <==> c.cutoffs;
  }

  lemma CopyValue(num: Numerics, asTime: Value -> Option<int>, metadata: map<string, Metadata>, line: Line, input: string,
                  column: string, v: Value, time: Option<int>, cutoff: int)
    requires input in metadata && metadata[input].availability == Some(column) && input != column
    requires line == Line(map[input := Number(v), column := Moment(time)], cutoff)
    ensures Evaluate(num, Ref(input), Masked(asTime, metadata, line))
         == if v.Fin? && time.Some? && time.value < cutoff then v else Nan
  {}
}
