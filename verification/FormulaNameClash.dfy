/** A formula may be named after an availability column that the frame lacks, and then decides what counts as available
    (ima/feature_definitions.py, `evaluate_formulas`). */
module FormulaNameClash {
  import opened UnitSignatures
  import opened FeatureExpressions
  import opened FormulaScheduling
  import opened FormulaEvaluation

  // ---- two formulas: a constant named like the availability column, and a copy of the tracked input ----

  function Zero(name: string, content: string): Definition {
    Definition(name, content, {}, {}, Constant(0.0), UnitTree.One)
  }

  function Copy(name: string, content: string, input: string, unit: UnitTree, parent: string): Definition {
    Definition(name, content, {input}, {parent}, Ref(input), unit)
  }

  /** One row, its cutoff just after the epoch; the frame has the input but not its availability column. */
  function OneRow(input: string, x: real): Table {
    Table(map[input := Numeric], [Line(map[input := Number(Fin(x))], 1)])
  }

  lemma PairRounds(a: Definition, b: Definition, known: set<string>)
    requires a.inputs == {} && a.parents == {} && b.parents == {a.content} && b.inputs <= known
    ensures Rounds([a, b], known, {}) == Some([a, b])
  {
    var pending := [a, b];
    assert pending[1..] == [b] && [b][1..] == [];
    assert Ready(a, known, {}) && !Ready(b, known, {});
    assert Sift([b], known, {}, true) == [] && Sift([b], known, {}, false) == [b];
    assert Sift(pending, known, {}, true) == [a] && Sift(pending, known, {}, false) == [b];
    OneListed(a);
    OneListed(b);
    var later := known + ProducedBy([a]);
    assert Ready(b, later, {} + ContentsOf([a]));
    assert Rounds([b], later, {} + ContentsOf([a])) == Some([b]) by {
      assert Sift([b], later, {} + ContentsOf([a]), true) == [b] && Sift([b], later, {} + ContentsOf([a]), false) == [];
      assert [b] + [] == [b];
    }
    assert [a] + [b] == [a, b];
  }

  lemma OneListed(d: Definition)
    ensures SortByName([d]) == [d] && ContentsOf([d]) == {d.content} && ProducedBy([d]) == d.Produces()
  {
    assert [d][1..] == [] && [d][..0] == [];
    assert SortByName([]) == [];
  }

  /** Names far enough from everything in use. */
  ghost predicate FreshNames(metadata: map<string, Metadata>, column: string, z: string, p: string, q: string) {
    && z !in metadata && z != column && p != q
    && Zero(column, p).FeatureId() !in metadata && Zero(column, p).FeatureId() !in {column, z}
    && Zero(column, q).FeatureId() !in Tracking(metadata) && z !in Tracking(metadata)
    && Zero(column, p).FeatureId() !in Tracking(metadata)
  }

  lemma ZeroRuns(c: Context, metadata: map<string, Metadata>, input: string, column: string, p: string, x: real)
    requires input in metadata && column !in metadata && Zero(column, p).FeatureId() != input
    requires column !in c.reserved
    ensures ApplyOne(c, Zero(column, p), State(OneRow(input, x), metadata)).Some?
    ensures var s := ApplyOne(c, Zero(column, p), State(OneRow(input, x), metadata)).value;
            && s.metadata == Known(Zero(column, p), metadata)
            && s.table.columns.Keys == {input, column, Zero(column, p).FeatureId()} && s.table.columns[input] == Numeric
            && |s.table.lines| == 1 && s.table.lines[0].cutoff == 1
            && NumberAt(s.table.lines[0], input) == Fin(x)
            && TimeAt(c.asTime, s.table.lines[0], column) == c.asTime(Fin(0.0))
  {
    var d, s := Zero(column, p), State(OneRow(input, x), metadata);
    assert TypeOf(c.num, metadata, d.expression) == Ok(DIMENSIONLESS);
    assert UnitSignature(c.num, UnitTree.One) == Ok(DIMENSIONLESS);
    assert ValidDefinition(c.num, d, metadata);
    assert Computed(c, d, metadata, s.table.lines[0]) == Fin(0.0);
    hide ValidDefinition, Computed;
    assert Bindable(d, s, c.cutoffs);
    assert ApplyOne(c, d, s) == Some(Extended(c, d, s));
  }

  /** The copy reads the tracked input although nothing says that it was available. */
  lemma CopyRuns(c: Context, d: Definition, s: State, input: string, column: string, x: real)
    requires input in s.metadata && d.unit == s.metadata[input].unit && s.metadata[input].availability == Some(column)
    requires d.inputs == {input} && d.expression == Ref(input)
    requires TypeOfRef(c.num, s.metadata, input).Ok? && d.name !in c.reserved && c.cutoffs
    requires input in s.table.columns && s.table.columns[input] == Numeric && column in s.table.columns
    requires |s.table.lines| == 1 && s.table.lines[0].cutoff == 1 && NumberAt(s.table.lines[0], input) == Fin(x)
    requires TimeAt(c.asTime, s.table.lines[0], column) == Some(0)
    ensures ApplyOne(c, d, s).Some?
    ensures var t := ApplyOne(c, d, s).value.table;
            |t.lines| == 1 && NumberAt(t.lines[0], d.FeatureId()) == Fin(x)
  {
    assert ValidDefinition(c.num, d, s.metadata);
    assert Computed(c, d, s.metadata, s.table.lines[0]) == Fin(x);
  }

  /** The leak: the run succeeds and the copy holds the unavailable value. */
  lemma LeakyRun(num: Numerics, asTime: Value -> Option<int>, metadata: map<string, Metadata>, input: string, column: string,
                 z: string, p: string, q: string, x: real)
    requires asTime(Fin(0.0)) == Some(0) && column !in metadata
    requires input in metadata && metadata[input].availability == Some(column) && TypeOfRef(num, metadata, input).Ok?
    requires FreshNames(metadata, column, z, p, q)
    ensures var copy := Copy(z, q, input, metadata[input].unit, p);
            var r := Formulas(num, asTime, true, [Zero(column, p), copy], State(OneRow(input, x), metadata));
            && r.Some? && |r.value.table.lines| == 1 && NumberAt(r.value.table.lines[0], copy.FeatureId()) == Fin(x)
  {
    hide Rounds, ApplyOne, NumberAt;
    var zero, copy := Zero(column, p), Copy(z, q, input, metadata[input].unit, p);
    var s := State(OneRow(input, x), metadata);
    var c := Start(num, asTime, true, s);
    assert input != column && z != input;
    PairRounds(zero, copy, metadata.Keys);
    ZeroRuns(c, metadata, input, column, p, x);
    var t := ApplyOne(c, zero, s).value;
    assert t.metadata[input] == metadata[input];
    CopyRuns(c, copy, t, input, column, x);
    ApplyTwo(c, zero, copy, s);
    assert DistinctDefinitions([zero, copy]);
  }

  lemma ApplyTwo(c: Context, a: Definition, b: Definition, s: State)
    requires ApplyOne(c, a, s).Some?
    ensures ApplyAll(c, [a, b], s) == ApplyOne(c, b, ApplyOne(c, a, s).value)
  {
    hide ApplyOne;
    assert [a, b][1..] == [b] && [b][1..] == [];
    assert ApplyAll(c, [b], ApplyOne(c, a, s).value) == ApplyOne(c, b, ApplyOne(c, a, s).value);
  }

  /** A number within the first nanosecond reads as the epoch. */
  ghost predicate ReadsEpoch(asTime: Value -> Option<int>) {
    asTime(Fin(0.0)) == Some(0) && asTime(Fin(0.25)) == Some(0)
  }

  /** Two frames that differ only in an input that nobody knew to be available give different features. */
  lemma NameClashLeaks(num: Numerics, asTime: Value -> Option<int>, metadata: map<string, Metadata>, input: string, column: string,
                       z: string, p: string, q: string)
    requires ReadsEpoch(asTime) && column !in metadata
    requires input in metadata && metadata[input].availability == Some(column) && TypeOfRef(num, metadata, input).Ok?
    requires FreshNames(metadata, column, z, p, q)
    ensures TablesAgree(asTime, metadata, OneRow(input, 0.0), OneRow(input, 0.25))
    ensures !SameOutcome(num, asTime, true, [Zero(column, p), Copy(z, q, input, metadata[input].unit, p)], metadata,
                         OneRow(input, 0.0), OneRow(input, 0.25))
  {
    hide Formulas, Tracking;
    OneRowsAgree(asTime, metadata, input, column);
    var ds := [Zero(column, p), Copy(z, q, input, metadata[input].unit, p)];
    LeakyRun(num, asTime, metadata, input, column, z, p, q, 0.0);
    LeakyRun(num, asTime, metadata, input, column, z, p, q, 0.25);
    assert ds[1] in ds;
  }

  lemma OneRowsAgree(asTime: Value -> Option<int>, metadata: map<string, Metadata>, input: string, column: string)
    requires ReadsEpoch(asTime) && column !in metadata
    requires input in metadata && metadata[input].availability == Some(column)
    ensures TablesAgree(asTime, metadata, OneRow(input, 0.0), OneRow(input, 0.25))
  {
    var a, b := OneRow(input, 0.0).lines[0], OneRow(input, 0.25).lines[0];
    forall name | name in metadata && Available(asTime, metadata[name], a) ensures NumberAt(a, name) == NumberAt(b, name) {
      assert name != input;
    }
    assert AgreeAsOf(asTime, metadata, a, b);
  }

  // ---- exactly the names that track nothing are safe ----

  lemma {:induction false} LongerThan(s: set<string>) returns (n: nat)
    ensures forall x :: x in s ==> |x| < n
  {
    n := 0;
    var rest := s;
    while rest != {}
      invariant rest <= s && forall x :: x in s - rest ==> |x| < n
    {
      var x :| x in rest;
      n := if |x| < n then n else |x| + 1;
      rest := rest - {x};
    }
  }

  function Filler(n: nat): string { seq(n, _ => 'f') }

  lemma FreshExist(metadata: map<string, Metadata>, column: string) returns (z: string, p: string, q: string)
    ensures FreshNames(metadata, column, z, p, q)
  {
    var n := LongerThan(metadata.Keys + Tracking(metadata) + {column});
    z, p, q := Filler(n), Filler(n + 1), Filler(n + 2);
    assert |z| == n && |p| == n + 1 && |q| == n + 2;
    assert |Zero(column, p).FeatureId()| == n + 5 && |Zero(column, q).FeatureId()| == n + 6;
  }

  /** Among the availability columns, these definitions write at most this one. */
  ghost predicate WritesOnly(definitions: seq<Definition>, metadata: map<string, Metadata>, column: string) {
    forall d :: d in definitions ==> d.Produces() * Tracking(metadata) <= {column}
  }

  /** Every run whose formulas write no availability column but this name is point-in-time exactly when no known
      input is tracked by the name. */
  lemma NameClashExactly(num: Numerics, asTime: Value -> Option<int>, metadata: map<string, Metadata>, column: string)
    requires ReadsEpoch(asTime) && column !in metadata
    requires forall name :: name in metadata && metadata[name].availability == Some(column) ==> TypeOfRef(num, metadata, name).Ok?
    ensures column !in Tracking(metadata) <==>
            forall definitions, a, b :: WritesOnly(definitions, metadata, column) && TablesAgree(asTime, metadata, a, b) ==>
              SameOutcome(num, asTime, true, definitions, metadata, a, b)
  {
    hide SameOutcome, TablesAgree, TypeOfRef, ReadsEpoch;
    if column in Tracking(metadata) {
      var input :| input in metadata && metadata[input].availability.Some? && metadata[input].availability.value == column;
      var z, p, q := FreshExist(metadata, column);
      NameClashLeaks(num, asTime, metadata, input, column, z, p, q);
      var definitions := [Zero(column, p), Copy(z, q, input, metadata[input].unit, p)];
      assert WritesOnly(definitions, metadata, column);
    } else {
      forall definitions, a, b | WritesOnly(definitions, metadata, column) && TablesAgree(asTime, metadata, a, b)
        ensures SameOutcome(num, asTime, true, definitions, metadata, a, b)
      {
        WritesNone(definitions, metadata, column);
        PointInTimeOutputs(num, asTime, true, definitions, metadata, a, b);
      }
    }
  }

  lemma WritesNone(definitions: seq<Definition>, metadata: map<string, Metadata>, column: string)
    requires WritesOnly(definitions, metadata, column) && column !in Tracking(metadata)
    ensures NoClash(definitions, metadata)
  {
    hide Tracking;
    forall d | d in definitions ensures d.Produces() !! Tracking(metadata) {
      var common := d.Produces() * Tracking(metadata);
      assert common <= {column};
      assert forall x :: x in common ==> x == column && x in Tracking(metadata);
      assert common == {};
    }
  }

  /** A build whose parent has every availability column is always point-in-time: the lifecycle refuses outputs that
      the parent already has. */
  lemma SuppliedBuildsPointInTime(c: Context, definitions: seq<Definition>, metadata: map<string, Metadata>, a: Table, b: Table,
                                  allowed: Definition -> bool)
    requires Supplied(State(a, metadata), c.cutoffs) && TablesAgree(c.asTime, metadata, a, b)
    requires forall d :: d in definitions && allowed(d) ==> d.Produces() !! a.columns.Keys
    requires DistinctDefinitions(definitions) && Accepted(c.num, definitions, {}, metadata, allowed).Some?
    ensures SameOutcome(c.num, c.asTime, c.cutoffs, definitions, metadata, a, b)
  {
    hide TablesAgree, SameOutcome, ValidDefinition, CheckAll, Rounds;
    RoundsFollow(definitions, metadata.Keys, {});
    var order := Rounds(definitions, metadata.Keys, {}).value;
    CheckedAllowed(c.num, order, metadata, allowed);
    assert NoClash(definitions, metadata);
    PointInTimeOutputs(c.num, c.asTime, c.cutoffs, definitions, metadata, a, b);
  }

  lemma {:induction false} CheckedAllowed(num: Numerics, order: seq<Definition>, metadata: map<string, Metadata>, allowed: Definition -> bool)
    requires CheckAll(num, order, metadata, allowed)
    ensures forall d :: d in order ==> allowed(d)
  {
    hide ValidDefinition, Known;
    if order != [] {
      CheckedAllowed(num, order[1..], Known(order[0], metadata), allowed);
      assert order == [order[0]] + order[1..];
    }
  }
}
