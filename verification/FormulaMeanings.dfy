/** When a run of formulas is accepted, and what it leaves alone (ima/feature_definitions.py, `evaluate_formulas`). */
module FormulaMeanings {
  import opened UnitSignatures
  import opened FeatureExpressions
  import opened FormulaScheduling
  import opened FormulaEvaluation

  /** The expression is small enough and well typed, reads exactly the declared inputs, and has the declared unit. */
  ghost predicate Sound(num: Numerics, d: Definition, metadata: map<string, Metadata>) {
    && Size(d.expression) <= 256 && Height(d.expression) <= 24
    && (forall name :: name in d.inputs <==> name in Refs(d.expression))
    && TypeOf(num, metadata, d.expression).Ok?
    && UnitSignature(num, d.unit).Ok? && UnitSignature(num, d.unit).value == TypeOf(num, metadata, d.expression).value
  }

  /** Its inputs are numeric columns with metadata, and the availability columns and cutoffs of tracked ones are there. */
  ghost predicate Supplied(d: Definition, s: State, cutoffs: bool) {
    forall name :: name in d.inputs ==>
      && name in s.table.columns && s.table.columns[name] == Numeric && name in s.metadata
      && forall column :: s.metadata[name].availability == Some(column) ==> cutoffs && column in s.table.columns
  }

  lemma SoundExactly(num: Numerics, d: Definition, metadata: map<string, Metadata>)
    ensures ValidDefinition(num, d, metadata) <==> Sound(num, d, metadata)
  {
    hide Size, Height, Refs, TypeOf, UnitSignature;
    assert (forall name :: name in d.inputs <==> name in Refs(d.expression)) <==> Refs(d.expression) == d.inputs;
  }

  /** A step goes through exactly for a new name, a sound definition and supplied inputs. Its outputs are then known as
      untracked pre-race columns of the declared unit, so later formulas may read them. */
  lemma StepExactly(c: Context, d: Definition, s: State)
    ensures ApplyOne(c, d, s).Some? <==> d.name !in c.reserved && Sound(c.num, d, s.metadata) && Supplied(d, s, c.cutoffs)
    ensures ApplyOne(c, d, s).Some? ==>
              var known := ApplyOne(c, d, s).value.metadata;
              && known.Keys == s.metadata.Keys + {d.name, "dfs_" + d.content}
              && (forall name :: name in {d.name, "dfs_" + d.content} ==>
                    known[name].unit == d.unit && known[name].scope == PreRace && !known[name].targetTainted && known[name].availability == None)
              && forall name :: name in s.metadata && name !in {d.name, "dfs_" + d.content} ==> known[name] == s.metadata[name]
  {
    hide Sound, ValidDefinition, WithOutput;
    SoundExactly(c.num, d, s.metadata);
  }

  lemma {:induction false} EveryStep(c: Context, order: seq<Definition>, s: State)
    ensures ApplyAll(c, order, s).Some? <==>
              forall k :: 0 <= k < |order| ==> ApplyAll(c, order[..k], s).Some? && ApplyOne(c, order[k], ApplyAll(c, order[..k], s).value).Some?
  {
    hide ApplyOne, ApplyAll;
    if order == [] {
      EmptyRun(c, order, s);
    } else {
      var n := |order| - 1;
      EveryStep(c, order[..n], s);
      assert order == order[..n] + [order[n]];
      ApplyAppend(c, order[..n], [order[n]], s);
      if ApplyAll(c, order[..n], s).Some? { OneStep(c, order[n], ApplyAll(c, order[..n], s).value); }
      forall k | 0 <= k < n ensures order[..n][..k] == order[..k] && order[..n][k] == order[k] {}
    }
  }

  lemma EmptyRun(c: Context, order: seq<Definition>, s: State)
    requires order == []
    ensures ApplyAll(c, order, s) == Some(s)
  {}

  lemma OneStep(c: Context, d: Definition, s: State)
    ensures ApplyAll(c, [d], s) == ApplyOne(c, d, s)
  {
    hide ApplyOne;
    assert [d][1..] == [];
  }

  /** A run is accepted exactly when the definitions are distinct and can be scheduled, none takes the name of a column
      or of a known input, and each is sound and supplied with its inputs when its turn comes. */
  lemma RunExactly(num: Numerics, asTime: Value -> Option<int>, cutoffs: bool, definitions: seq<Definition>, s: State)
    ensures Formulas(num, asTime, cutoffs, definitions, s).Some? <==>
              && DistinctDefinitions(definitions) && Rounds(definitions, s.metadata.Keys, {}).Some?
              && var c, order := Start(num, asTime, cutoffs, s), Rounds(definitions, s.metadata.Keys, {}).value;
                 forall k :: 0 <= k < |order| ==>
                   && order[k].name !in s.table.columns && order[k].name !in s.metadata
                   && ApplyAll(c, order[..k], s).Some?
                   && Sound(num, order[k], ApplyAll(c, order[..k], s).value.metadata)
                   && Supplied(order[k], ApplyAll(c, order[..k], s).value, cutoffs)
  {
    hide ApplyOne, ApplyAll, Rounds, DistinctDefinitions, Sound, Supplied;
    var order := Rounds(definitions, s.metadata.Keys, {});
    if order.Some? {
      var c := Start(num, asTime, cutoffs, s);
      EveryStep(c, order.value, s);
      forall k | 0 <= k < |order.value| && ApplyAll(c, order.value[..k], s).Some?
        ensures ApplyOne(c, order.value[k], ApplyAll(c, order.value[..k], s).value).Some? <==>
                  && order.value[k].name !in s.table.columns && order.value[k].name !in s.metadata
                  && Sound(num, order.value[k], ApplyAll(c, order.value[..k], s).value.metadata)
                  && Supplied(order.value[k], ApplyAll(c, order.value[..k], s).value, cutoffs)
      {
        StepExactly(c, order.value[k], ApplyAll(c, order.value[..k], s).value);
      }
    }
  }
}
