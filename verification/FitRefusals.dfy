/** What a node's configuration and frame make `build` refuse, said of the graph itself (ima/pipeline_graph.py). */
module FitRefusals {
  import opened GraphValidation
  import opened CrossFitting
  import opened DryRun
  import opened HistoryFacts

  /** The columns a node works on: the whole schema, or what its feature view names. */
  function ColumnsRead(plan: Plan, node: Node): seq<Column>
    requires node.inputs != [] ==> node.inputs[0] in plan.nodes
  {
    var chooser := if node.kind.FeatureView? || node.inputs == [] then node else plan.nodes[node.inputs[0]];
    if node.kind.Estimator? && node.inputs == [] then plan.schema
    else match chooser.parameters.features
      case Some(columns) => columns
      case None => plan.schema
  }

  predicate ReadsMarket(plan: Plan, node: Node)
    requires node.inputs != [] ==> node.inputs[0] in plan.nodes
  {
    exists c | c in ColumnsRead(plan, node) :: c.currentMarket
  }

  /** An estimator the library fits itself. */
  predicate Native(plan: Plan, node: Node) {
    node.kind.Estimator? && node.id !in plan.factories
  }

  /** The reasons, each in its own words. */
  ghost predicate Blame(plan: Plan, node: Node, e: FitError)
    requires node.inputs != [] ==> node.inputs[0] in plan.nodes
  {
    match e
    case BadFeatureView => node.kind.FeatureView? && !(ColumnsRead(plan, node) != [] && forall c :: c in ColumnsRead(plan, node) ==> c in plan.schema)
    case MarketFeature => node.kind.Estimator? && !node.output.market && ReadsMarket(plan, node)
    case UnsupportedOptions => Native(plan, node) && node.parameters.stray
    case NeedsFactory =>
      Native(plan, node) && !node.parameters.probit
      && node.output.kind !in {WinProbability, RankingScore, PointPrediction, PerformanceDistribution}
    case ShortResidualWindow => Native(plan, node) && !node.parameters.probit && node.output.kind == PerformanceDistribution
    case _ => false
  }

  const STANDING: set<FitError> := {BadFeatureView, MarketFeature, UnsupportedOptions, NeedsFactory}

  /** A node is refused only for a reason it gives, and not refused only if it gives none. */
  lemma RefusalExactly(plan: Plan, node: Node, data: Frame)
    requires node.inputs != [] ==> node.inputs[0] in plan.nodes
    ensures Refusal(plan, node, data).None? <==>
            && (forall e :: e in STANDING ==> !Blame(plan, node, e))
            && (Blame(plan, node, ShortResidualWindow) ==> StampCount(data) >= 2)
    ensures Refusal(plan, node, data).Some? ==>
            && Blame(plan, node, Refusal(plan, node, data).value)
            && (Refusal(plan, node, data) == Some(ShortResidualWindow) ==> StampCount(data) < 2)
    ensures Refusal(plan, node, data) == Some(MarketFeature) <==> Blame(plan, node, MarketFeature)
  {
    hide StampCount;
    assert BadFeatureView in STANDING && MarketFeature in STANDING && UnsupportedOptions in STANDING && NeedsFactory in STANDING;
  }

  /** What a successful fit shows of its whole ancestry: no estimator whose output is not market reads a market column,
      no view names an unknown column, no option is unknown, no factory missing, and no residual window was too short. */
  lemma FittedIsClean(plan: Plan, key: Key, data: Frame, a: Key)
    requires plan.Valid() && key in plan.nodes && Fit(plan, key, data).Ok? && Ancestor(plan.nodes, key, a)
    ensures a in plan.nodes && (forall e :: e in STANDING ==> !Blame(plan, plan.nodes[a], e))
    ensures plan.nodes[a].kind.Estimator? && !plan.nodes[a].output.market ==> !ReadsMarket(plan, plan.nodes[a])
    ensures Blame(plan, plan.nodes[a], ShortResidualWindow) ==> StampCount(data) >= 2
  {
    hide Blame, Refusal, Fit, StageOk, Complete, Ancestor, StampCount, Supported, ReadsMarket;
    FitExactly(plan, key, data);
    AncestorSufficient(plan, key, a, data);
    RefusalExactly(plan, plan.nodes[a], data);
    MarketBlame(plan, plan.nodes[a]);
  }

  lemma MarketBlame(plan: Plan, node: Node)
    requires node.inputs != [] ==> node.inputs[0] in plan.nodes
    ensures MarketFeature in STANDING
    ensures Blame(plan, node, MarketFeature) <==> node.kind.Estimator? && !node.output.market && ReadsMarket(plan, node)
  {
    hide ReadsMarket;
  }

  /** Some ancestor gives the reason. */
  ghost predicate Blamed(plan: Plan, key: Key, e: FitError)
    requires plan.Valid()
  {
    exists a :: a in plan.nodes && Ancestor(plan.nodes, key, a) && Blame(plan, plan.nodes[a], e)
  }

  /** The errors of `forward_inputs` and the budget; the others are refusals of a node. */
  predicate OfTheRun(e: FitError) {
    e in {InsufficientHistory, NoSafeRows, FutureTrained, UnsupportedOutput, BudgetExhausted}
  }

  lemma BlamedThroughInput(plan: Plan, key: Key, p: Key, e: FitError)
    requires plan.Valid() && key in plan.nodes && p in plan.nodes[key].inputs && Blamed(plan, p, e)
    ensures Blamed(plan, key, e)
  {
    hide Blame, Complete, StageOk, Ancestor;
    var a :| a in plan.nodes && Ancestor(plan.nodes, p, a) && Blame(plan, plan.nodes[a], e);
    StepAncestor(plan.nodes, key, p, a);
  }

  /** A refused fit names a node of the ancestry that gives the reason: in particular a market estimator is never
      refused for a market column. */
  lemma {:induction false} RefusedForCause(plan: Plan, key: Key, data: Frame)
    requires plan.Valid() && key in plan.nodes && Fit(plan, key, data).Err?
    ensures var e := Fit(plan, key, data).error; OfTheRun(e) || Blamed(plan, key, e)
    decreases (assert key in plan.order; Rank(plan.order, key)), 4, 0
  {
    hide Blame, Refusal, FitAll, Forward, LearnedStage, StageOk, Complete, Ancestor, OfTheRun;
    var node := plan.nodes[key];
    InputsBelow(plan, key);
    var bound := Rank(plan.order, key);
    if FitAll(plan, node.inputs, data, bound).Err? {
      var p := AllForCause(plan, node.inputs, data, bound);
      if Blamed(plan, p, Fit(plan, key, data).error) { BlamedThroughInput(plan, key, p, Fit(plan, key, data).error); }
    } else if Refusal(plan, node, data).Some? {
      RefusalExactly(plan, node, data);
      SelfAncestor(plan.nodes, key);
    } else {
      var p := ForwardForCause(plan, node.inputs, data, bound);
      if p.Some? { BlamedThroughInput(plan, key, p.value, Fit(plan, key, data).error); }
    }
  }

  lemma {:induction false} AllForCause(plan: Plan, keys: seq<Key>, data: Frame, bound: nat) returns (p: Key)
    requires plan.Valid() && Below(plan, keys, bound) && FitAll(plan, keys, data, bound).Err?
    ensures p in keys && (OfTheRun(FitAll(plan, keys, data, bound).error) || Blamed(plan, p, FitAll(plan, keys, data, bound).error))
    decreases bound, 1, |keys|
  {
    hide Fit, StageOk, Complete, OfTheRun, Blamed;
    assert keys[0] in keys;
    if Fit(plan, keys[0], data).Err? {
      p := keys[0];
      RefusedForCause(plan, p, data);
    } else {
      p := AllForCause(plan, keys[1..], data, bound);
    }
  }

  lemma {:induction false} ForwardForCause(plan: Plan, keys: seq<Key>, data: Frame, bound: nat) returns (p: Option<Key>)
    requires plan.Valid() && Below(plan, keys, bound) && Forward(plan, keys, data, bound).Err?
    ensures p.None? ==> OfTheRun(Forward(plan, keys, data, bound).error)
    ensures p.Some? ==> p.value in keys && Blamed(plan, p.value, Forward(plan, keys, data, bound).error)
    decreases bound, 3, 0
  {
    hide Folds, Blamed, Days, StageOk, Complete;
    if |Days(data)| >= plan.minDates + plan.splits && Folds(plan, keys, data, 0, bound).Err? {
      p := FoldsForCause(plan, keys, data, 0, bound);
    } else {
      p := None;
    }
  }

  lemma {:induction false} FoldsForCause(plan: Plan, keys: seq<Key>, data: Frame, i: nat, bound: nat) returns (p: Option<Key>)
    requires plan.Valid() && Below(plan, keys, bound)
    requires |Days(data)| >= plan.minDates + plan.splits && i <= plan.splits && Folds(plan, keys, data, i, bound).Err?
    ensures p.None? ==> OfTheRun(Folds(plan, keys, data, i, bound).error)
    ensures p.Some? ==> p.value in keys && Blamed(plan, p.value, Folds(plan, keys, data, i, bound).error)
    decreases bound, 2, plan.splits - i
  {
    hide Blamed, Days, StageOk, Complete, Models, SkipFold, FoldDays, Before, Within, OfTheRun;
    assert i < plan.splits;
    hide Folds;
    var block := FoldDays(plan, data, i);
    var training, scoring := Before(data, block[0]), Within(data, block);
    if SkipFold(plan, keys, training, bound) {
      SkipStep(plan, keys, data, i, bound);
      p := FoldsForCause(plan, keys, data, i + 1, bound);
    } else {
      KeepStep(plan, keys, data, i, bound);
      if Models(plan, keys, training, scoring, bound).Err? {
        p := ModelsForCause(plan, keys, training, scoring, bound);
      } else {
        p := FoldsForCause(plan, keys, data, i + 1, bound);
      }
    }
  }

  lemma {:induction false} ModelsForCause(plan: Plan, keys: seq<Key>, training: Frame, scoring: Frame, bound: nat) returns (p: Option<Key>)
    requires plan.Valid() && Below(plan, keys, bound) && Models(plan, keys, training, scoring, bound).Err?
    ensures p.None? ==> OfTheRun(Models(plan, keys, training, scoring, bound).error)
    ensures p.Some? ==> p.value in keys && Blamed(plan, p.value, Models(plan, keys, training, scoring, bound).error)
    decreases bound, 1, |keys|
  {
    hide Fit, Blamed, PastOnly, StageOk, Complete;
    assert keys[0] in keys;
    if Fit(plan, keys[0], training).Err? {
      RefusedForCause(plan, keys[0], training);
      p := if OfTheRun(Fit(plan, keys[0], training).error) then None else Some(keys[0]);
    } else if !Predictable(plan.nodes[keys[0]].output.kind) || !PastOnly(training, scoring) {
      p := None;
    } else {
      p := ModelsForCause(plan, keys[1..], training, scoring, bound);
    }
  }
}
