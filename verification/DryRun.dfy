/** Which frames a plan can be fitted on, read off dates and instants alone, without fitting anything
    (ima/pipeline_graph.py, the raises of `build` and `forward_inputs`). */
module DryRun {
  import opened GraphValidation
  import opened CrossFitting

  // ---- one fold ----

  /** The training rows of the i-th fold. */
  function Past(plan: Plan, data: Frame, i: nat): Frame
    requires plan.splits > 0 && |Days(data)| >= plan.minDates + plan.splits && i < plan.splits
  {
    Before(data, FoldDays(plan, data, i)[0])
  }

  lemma FoldStart(plan: Plan, data: Frame, i: nat)
    requires plan.splits > 0 && |Days(data)| >= plan.minDates + plan.splits && i < plan.splits
    ensures var j := plan.minDates + SplitPoint(|Days(data)| - plan.minDates, plan.splits, i);
            j < |Days(data)| && FoldDays(plan, data, i)[0] == Days(data)[j]
  {
    hide SplitPoint, Days;
    SplitPointFacts(|Days(data)| - plan.minDates, plan.splits, i);
  }

  /** Everything before the i-th block, counted in days. */
  lemma FoldHistory(plan: Plan, data: Frame, i: nat)
    requires plan.splits > 0 && |Days(data)| >= plan.minDates + plan.splits && i < plan.splits
    ensures |Days(Past(plan, data, i))| == plan.minDates + SplitPoint(|Days(data)| - plan.minDates, plan.splits, i)
  {
    hide SplitPoint, Before, FoldDays, Days;
    FoldStart(plan, data, i);
    DaysBefore(data, plan.minDates + SplitPoint(|Days(data)| - plan.minDates, plan.splits, i));
  }

  lemma NoDays(data: Frame)
    ensures Days(data) == [] || data != []
  {}

  /** A scored block lies strictly after its training rows, so the artifact check never fires. */
  lemma FoldIsPastOnly(plan: Plan, data: Frame, i: nat)
    requires plan.splits > 0 && plan.minDates >= 1
    requires |Days(data)| >= plan.minDates + plan.splits && i < plan.splits
    ensures PastOnly(Past(plan, data, i), Within(data, FoldDays(plan, data, i)))
  {
    hide Days, Before, Within, FoldDays, SplitPoint;
    var block := FoldDays(plan, data, i);
    var training, scoring := Past(plan, data, i), Within(data, block);
    FoldHistory(plan, data, i);
    NoDays(training);
    BeforeMembers(data, block[0]);
    WithinMembers(data, block);
    BlockStarts(plan, data, i);
    DaysFacts(data);
    FoldStart(plan, data, i);
    assert block[0] in Days(data);
    var r :| r in data && Day(r) == block[0];
    assert r in scoring;
    forall a, b | a in training && b in scoring ensures a.stamp < b.stamp {
      EarlierDay(a, b);
    }
  }

  /** In a validated graph a learned stage has parents, and they can be predicted. */
  lemma LearnedParents(plan: Plan, key: Key)
    requires plan.Valid() && key in plan.nodes && LearnedStage(plan.nodes[key], plan.nodes)
    ensures plan.nodes[key].inputs != [] && !plan.nodes[key].kind.Estimator?
    ensures forall p :: p in plan.nodes[key].inputs ==> p in plan.nodes && Predictable(plan.nodes[p].output.kind)
  {
    hide Complete;
    assert StageOk(plan.nodes[key], plan.nodes);
    StageParents(plan.nodes[key], plan.nodes);
  }

  lemma StageParents(node: Node, nodes: Nodes)
    requires forall p :: p in node.inputs ==> p in nodes
    requires StageOk(node, nodes) && LearnedStage(node, nodes)
    ensures node.inputs != [] && !node.kind.Estimator?
    ensures forall p :: p in node.inputs ==> Predictable(nodes[p].output.kind)
  {
    var parents := Parents(node, nodes);
    forall p | p in node.inputs ensures Predictable(nodes[p].output.kind) {
      var i :| 0 <= i < |node.inputs| && node.inputs[i] == p;
      assert parents[i] in parents && parents[i] == nodes[p];
    }
  }

  // ---- the dry run ----

  ghost predicate Kept(plan: Plan, keys: seq<Key>, data: Frame, i: nat, bound: nat)
    requires plan.Valid() && Below(plan, keys, bound)
    requires |Days(data)| >= plan.minDates + plan.splits && i < plan.splits
  {
    !SkipFold(plan, keys, Past(plan, data, i), bound)
  }

  /** No node refuses its frame; every learned stage has a fold, and its inputs can be fitted on every
      fold it keeps. */
  ghost predicate Sufficient(plan: Plan, key: Key, data: Frame)
    requires plan.Valid() && key in plan.nodes
    decreases (assert key in plan.order; Rank(plan.order, key)), 1
  {
    InputsBelow(plan, key);
    var node := plan.nodes[key];
    && (forall p :: p in node.inputs ==> Sufficient(plan, p, data))
    && Refusal(plan, node, data).None?
    && (LearnedStage(node, plan.nodes) ==> Supported(plan, node.inputs, data, Rank(plan.order, key)))
  }

  ghost predicate Supported(plan: Plan, keys: seq<Key>, data: Frame, bound: nat)
    requires plan.Valid() && Below(plan, keys, bound)
    decreases bound, 0
  {
    && |Days(data)| >= plan.minDates + plan.splits
    && (exists i: nat :: i < plan.splits && Kept(plan, keys, data, i, bound))
    && (forall i: nat, p :: i < plan.splits && Kept(plan, keys, data, i, bound) && p in keys ==>
          Sufficient(plan, p, Past(plan, data, i)))
  }

  ghost predicate AllSufficient(plan: Plan, keys: seq<Key>, data: Frame)
    requires plan.Valid() && forall k :: k in keys ==> k in plan.nodes
  {
    forall p :: p in keys ==> Sufficient(plan, p, data)
  }

  /** A fit succeeds on exactly the frames that pass the dry run. */
  lemma {:induction false} FitExactly(plan: Plan, key: Key, data: Frame)
    requires plan.Valid() && key in plan.nodes
    ensures Fit(plan, key, data).Ok? <==> Sufficient(plan, key, data)
    decreases (assert key in plan.order; Rank(plan.order, key)), 4, 0
  {
    hide LearnedStage, StageOk, Complete, Forward, FitAll, Supported, Refusal;
    var node := plan.nodes[key];
    InputsBelow(plan, key);
    var bound := Rank(plan.order, key);
    FitAllExactly(plan, node.inputs, data, bound);
    assert AllSufficient(plan, node.inputs, data) <==> forall p :: p in node.inputs ==> Sufficient(plan, p, data);
    if LearnedStage(node, plan.nodes) {
      LearnedParents(plan, key);
      ForwardExactly(plan, node.inputs, data, bound);
    }
  }

  lemma {:induction false} FitAllExactly(plan: Plan, keys: seq<Key>, data: Frame, bound: nat)
    requires plan.Valid() && Below(plan, keys, bound)
    ensures FitAll(plan, keys, data, bound).Ok? <==> AllSufficient(plan, keys, data)
    decreases bound, 1, |keys|
  {
    if keys != [] {
      hide Sufficient, StageOk, Complete, Fit;
      assert keys[0] in keys && keys == [keys[0]] + keys[1..];
      FitExactly(plan, keys[0], data);
      FitAllExactly(plan, keys[1..], data, bound);
    }
  }

  lemma {:induction false} ForwardExactly(plan: Plan, keys: seq<Key>, data: Frame, bound: nat)
    requires plan.Valid() && Below(plan, keys, bound)
    requires forall p :: p in keys ==> Predictable(plan.nodes[p].output.kind)
    ensures Forward(plan, keys, data, bound).Ok? <==> Supported(plan, keys, data, bound)
    decreases bound, 3, 0
  {
    hide Folds, Kept, Sufficient, Days, StageOk, Complete, Below;
    if |Days(data)| >= plan.minDates + plan.splits {
      FoldsExactly(plan, keys, data, 0, bound);
    }
  }

  /** The folds from the i-th on succeed exactly when every one of them that is kept can be fitted. */
  lemma {:induction false} FoldsExactly(plan: Plan, keys: seq<Key>, data: Frame, i: nat, bound: nat)
    requires plan.Valid() && Below(plan, keys, bound)
    requires forall p :: p in keys ==> Predictable(plan.nodes[p].output.kind)
    requires |Days(data)| >= plan.minDates + plan.splits && i <= plan.splits
    ensures Folds(plan, keys, data, i, bound).Ok? <==>
            forall j: nat, p :: i <= j < plan.splits && Kept(plan, keys, data, j, bound) && p in keys ==>
              Sufficient(plan, p, Past(plan, data, j))
    ensures Folds(plan, keys, data, i, bound).Ok? ==>
            (Folds(plan, keys, data, i, bound).value != [] <==>
             exists j: nat :: i <= j < plan.splits && Kept(plan, keys, data, j, bound))
    decreases bound, 2, plan.splits - i
  {
    hide Sufficient, PastOnly, SkipFold, FoldDays, Predictable, Models, Days, Before, Within, StageOk, Complete, Below;
    if i < plan.splits {
      hide Folds;
      FoldsExactly(plan, keys, data, i + 1, bound);
      if Kept(plan, keys, data, i, bound) {
        FoldIsPastOnly(plan, data, i);
        ModelsExactly(plan, keys, Past(plan, data, i), Within(data, FoldDays(plan, data, i)), bound);
        KeepStep(plan, keys, data, i, bound);
      } else {
        SkipStep(plan, keys, data, i, bound);
      }
    }
  }

  lemma {:induction false} ModelsExactly(plan: Plan, keys: seq<Key>, training: Frame, scoring: Frame, bound: nat)
    requires plan.Valid() && Below(plan, keys, bound) && PastOnly(training, scoring)
    requires forall p :: p in keys ==> Predictable(plan.nodes[p].output.kind)
    ensures Models(plan, keys, training, scoring, bound).Ok? <==> AllSufficient(plan, keys, training)
    decreases bound, 1, |keys|
  {
    if keys != [] {
      hide Sufficient, PastOnly, StageOk, Complete, Fit;
      assert keys[0] in keys && keys == [keys[0]] + keys[1..];
      FitExactly(plan, keys[0], training);
      ModelsExactly(plan, keys[1..], training, scoring, bound);
    }
  }
}
