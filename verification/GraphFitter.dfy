/** The memoised, budgeted builder (ima/pipeline_graph.py, `build` and `forward_inputs` as they run). */
module GraphFitter {
  import opened GraphValidation
  import opened CrossFitting

  /** What the memo is keyed by: the component without its name, the frame, and the factory identity
      when custom factories are in use. */
  datatype Signature = Signature(spec: Node, data: Frame, factory: Option<Key>)

  function SignatureOf(plan: Plan, key: Key, data: Frame): Signature
    requires key in plan.nodes
  {
    Signature(Spec(plan.nodes[key]), data, if plan.factories != {} then Some(plan.nodes[key].id) else None)
  }

  predicate NeedsFit(plan: Plan, s: Signature) {
    s.spec.kind.Estimator? || LearnedStage(s.spec, plan.nodes)
  }

  function Then<T>(done: seq<T>, rest: Result<seq<T>>): Result<seq<T>> {
    if rest.Ok? then Ok(done + rest.value) else rest
  }

  lemma ThenCons<T>(done: seq<T>, x: T, rest: Result<seq<T>>)
    ensures Then(done, Cons(x, rest)) == Then(done + [x], rest)
  {
    if rest.Ok? {
      assert done + ([x] + rest.value) == (done + [x]) + rest.value;
    }
  }

  lemma ThenNothing<T>(done: seq<T>, rest: Result<seq<T>>)
    ensures Then([], rest) == rest && Then(done, Ok([])) == Ok(done)
  {
    assert done + [] == done;
    if rest.Ok? { assert [] + rest.value == rest.value; }
  }

  /** Node names agree with the names they are stored under. */
  ghost predicate Named(plan: Plan) {
    forall k :: k in plan.nodes ==> plan.nodes[k].id == k
  }

  /** Two names with the same signature are fitted identically, so sharing a memo entry is harmless. */
  lemma SameSignatureSameFit(plan: Plan, a: Key, b: Key, data: Frame)
    requires plan.Valid() && Named(plan) && a in plan.nodes && b in plan.nodes
    requires SignatureOf(plan, a, data) == SignatureOf(plan, b, data)
    ensures Fit(plan, a, data) == Fit(plan, b, data)
  {
    hide StageOk, Complete, FitAll, Forward, Refusal, LearnedStage;
    InputsBelow(plan, a);
    InputsBelow(plan, b);
    var x, y := plan.nodes[a], plan.nodes[b];
    SameSpec(plan, x, y, data);
    BoundIrrelevant(plan, x.inputs, data, Rank(plan.order, a), Rank(plan.order, b));
    FitFrom(plan, a, data);
    FitFrom(plan, b, data);
  }

  /** Nothing but the name differs, and the name only matters where factories go by it. */
  lemma SameSpec(plan: Plan, x: Node, y: Node, data: Frame)
    requires Spec(x) == Spec(y) && (plan.factories != {} ==> x.id == y.id)
    requires x.inputs != [] ==> x.inputs[0] in plan.nodes
    ensures x.inputs == y.inputs && x.kind == y.kind && FactoryOf(plan, x) == FactoryOf(plan, y)
    ensures LearnedStage(x, plan.nodes) == LearnedStage(y, plan.nodes) && Refusal(plan, x, data) == Refusal(plan, y, data)
  {
    assert x.inputs == Spec(x).inputs == y.inputs;
    assert x.kind == Spec(x).kind == y.kind && x.output == Spec(x).output == y.output;
    assert x.parameters == Spec(x).parameters == y.parameters;
    if plan.factories != {} {
      assert x == y;
    }
  }

  /** A fit in terms of the fits of its inputs. */
  lemma FitFrom(plan: Plan, key: Key, data: Frame)
    requires plan.Valid() && key in plan.nodes
    ensures key in plan.order && Below(plan, plan.nodes[key].inputs, Rank(plan.order, key))
    ensures var node, bound := plan.nodes[key], Rank(plan.order, key);
            var parents, blocks := FitAll(plan, node.inputs, data, bound), Forward(plan, node.inputs, data, bound);
            Fit(plan, key, data)
            == if parents.Err? then Err(parents.error)
               else if Refusal(plan, node, data).Some? then Err(Refusal(plan, node, data).value)
               else if node.kind.Estimator? then Ok(Fitted(Spec(node), parents.value, FitOn(FactoryOf(plan, node), data)))
               else if !LearnedStage(node, plan.nodes) then Ok(Fitted(Spec(node), parents.value, NoState))
               else if blocks.Err? then Err(blocks.error)
               else Ok(Fitted(Spec(node), parents.value, FitForward(blocks.value)))
  {
    hide StageOk, Complete, FitAll, Forward, Refusal, LearnedStage, FactoryOf, Spec;
    InputsBelow(plan, key);
  }

  lemma {:induction false} FitAllBound(plan: Plan, keys: seq<Key>, data: Frame, b: nat, b': nat)
    requires plan.Valid() && Below(plan, keys, b) && Below(plan, keys, b')
    ensures FitAll(plan, keys, data, b) == FitAll(plan, keys, data, b')
    decreases |keys|
  {
    if keys != [] {
      hide Fit, Complete, StageOk;
      assert keys[0] in keys;
      FitAllBound(plan, keys[1..], data, b, b');
    }
  }

  lemma {:induction false} DepthsBound(plan: Plan, keys: seq<Key>, b: nat, b': nat)
    requires plan.Valid() && Below(plan, keys, b) && Below(plan, keys, b')
    ensures LearnedDepths(plan, keys, b) == LearnedDepths(plan, keys, b')
    decreases |keys|
  {
    if keys != [] {
      hide LearnedDepth, Complete, StageOk;
      assert keys[0] in keys;
      DepthsBound(plan, keys[1..], b, b');
    }
  }

  lemma {:induction false} ModelsBound(plan: Plan, keys: seq<Key>, training: Frame, scoring: Frame, b: nat, b': nat)
    requires plan.Valid() && Below(plan, keys, b) && Below(plan, keys, b')
    ensures Models(plan, keys, training, scoring, b) == Models(plan, keys, training, scoring, b')
    decreases |keys|
  {
    if keys != [] {
      hide Fit, PastOnly, Complete, StageOk;
      assert keys[0] in keys;
      ModelsBound(plan, keys[1..], training, scoring, b, b');
    }
  }

  lemma SkipBound(plan: Plan, keys: seq<Key>, training: Frame, b: nat, b': nat)
    requires plan.Valid() && Below(plan, keys, b) && Below(plan, keys, b')
    ensures SkipFold(plan, keys, training, b) == SkipFold(plan, keys, training, b')
  {
    hide LearnedDepths, HasLearned;
    DepthsBound(plan, keys, b, b');
  }

  lemma {:induction false} FoldsBound(plan: Plan, keys: seq<Key>, data: Frame, i: nat, b: nat, b': nat)
    requires plan.Valid() && Below(plan, keys, b) && Below(plan, keys, b')
    requires |Days(data)| >= plan.minDates + plan.splits && i <= plan.splits
    ensures Folds(plan, keys, data, i, b) == Folds(plan, keys, data, i, b')
    decreases plan.splits - i
  {
    hide Days, FoldDays, Models, SkipFold, Complete, StageOk;
    if i < plan.splits {
      hide Folds, Before, Within;
      FoldsBound(plan, keys, data, i + 1, b, b');
      var block := FoldDays(plan, data, i);
      SkipBound(plan, keys, Before(data, block[0]), b, b');
      ModelsBound(plan, keys, Before(data, block[0]), Within(data, block), b, b');
      if SkipFold(plan, keys, Before(data, block[0]), b) {
        SkipStep(plan, keys, data, i, b);
        SkipStep(plan, keys, data, i, b');
      } else {
        KeepStep(plan, keys, data, i, b);
        KeepStep(plan, keys, data, i, b');
      }
    }
  }

  lemma BoundIrrelevant(plan: Plan, keys: seq<Key>, data: Frame, b: nat, b': nat)
    requires plan.Valid() && Below(plan, keys, b) && Below(plan, keys, b')
    ensures FitAll(plan, keys, data, b) == FitAll(plan, keys, data, b')
    ensures Forward(plan, keys, data, b) == Forward(plan, keys, data, b')
  {
    FitAllBound(plan, keys, data, b, b');
    if |Days(data)| >= plan.minDates + plan.splits {
      FoldsBound(plan, keys, data, 0, b, b');
    }
  }

  /** Some node with this spec ranks no higher than `key`. */
  ghost predicate AtOrBelow(plan: Plan, key: Key, spec: Node)
    requires plan.Valid() && key in plan.nodes
  {
    exists k :: k in plan.nodes && Spec(plan.nodes[k]) == spec && k in plan.order && key in plan.order
                && Rank(plan.order, k) <= Rank(plan.order, key)
  }

  ghost predicate UnderInputs(plan: Plan, keys: seq<Key>, spec: Node)
    requires plan.Valid() && forall k :: k in keys ==> k in plan.nodes
  {
    exists p :: p in keys && AtOrBelow(plan, p, spec)
  }

  /** A component never recurs underneath itself: its own signature cannot appear while its inputs are built. */
  lemma NeverUnderItself(plan: Plan, key: Key)
    requires plan.Valid() && key in plan.nodes
    requires forall k :: k in plan.nodes[key].inputs ==> k in plan.nodes
    ensures !UnderInputs(plan, plan.nodes[key].inputs, Spec(plan.nodes[key]))
  {
    var inputs := plan.nodes[key].inputs;
    forall p | p in inputs ensures !AtOrBelow(plan, p, Spec(plan.nodes[key])) {
      forall k | k in plan.nodes && Spec(plan.nodes[k]) == Spec(plan.nodes[key]) && k in plan.order && p in plan.order
        ensures Rank(plan.order, k) > Rank(plan.order, p)
      {
        assert plan.nodes[k].inputs == Spec(plan.nodes[k]).inputs == inputs;
        RankDecreases(plan.nodes, plan.order, k, p);
      }
    }
  }

  /** The node's own part of an unmemoised fit. */
  ghost function LearnedState(plan: Plan, key: Key, data: Frame): Result<State>
    requires plan.Valid() && key in plan.nodes
  {
    var node := plan.nodes[key];
    InputsBelow(plan, key);
    if Refusal(plan, node, data).Some? then Err(Refusal(plan, node, data).value)
    else if node.kind.Estimator? then Ok(FitOn(FactoryOf(plan, node), data))
    else if LearnedStage(node, plan.nodes) then
      var blocks := Forward(plan, node.inputs, data, Rank(plan.order, key));
      if blocks.Err? then Err(blocks.error) else Ok(FitForward(blocks.value))
    else Ok(NoState)
  }

  lemma InputsAreBelow(plan: Plan, key: Key, spec: Node)
    requires plan.Valid() && key in plan.nodes
    requires forall k :: k in plan.nodes[key].inputs ==> k in plan.nodes
    requires UnderInputs(plan, plan.nodes[key].inputs, spec)
    ensures AtOrBelow(plan, key, spec)
  {
    var p :| p in plan.nodes[key].inputs && AtOrBelow(plan, p, spec);
    RankDecreases(plan.nodes, plan.order, key, p);
  }

  /** An accepted graph gives a plan the builder can run. */
  lemma AcceptedPlan(g: Graph, order: seq<Key>, factories: set<Key>, schema: seq<Column>)
    requires Accepts(g) && Complete(Lookup(g.nodes), order)
    ensures var plan := Plan(Lookup(g.nodes), order, g.nSplits as nat, g.minTrainDates as nat, factories, schema);
            plan.Valid() && Named(plan)
  {
    hide StageOk, Complete, Used, Tainted, Faulty;
    LookupFacts(g.nodes);
  }

  class Fitter {
    const plan: Plan
    const budget: Option<nat>
    var memo: map<Signature, Fitted>
    var fits: seq<Signature>

    /** The memo only ever holds what an unmemoised fit would return; every physical fit is in it, once. */
    ghost predicate Valid()
      reads this
    {
      && plan.Valid() && Named(plan)
      && MemoSound(plan, memo)
      && FitsMatch(plan, memo, fits)
      && (budget.Some? ==> |fits| <= budget.value)
    }

    constructor (plan: Plan, budget: Option<nat>)
      requires plan.Valid() && Named(plan)
      ensures Valid() && memo == map[] && fits == [] && this.plan == plan && this.budget == budget
    {
      this.plan := plan;
      this.budget := budget;
      memo := map[];
      fits := [];
    }

    /** `build`: the memoised result is the plain recursive fit, unless the fit budget runs out. */
    method Build(key: Key, data: Frame) returns (r: Result<Fitted>)
      requires Valid() && key in plan.nodes
      modifies this
      ensures Valid() && Grows(old(memo), memo) && old(fits) <= fits
      ensures NewAt(plan, key, old(memo), memo)
      ensures r.Ok? ==> r == Fit(plan, key, data) && SignatureOf(plan, key, data) in memo
      ensures r.Err? && r != Fit(plan, key, data) ==> BudgetSpent(r.error, budget, |fits|)
      decreases (assert key in plan.order; Rank(plan.order, key)), 4
    {
      var signature := SignatureOf(plan, key, data);
      if signature in memo {
        r := Ok(memo[signature]);
        return;
      }
      hide MemoSound, FitsMatch, Grows, NewUnder, NewAt, StageOk, Complete, FitAll, Forward, Fit, Refusal, LearnedStage, FactoryOf;
      var node := plan.nodes[key];
      FitFrom(plan, key, data);
      ghost var bound := Rank(plan.order, key);
      var parents := BuildAll(node.inputs, data, bound);
      NewUnderTwice(plan, key, old(memo), memo, memo) by { NothingNew(plan, node.inputs, memo); }
      if parents.Err? {
        r := Err(parents.error);
        return;
      }
      label Parents:
      var state := LearnState(key, data, bound);
      NewUnderTwice(plan, key, old(memo), old@Parents(memo), memo);
      if state.Err? {
        r := Err(state.error);
        return;
      }
      UnseenStaysUnseen(plan, key, data, old(memo), memo);
      label State:
      r := Record(key, data, Fitted(Spec(node), parents.value, state.value));
    }

    /** What the node itself learns: from the frame, from forward predictions, or nothing. An estimator is
        charged before it can refuse; the charge of a refused fit is lost with the failed build. */
    method LearnState(key: Key, data: Frame, ghost bound: nat) returns (r: Result<State>)
      requires Valid() && key in plan.nodes && key in plan.order && bound == Rank(plan.order, key)
      requires Below(plan, plan.nodes[key].inputs, bound)
      modifies this
      ensures Valid() && Grows(old(memo), memo) && old(fits) <= fits
      ensures NewUnder(plan, plan.nodes[key].inputs, old(memo), memo)
      ensures r.Ok? ==> r == LearnedState(plan, key, data)
      ensures r.Err? && r != LearnedState(plan, key, data) ==> BudgetSpent(r.error, budget, |fits|)
      decreases bound, 3
    {
      hide MemoSound, UnderInputs, StageOk, Complete, Forward;
      var node := plan.nodes[key];
      var refusal := Refusal(plan, node, data);
      if node.kind.Estimator? && refusal != Some(MarketFeature) && budget.Some? && |fits| >= budget.value {
        r := Err(BudgetExhausted);
      } else if refusal.Some? {
        r := Err(refusal.value);
      } else if node.kind.Estimator? {
        r := Ok(FitOn(FactoryOf(plan, node), data));
      } else if LearnedStage(node, plan.nodes) {
        var blocks := ForwardInputs(node.inputs, data, bound);
        r := if blocks.Err? then Err(blocks.error) else Ok(FitForward(blocks.value));
      } else {
        r := Ok(NoState);
      }
    }

    /** `consume` against the budget, then the memo entry. */
    method Record(key: Key, data: Frame, fitted: Fitted) returns (r: Result<Fitted>)
      requires Valid() && key in plan.nodes && SignatureOf(plan, key, data) !in memo
      requires Fit(plan, key, data) == Ok(fitted)
      modifies this
      ensures Valid() && Grows(old(memo), memo) && old(fits) <= fits
      ensures OnlyNew(SignatureOf(plan, key, data), old(memo), memo)
      ensures r.Ok? ==> r.value == fitted && SignatureOf(plan, key, data) in memo
      ensures r.Err? ==> BudgetSpent(r.error, budget, |fits|) && memo == old(memo)
    {
      hide MemoSound, StageOk, Complete, Fit;
      var signature := SignatureOf(plan, key, data);
      if NeedsFit(plan, signature) {
        if budget.Some? && |fits| >= budget.value {
          return Err(BudgetExhausted);
        }
        fits := fits + [signature];
      }
      Remember(plan, memo, key, data, fitted);
      memo := memo[signature := fitted];
      r := Ok(fitted);
    }

    method BuildAll(keys: seq<Key>, data: Frame, ghost bound: nat) returns (r: Result<seq<Fitted>>)
      requires Valid() && Below(plan, keys, bound)
      modifies this
      ensures Valid() && Grows(old(memo), memo) && old(fits) <= fits
      ensures NewUnder(plan, keys, old(memo), memo)
      ensures r.Ok? ==> r == FitAll(plan, keys, data, bound)
      ensures r.Err? && r != FitAll(plan, keys, data, bound) ==> BudgetSpent(r.error, budget, |fits|)
      decreases bound, 1
    {
      hide Fit, AtOrBelow, StageOk, Complete, MemoSound;
      var done: seq<Fitted> := [];
      ThenNothing(done, FitAll(plan, keys, data, bound));
      assert keys[0..] == keys;
      for i := 0 to |keys|
        invariant Valid() && Grows(old(memo), memo) && old(fits) <= fits
        invariant NewUnder(plan, keys, old(memo), memo)
        invariant FitAll(plan, keys, data, bound) == Then(done, FitAll(plan, keys[i..], data, bound))
      {
        assert keys[i] in keys && keys[i..][1..] == keys[i+1..];
        var f := Build(keys[i], data);
        if f.Err? {
          r := Err(f.error);
          return;
        }
        ThenCons(done, f.value, FitAll(plan, keys[i+1..], data, bound));
        done := done + [f.value];
      }
      ThenNothing(done, FitAll(plan, [], data, bound));
      assert keys[|keys|..] == [];
      r := Ok(done);
    }

    /** The models of one fold: each parent fitted on the past, then checked against the block. */
    method BuildModels(keys: seq<Key>, training: Frame, scoring: Frame, ghost bound: nat) returns (r: Result<seq<Fitted>>)
      requires Valid() && Below(plan, keys, bound)
      modifies this
      ensures Valid() && Grows(old(memo), memo) && old(fits) <= fits
      ensures NewUnder(plan, keys, old(memo), memo)
      ensures r.Ok? ==> r == Models(plan, keys, training, scoring, bound)
      ensures r.Err? && r != Models(plan, keys, training, scoring, bound) ==> BudgetSpent(r.error, budget, |fits|)
      decreases bound, 1
    {
      hide Fit, AtOrBelow, StageOk, Complete, MemoSound, PastOnly;
      var done: seq<Fitted> := [];
      ThenNothing(done, Models(plan, keys, training, scoring, bound));
      assert keys[0..] == keys;
      for i := 0 to |keys|
        invariant Valid() && Grows(old(memo), memo) && old(fits) <= fits
        invariant NewUnder(plan, keys, old(memo), memo)
        invariant Models(plan, keys, training, scoring, bound) == Then(done, Models(plan, keys[i..], training, scoring, bound))
      {
        assert keys[i] in keys && keys[i..][1..] == keys[i+1..];
        var f := Build(keys[i], training);
        if f.Err? {
          r := Err(f.error);
          return;
        }
        if !Predictable(plan.nodes[keys[i]].output.kind) {
          r := Err(UnsupportedOutput);
          return;
        }
        if !PastOnly(training, scoring) {
          r := Err(FutureTrained);
          return;
        }
        ThenCons(done, f.value, Models(plan, keys[i+1..], training, scoring, bound));
        done := done + [f.value];
      }
      ThenNothing(done, Models(plan, [], training, scoring, bound));
      assert keys[|keys|..] == [];
      r := Ok(done);
    }

    /** `forward_inputs` */
    method ForwardInputs(keys: seq<Key>, data: Frame, ghost bound: nat) returns (r: Result<seq<Block>>)
      requires Valid() && Below(plan, keys, bound)
      modifies this
      ensures Valid() && Grows(old(memo), memo) && old(fits) <= fits
      ensures NewUnder(plan, keys, old(memo), memo)
      ensures r.Ok? ==> r == Forward(plan, keys, data, bound)
      ensures r.Err? && r != Forward(plan, keys, data, bound) ==> BudgetSpent(r.error, budget, |fits|)
      decreases bound, 2
    {
      hide Fit, AtOrBelow, StageOk, Complete, MemoSound, Days, Models, SkipFold, FoldDays, Folds;
      if |Days(data)| < plan.minDates + plan.splits {
        return Err(InsufficientHistory);
      }
      var blocks: seq<Block> := [];
      ThenNothing(blocks, Folds(plan, keys, data, 0, bound));
      for i := 0 to plan.splits
        invariant Valid() && Grows(old(memo), memo) && old(fits) <= fits
        invariant NewUnder(plan, keys, old(memo), memo)
        invariant Folds(plan, keys, data, 0, bound) == Then(blocks, Folds(plan, keys, data, i, bound))
      {
        var block := FoldDays(plan, data, i);
        var training, scoring := Before(data, block[0]), Within(data, block);
        if SkipFold(plan, keys, training, bound) {
          SkipStep(plan, keys, data, i, bound);
        } else {
          KeepStep(plan, keys, data, i, bound);
          var models := BuildModels(keys, training, scoring, bound);
          if models.Err? {
            r := Err(models.error);
            return;
          }
          ThenCons(blocks, Block(scoring, models.value), Folds(plan, keys, data, i + 1, bound));
          blocks := blocks + [Block(scoring, models.value)];
        }
      }
      LastFold(plan, keys, data, bound);
      ThenNothing(blocks, Folds(plan, keys, data, plan.splits, bound));
      r := if blocks == [] then Err(NoSafeRows) else Ok(blocks);
    }
  }

  lemma LastFold(plan: Plan, keys: seq<Key>, data: Frame, bound: nat)
    requires plan.Valid() && Below(plan, keys, bound) && |Days(data)| >= plan.minDates + plan.splits
    ensures Folds(plan, keys, data, plan.splits, bound) == Ok([])
  {}

  /** Adding a correct entry keeps the memo correct for every name that shares the signature. */
  lemma Remember(plan: Plan, memo: map<Signature, Fitted>, key: Key, data: Frame, fitted: Fitted)
    requires plan.Valid() && Named(plan) && key in plan.nodes && MemoSound(plan, memo)
    requires Fit(plan, key, data) == Ok(fitted)
    ensures MemoSound(plan, memo[SignatureOf(plan, key, data) := fitted])
  {
    hide Fit, StageOk, Complete;
    forall k, d | k in plan.nodes && SignatureOf(plan, k, d) == SignatureOf(plan, key, data)
      ensures Fit(plan, k, d) == Ok(fitted)
    {
      SameSignatureSameFit(plan, k, key, data);
    }
  }

  ghost predicate MemoSound(plan: Plan, memo: map<Signature, Fitted>)
    requires plan.Valid()
  {
    forall key, data :: key in plan.nodes && SignatureOf(plan, key, data) in memo ==>
      Fit(plan, key, data) == Ok(memo[SignatureOf(plan, key, data)])
  }

  /** Each memoised component that learns was physically fitted exactly once. */
  ghost predicate FitsMatch(plan: Plan, memo: map<Signature, Fitted>, fits: seq<Signature>) {
    && (forall s :: s in fits <==> s in memo && (s.spec.kind.Estimator? || LearnedStage(s.spec, plan.nodes)))
    && (forall i, j :: 0 <= i < j < |fits| ==> fits[i] != fits[j])
  }

  ghost predicate Grows(before: map<Signature, Fitted>, after: map<Signature, Fitted>) {
    forall s :: s in before ==> s in after && after[s] == before[s]
  }

  /** Whatever was added belongs to components under these inputs, or at most at this key. */
  ghost predicate NewUnder(plan: Plan, keys: seq<Key>, before: map<Signature, Fitted>, after: map<Signature, Fitted>)
    requires plan.Valid() && forall k :: k in keys ==> k in plan.nodes
  {
    forall s :: s in after && s !in before ==> UnderInputs(plan, keys, s.spec)
  }

  ghost predicate NewAt(plan: Plan, key: Key, before: map<Signature, Fitted>, after: map<Signature, Fitted>)
    requires plan.Valid() && key in plan.nodes
  {
    forall s :: s in after && s !in before ==> AtOrBelow(plan, key, s.spec)
  }

  lemma NewUnderTwice(plan: Plan, key: Key, a: map<Signature, Fitted>, b: map<Signature, Fitted>, c: map<Signature, Fitted>)
    requires plan.Valid() && key in plan.nodes && forall k :: k in plan.nodes[key].inputs ==> k in plan.nodes
    requires NewUnder(plan, plan.nodes[key].inputs, a, b) && NewUnder(plan, plan.nodes[key].inputs, b, c)
    requires Grows(a, b) && Grows(b, c)
    ensures NewUnder(plan, plan.nodes[key].inputs, a, c) && NewAt(plan, key, a, c) && NewAt(plan, key, a, b) && Grows(a, c)
  {
    hide AtOrBelow, UnderInputs, Complete, StageOk;
    forall s | s in c && s !in a ensures UnderInputs(plan, plan.nodes[key].inputs, s.spec) && AtOrBelow(plan, key, s.spec) {
      assert s in b || s !in b;
      InputsAreBelow(plan, key, s.spec);
    }
  }

  ghost predicate OnlyNew(added: Signature, before: map<Signature, Fitted>, after: map<Signature, Fitted>) {
    forall s :: s in after && s !in before ==> s == added
  }

  lemma NothingNew(plan: Plan, keys: seq<Key>, memo: map<Signature, Fitted>)
    requires plan.Valid() && forall k :: k in keys ==> k in plan.nodes
    ensures NewUnder(plan, keys, memo, memo) && Grows(memo, memo)
  {}

  lemma UnseenStaysUnseen(plan: Plan, key: Key, data: Frame, a: map<Signature, Fitted>, c: map<Signature, Fitted>)
    requires plan.Valid() && key in plan.nodes && forall k :: k in plan.nodes[key].inputs ==> k in plan.nodes
    requires NewUnder(plan, plan.nodes[key].inputs, a, c) && SignatureOf(plan, key, data) !in a
    ensures SignatureOf(plan, key, data) !in c
  {
    NeverUnderItself(plan, key);
  }

  ghost predicate BudgetSpent(e: FitError, budget: Option<nat>, fits: nat) {
    e == BudgetExhausted && budget.Some? && fits == budget.value
  }
}
