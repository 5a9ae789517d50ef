/** Recursive chronological cross-fitting (ima/pipeline_graph.py, `build` and `forward_inputs`).
    An estimator is known only by the rows it was fitted on. */
module CrossFitting {
  import opened GraphValidation

  const SECONDS_PER_DAY := 86400

  datatype Row = Row(stamp: int, id: nat)

  type Frame = seq<Row>

  /** `.dt.normalize()` */
  function Day(r: Row): int { r.stamp / SECONDS_PER_DAY }

  /** A row's date holds its instant, before the epoch too. */
  lemma DayHolds(r: Row)
    ensures Day(r) * 86400 <= r.stamp < (Day(r) + 1) * 86400
  {}

  datatype FitError =
    | InsufficientHistory | NoSafeRows | FutureTrained | UnsupportedOutput | BudgetExhausted
    | BadFeatureView | MarketFeature | UnsupportedOptions | NeedsFactory | ShortResidualWindow

  datatype Result<+T> = Ok(value: T) | Err(error: FitError)

  /** A fitted node: its parents, and what its own state was learned from. */
  datatype Fitted = Fitted(spec: Node, parents: seq<Fitted>, state: State)

  datatype State =
    | NoState
    | FitOn(factory: Option<Key>, rows: Frame)
    | FitForward(blocks: seq<Block>)

  /** Rows used for learning, each scored by every model of the block. */
  datatype Block = Block(rows: Frame, models: seq<Fitted>)

  datatype Plan = Plan(nodes: Nodes, order: seq<Key>, splits: nat, minDates: nat, factories: set<Key>,
                       schema: seq<Column>) {
    ghost predicate Valid() {
      && splits >= 2 && minDates >= 1
      && Complete(nodes, order)
      && (forall k :: k in nodes ==> (forall p :: p in nodes[k].inputs ==> p in nodes) && StageOk(nodes[k], nodes))
    }
  }

  // ---- days of a frame ----

  predicate Increasing(xs: seq<int>) {
    forall i, j :: 0 <= i < j < |xs| ==> xs[i] < xs[j]
  }

  function InsertDay(d: int, xs: seq<int>): seq<int> {
    if xs == [] then [d]
    else if d < xs[0] then [d] + xs
    else if d == xs[0] then xs
    else [xs[0]] + InsertDay(d, xs[1..])
  }

  /** `np.sort(time.unique())` */
  function Days(data: Frame): seq<int> {
    if data == [] then [] else InsertDay(Day(data[0]), Days(data[1..]))
  }

  lemma {:induction false} InsertDayMembers(d: int, xs: seq<int>)
    ensures forall x :: x in InsertDay(d, xs) <==> x == d || x in xs
  {
    if xs != [] {
      InsertDayMembers(d, xs[1..]);
      assert xs == [xs[0]] + xs[1..];
    }
  }

  lemma IncreasingCons(x: int, xs: seq<int>)
    ensures Increasing([x] + xs) <==> Increasing(xs) && forall y :: y in xs ==> x < y
  {
    var all := [x] + xs;
    if Increasing(all) {
      forall i, j | 0 <= i < j < |xs| ensures xs[i] < xs[j] { assert all[i+1] < all[j+1]; }
      forall i | 0 <= i < |xs| ensures x < xs[i] { assert all[0] < all[i+1]; }
    }
    if Increasing(xs) && forall y :: y in xs ==> x < y {
      forall i, j | 0 <= i < j < |all| ensures all[i] < all[j] {
        assert all[j] == xs[j-1] && xs[j-1] in xs;
      }
    }
  }

  lemma {:induction false} InsertDayFacts(d: int, xs: seq<int>)
    requires Increasing(xs)
    ensures Increasing(InsertDay(d, xs))
    ensures forall x :: x in InsertDay(d, xs) <==> x == d || x in xs
  {
    InsertDayMembers(d, xs);
    if xs == [] {
    } else {
      assert xs == [xs[0]] + xs[1..];
      IncreasingCons(xs[0], xs[1..]);
      IncreasingCons(d, xs);
      if d > xs[0] {
        InsertDayFacts(d, xs[1..]);
        IncreasingCons(xs[0], InsertDay(d, xs[1..]));
      }
    }
  }

  lemma {:induction false} DaysFacts(data: Frame)
    ensures Increasing(Days(data))
    ensures forall d :: d in Days(data) <==> exists r :: r in data && Day(r) == d
  {
    if data != [] {
      DaysFacts(data[1..]);
      InsertDayFacts(Day(data[0]), Days(data[1..]));
      assert data == [data[0]] + data[1..];
      forall d ensures d in Days(data) <==> exists r :: r in data && Day(r) == d {
        if r :| r in data && Day(r) == d {
          assert r == data[0] || r in data[1..];
        }
        if d in Days(data) {
          if d == Day(data[0]) {
            assert data[0] in data;
          } else {
            var r :| r in data[1..] && Day(r) == d;
            assert r in data;
          }
        }
      }
    }
  }

  lemma {:induction false} IncreasingUnique(xs: seq<int>, ys: seq<int>)
    requires Increasing(xs) && Increasing(ys)
    requires forall x :: x in xs <==> x in ys
    ensures xs == ys
  {
    assert xs != [] ==> xs[0] in xs;
    assert ys != [] ==> ys[0] in ys;
    if xs != [] {
      assert xs[0] in ys && ys[0] in xs;
      assert xs[0] == ys[0];
      forall x ensures x in xs[1..] <==> x in ys[1..] {
        TailMember(xs, x);
        TailMember(ys, x);
      }
      IncreasingUnique(xs[1..], ys[1..]);
      assert xs == [xs[0]] + xs[1..] && ys == [ys[0]] + ys[1..];
    }
  }

  lemma TailMember(xs: seq<int>, x: int)
    requires Increasing(xs) && xs != []
    ensures x in xs[1..] <==> x in xs && x != xs[0]
  {
    if x in xs && x != xs[0] {
      var i :| 0 <= i < |xs| && xs[i] == x;
      assert xs[1..][i-1] == x;
    }
  }

  /** `data.loc[time < day]` */
  function Before(data: Frame, day: int): Frame {
    if data == [] then []
    else (if Day(data[0]) < day then [data[0]] else []) + Before(data[1..], day)
  }

  /** `data.iloc[flatnonzero(time.isin(block))]` */
  function Within(data: Frame, block: seq<int>): Frame {
    if data == [] then []
    else (if Day(data[0]) in block then [data[0]] else []) + Within(data[1..], block)
  }

  lemma {:induction false} BeforeMembers(data: Frame, day: int)
    ensures forall r :: r in Before(data, day) <==> r in data && Day(r) < day
  {
    if data != [] {
      BeforeMembers(data[1..], day);
      assert data == [data[0]] + data[1..];
    }
  }

  lemma {:induction false} WithinMembers(data: Frame, block: seq<int>)
    ensures forall r :: r in Within(data, block) <==> r in data && Day(r) in block
  {
    if data != [] {
      WithinMembers(data[1..], block);
      assert data == [data[0]] + data[1..];
    }
  }

  /** The days before the j-th distinct day are exactly the first j of them. */
  lemma DaysBefore(data: Frame, j: nat)
    requires j < |Days(data)|
    ensures Days(Before(data, Days(data)[j])) == Days(data)[..j]
  {
    var days, earlier := Days(data), Before(data, Days(data)[j]);
    DaysFacts(data);
    DaysFacts(earlier);
    BeforeMembers(data, days[j]);
    forall d ensures d in Days(earlier) <==> d in days[..j] {
      if d in days[..j] {
        var i :| 0 <= i < j && days[..j][i] == d;
        assert days[i] in days;
        var r :| r in data && Day(r) == d;
        assert r in earlier;
      }
      if d in Days(earlier) {
        var r :| r in earlier && Day(r) == d;
        assert d in days;
        var i :| 0 <= i < |days| && days[i] == d;
        assert i < j;
        assert days[..j][i] == d;
      }
    }
    IncreasingUnique(Days(earlier), days[..j]);
  }

  /** `len(training[date].unique())`: distinct instants, not distinct days. */
  function StampCount(data: Frame): nat {
    |set r | r in data :: r.stamp|
  }

  // ---- array_split ----

  function Min(a: nat, b: nat): nat { if a < b then a else b }

  /** Where the i-th of `n` near-equal blocks of `q` items starts. */
  function SplitPoint(q: nat, n: nat, i: nat): nat
    requires n > 0
  {
    i * (q / n) + Min(i, q % n)
  }

  lemma SplitPointFacts(q: nat, n: nat, i: nat)
    requires n > 0 && i < n
    ensures SplitPoint(q, n, 0) == 0 && SplitPoint(q, n, n) == q
    ensures SplitPoint(q, n, i) <= SplitPoint(q, n, i + 1) <= q
    ensures q >= n ==> SplitPoint(q, n, i) < SplitPoint(q, n, i + 1)
    ensures SplitPoint(q, n, i) <= SplitPoint(q, n, n - 1) == q - q / n
  {
    var s, r := q / n, q % n;
    assert q == n * s + r;
    assert (i + 1) * s == i * s + s;
    assert (n - 1) * s == n * s - s;
    MulMonotone(i + 1, n, s);
    MulMonotone(i, n - 1, s);
    if q >= n { assert s >= 1; }
  }

  lemma MulMonotone(a: nat, b: nat, s: nat)
    requires a <= b
    ensures a * s <= b * s
  {}

  // ---- learned depth ----

  function MaxOf(xs: seq<nat>): nat {
    if xs == [] then 0 else if xs[0] >= MaxOf(xs[1..]) then xs[0] else MaxOf(xs[1..])
  }

  lemma {:induction false} MaxOfFacts(xs: seq<nat>)
    ensures forall i :: 0 <= i < |xs| ==> xs[i] <= MaxOf(xs)
    ensures xs != [] ==> MaxOf(xs) in xs
  {
    if xs != [] {
      MaxOfFacts(xs[1..]);
    }
  }

  ghost predicate Below(plan: Plan, keys: seq<Key>, bound: nat)
    requires plan.Valid()
  {
    forall k :: k in keys ==> k in plan.nodes && k in plan.order && Rank(plan.order, k) < bound
  }

  lemma InputsBelow(plan: Plan, key: Key)
    requires plan.Valid() && key in plan.nodes
    ensures key in plan.order && Below(plan, plan.nodes[key].inputs, Rank(plan.order, key))
  {
    forall k | k in plan.nodes[key].inputs
      ensures k in plan.nodes && k in plan.order && Rank(plan.order, k) < Rank(plan.order, key)
    {
      RankDecreases(plan.nodes, plan.order, key, k);
    }
  }

  /** `learned_depth` */
  function LearnedDepth(plan: Plan, key: Key): nat
    requires plan.Valid() && key in plan.nodes
    decreases (assert key in plan.order; Rank(plan.order, key)), 1
  {
    InputsBelow(plan, key);
    (if LearnedStage(plan.nodes[key], plan.nodes) then 1 else 0)
    + MaxOf(LearnedDepths(plan, plan.nodes[key].inputs, Rank(plan.order, key)))
  }

  function LearnedDepths(plan: Plan, keys: seq<Key>, ghost bound: nat): (ds: seq<nat>)
    requires plan.Valid() && Below(plan, keys, bound)
    ensures |ds| == |keys|
    decreases bound, 0, |keys|
  {
    if keys == [] then []
    else
      assert keys[0] in keys;
      [LearnedDepth(plan, keys[0])] + LearnedDepths(plan, keys[1..], bound)
  }

  lemma {:induction false} LearnedDepthsAt(plan: Plan, keys: seq<Key>, bound: nat)
    requires plan.Valid() && Below(plan, keys, bound)
    ensures forall i :: 0 <= i < |keys| ==> keys[i] in keys && LearnedDepths(plan, keys, bound)[i] == LearnedDepth(plan, keys[i])
  {
    hide LearnedDepth;
    if keys != [] {
      assert keys[0] in keys;
      LearnedDepthsAt(plan, keys[1..], bound);
    }
  }

  function ParentDepth(plan: Plan, keys: seq<Key>, ghost bound: nat): nat
    requires plan.Valid() && Below(plan, keys, bound)
  {
    MaxOf(LearnedDepths(plan, keys, bound))
  }

  lemma ParentDepthBounds(plan: Plan, keys: seq<Key>, bound: nat, k: Key)
    requires plan.Valid() && Below(plan, keys, bound) && k in keys
    ensures LearnedDepth(plan, k) <= ParentDepth(plan, keys, bound)
  {
    MaxOfFacts(LearnedDepths(plan, keys, bound));
    LearnedDepthsAt(plan, keys, bound);
    var i :| 0 <= i < |keys| && keys[i] == k;
  }

  lemma ParentDepthAttained(plan: Plan, keys: seq<Key>, bound: nat) returns (k: Key)
    requires plan.Valid() && Below(plan, keys, bound) && keys != []
    ensures k in keys && LearnedDepth(plan, k) == ParentDepth(plan, keys, bound)
  {
    var ds := LearnedDepths(plan, keys, bound);
    MaxOfFacts(ds);
    LearnedDepthsAt(plan, keys, bound);
    var i :| 0 <= i < |ds| && ds[i] == MaxOf(ds);
    k := keys[i];
  }

  lemma DepthOf(plan: Plan, key: Key)
    requires plan.Valid() && key in plan.nodes
    ensures key in plan.order && Below(plan, plan.nodes[key].inputs, Rank(plan.order, key))
    ensures LearnedDepth(plan, key)
         == (if LearnedStage(plan.nodes[key], plan.nodes) then 1 else 0)
          + ParentDepth(plan, plan.nodes[key].inputs, Rank(plan.order, key))
  {
    InputsBelow(plan, key);
  }

  lemma NoParentsNoDepth(plan: Plan, keys: seq<Key>, bound: nat)
    requires plan.Valid() && Below(plan, keys, bound) && keys == []
    ensures ParentDepth(plan, keys, bound) == 0
  {}

  /** `has_learned_ancestor` */
  predicate HasLearned(plan: Plan, key: Key)
    requires plan.Valid() && key in plan.nodes
    decreases (assert key in plan.order; Rank(plan.order, key))
  {
    InputsBelow(plan, key);
    LearnedStage(plan.nodes[key], plan.nodes)
    || exists i :: 0 <= i < |plan.nodes[key].inputs| &&
         (assert plan.nodes[key].inputs[i] in plan.nodes[key].inputs; HasLearned(plan, plan.nodes[key].inputs[i]))
  }

  lemma {:induction false} HasLearnedMeansDepth(plan: Plan, key: Key)
    requires plan.Valid() && key in plan.nodes
    ensures key in plan.order && (HasLearned(plan, key) <==> LearnedDepth(plan, key) > 0)
    decreases (assert key in plan.order; Rank(plan.order, key))
  {
    hide LearnedStage, StageOk, ParentDepth, LearnedDepths, LearnedDepth, Complete;
    InputsBelow(plan, key);
    var inputs, bound := plan.nodes[key].inputs, Rank(plan.order, key);
    DepthOf(plan, key);
    forall i | 0 <= i < |inputs|
      ensures inputs[i] in inputs && (HasLearned(plan, inputs[i]) <==> LearnedDepth(plan, inputs[i]) > 0)
    {
      assert inputs[i] in inputs;
      HasLearnedMeansDepth(plan, inputs[i]);
    }
    if inputs != [] {
      var k := ParentDepthAttained(plan, inputs, bound);
      var i :| 0 <= i < |inputs| && inputs[i] == k;
    } else {
      NoParentsNoDepth(plan, inputs, bound);
    }
    forall i | 0 <= i < |inputs| ensures inputs[i] in inputs && LearnedDepth(plan, inputs[i]) <= ParentDepth(plan, inputs, bound) {
      assert inputs[i] in inputs;
      ParentDepthBounds(plan, inputs, bound, inputs[i]);
    }
  }

  function Times(a: nat, b: nat): nat { a * b }

  /** `required_dates` */
  function RequiredDates(plan: Plan, keys: seq<Key>, ghost bound: nat): nat
    requires plan.Valid() && Below(plan, keys, bound)
  {
    plan.minDates + Times(plan.splits, ParentDepth(plan, keys, bound))
  }

  /** A fold whose history cannot support the learned ancestors is skipped. */
  predicate SkipFold(plan: Plan, keys: seq<Key>, training: Frame, ghost bound: nat)
    requires plan.Valid() && Below(plan, keys, bound)
  {
    (exists k :: k in keys && HasLearned(plan, k)) && StampCount(training) < RequiredDates(plan, keys, bound)
  }

  // ---- what a fit computes, without the memo ----

  function Spec(node: Node): Node { node.(id := "") }

  function FactoryOf(plan: Plan, node: Node): Option<Key> {
    if node.id in plan.factories then Some(node.id) else None
  }

  /** The columns a feature view selects; all of them unless it names some. */
  function Selected(plan: Plan, view: Node): seq<Column> {
    if view.parameters.features.Some? then view.parameters.features.value else plan.schema
  }

  /** An estimator fitted as a residual distribution sets the last fifth of its instants aside. */
  predicate NeedsWindow(plan: Plan, node: Node) {
    node.kind.Estimator? && node.id !in plan.factories
    && node.output.kind.PerformanceDistribution? && !node.parameters.probit
  }

  /** What a node's own configuration makes `build` raise, whatever the frame. */
  function ConfigFault(plan: Plan, node: Node): Option<FitError>
    requires node.inputs != [] ==> node.inputs[0] in plan.nodes
  {
    if node.kind.FeatureView? then
      var columns := Selected(plan, node);
      if columns == [] || exists c :: c in columns && c !in plan.schema then Some(BadFeatureView) else None
    else if node.kind.Estimator? then
      var columns := if node.inputs == [] then plan.schema else Selected(plan, plan.nodes[node.inputs[0]]);
      if !node.output.market && exists c :: c in columns && c.currentMarket then Some(MarketFeature)
      else if node.id in plan.factories then None
      else if node.parameters.stray then Some(UnsupportedOptions)
      else if (node.output.kind.FeatureFrame? || node.output.kind.JointOrder? || node.output.kind.OtherOutput?)
        && !node.parameters.probit then Some(NeedsFactory)
      else None
    else None
  }

  /** Everything `build` itself raises at a node other than for its inputs' sake. */
  function Refusal(plan: Plan, node: Node, data: Frame): Option<FitError>
    requires node.inputs != [] ==> node.inputs[0] in plan.nodes
  {
    if ConfigFault(plan, node).Some? then ConfigFault(plan, node)
    else if NeedsWindow(plan, node) && StampCount(data) < 2 then Some(ShortResidualWindow)
    else None
  }

  /** `artifact.validate()`: the training cutoff precedes the prediction start. */
  predicate PastOnly(training: Frame, scoring: Frame) {
    training != [] && scoring != [] && forall a, b :: a in training && b in scoring ==> a.stamp < b.stamp
  }

  predicate Predictable(output: OutputKind) {
    output.WinProbability? || output.RankingScore?
  }

  function FoldDays(plan: Plan, data: Frame, i: nat): (block: seq<int>)
    requires plan.splits > 0 && |Days(data)| >= plan.minDates + plan.splits && i < plan.splits
    ensures block != []
  {
    var q := |Days(data)| - plan.minDates;
    SplitPointFacts(q, plan.splits, i);
    Days(data)[plan.minDates + SplitPoint(q, plan.splits, i)..plan.minDates + SplitPoint(q, plan.splits, i + 1)]
  }

  ghost function Fit(plan: Plan, key: Key, data: Frame): Result<Fitted>
    requires plan.Valid() && key in plan.nodes
    decreases (assert key in plan.order; Rank(plan.order, key)), 4, 0
  {
    var node := plan.nodes[key];
    InputsBelow(plan, key);
    match FitAll(plan, node.inputs, data, Rank(plan.order, key))
    case Err(e) => Err(e)
    case Ok(parents) =>
      if Refusal(plan, node, data).Some? then Err(Refusal(plan, node, data).value)
      else if node.kind.Estimator? then Ok(Fitted(Spec(node), parents, FitOn(FactoryOf(plan, node), data)))
      else if LearnedStage(node, plan.nodes) then
        match Forward(plan, node.inputs, data, Rank(plan.order, key))
        case Err(e) => Err(e)
        case Ok(blocks) => Ok(Fitted(Spec(node), parents, FitForward(blocks)))
      else Ok(Fitted(Spec(node), parents, NoState))
  }

  ghost function FitAll(plan: Plan, keys: seq<Key>, data: Frame, bound: nat): Result<seq<Fitted>>
    requires plan.Valid() && Below(plan, keys, bound)
    decreases bound, 1, |keys|
  {
    if keys == [] then Ok([])
    else
      assert keys[0] in keys;
      match Fit(plan, keys[0], data)
      case Err(e) => Err(e)
      case Ok(f) => Cons(f, FitAll(plan, keys[1..], data, bound))
  }

  ghost function Cons<T>(x: T, rest: Result<seq<T>>): Result<seq<T>> {
    if rest.Ok? then Ok([x] + rest.value) else rest
  }

  /** `forward_inputs` */
  ghost function Forward(plan: Plan, keys: seq<Key>, data: Frame, bound: nat): Result<seq<Block>>
    requires plan.Valid() && Below(plan, keys, bound)
    decreases bound, 3, 0
  {
    if |Days(data)| < plan.minDates + plan.splits then Err(InsufficientHistory)
    else
      var blocks := Folds(plan, keys, data, 0, bound);
      if blocks == Ok([]) then Err(NoSafeRows) else blocks
  }

  /** The folds from the i-th on. */
  ghost function Folds(plan: Plan, keys: seq<Key>, data: Frame, i: nat, bound: nat): Result<seq<Block>>
    requires plan.Valid() && Below(plan, keys, bound)
    requires |Days(data)| >= plan.minDates + plan.splits && i <= plan.splits
    decreases bound, 2, plan.splits - i
  {
    if i == plan.splits then Ok([])
    else
      var block := FoldDays(plan, data, i);
      var training, scoring := Before(data, block[0]), Within(data, block);
      if SkipFold(plan, keys, training, bound) then Folds(plan, keys, data, i + 1, bound)
      else
        match Models(plan, keys, training, scoring, bound)
        case Err(e) => Err(e)
        case Ok(models) => Cons(Block(scoring, models), Folds(plan, keys, data, i + 1, bound))
  }

  /** One model per parent, fitted on the past and checked before it may score the block. */
  ghost function Models(plan: Plan, keys: seq<Key>, training: Frame, scoring: Frame, bound: nat): Result<seq<Fitted>>
    requires plan.Valid() && Below(plan, keys, bound)
    decreases bound, 1, |keys|
  {
    if keys == [] then Ok([])
    else
      assert keys[0] in keys;
      match Fit(plan, keys[0], training)
      case Err(e) => Err(e)
      case Ok(f) =>
        if !Predictable(plan.nodes[keys[0]].output.kind) then Err(UnsupportedOutput)
        else if !PastOnly(training, scoring) then Err(FutureTrained)
        else Cons(f, Models(plan, keys[1..], training, scoring, bound))
  }

  /** One step of the fold loop. */
  lemma SkipStep(plan: Plan, keys: seq<Key>, data: Frame, i: nat, bound: nat)
    requires plan.Valid() && Below(plan, keys, bound)
    requires |Days(data)| >= plan.minDates + plan.splits && i < plan.splits
    requires SkipFold(plan, keys, Before(data, FoldDays(plan, data, i)[0]), bound)
    ensures Folds(plan, keys, data, i, bound) == Folds(plan, keys, data, i + 1, bound)
  {
    hide SkipFold, FoldDays, Before, Within, Models;
  }

  lemma KeepStep(plan: Plan, keys: seq<Key>, data: Frame, i: nat, bound: nat)
    requires plan.Valid() && Below(plan, keys, bound)
    requires |Days(data)| >= plan.minDates + plan.splits && i < plan.splits
    requires !SkipFold(plan, keys, Before(data, FoldDays(plan, data, i)[0]), bound)
    ensures var block := FoldDays(plan, data, i);
            var models := Models(plan, keys, Before(data, block[0]), Within(data, block), bound);
            Folds(plan, keys, data, i, bound)
            == if models.Err? then Err(models.error)
               else Cons(Block(Within(data, block), models.value), Folds(plan, keys, data, i + 1, bound))
  {
    hide SkipFold, FoldDays, Before, Within, Models;
  }

  // ---- no future leakage ----

  /** Every row used anywhere in fitting `f`, ancestors and fold models included, satisfies `ok`. */
  ghost predicate UsesOnly(f: Fitted, ok: Row -> bool)
    decreases f, 2
  {
    (forall p :: p in f.parents ==> UsesOnly(p, ok)) && StateUsesOnly(f.state, ok)
  }

  ghost predicate StateUsesOnly(s: State, ok: Row -> bool)
    decreases s, 1
  {
    match s
    case NoState => true
    case FitOn(_, rows) => forall r :: r in rows ==> ok(r)
    case FitForward(blocks) => forall b :: b in blocks ==> BlockUsesOnly(b, ok)
  }

  ghost predicate BlockUsesOnly(b: Block, ok: Row -> bool)
    decreases b, 0
  {
    (forall r :: r in b.rows ==> ok(r)) && forall m :: m in b.models ==> UsesOnly(m, ok)
  }

  function EarlierThan(r: Row): Row -> bool {
    (x: Row) => Day(x) < Day(r) && x.stamp < r.stamp
  }

  /** Recursively: a row only ever learns from predictions of models whose whole subtree was fitted on
      strictly earlier dates. */
  ghost predicate Safe(f: Fitted)
    decreases f, 2
  {
    (forall p :: p in f.parents ==> Safe(p)) && StateSafe(f.state)
  }

  ghost predicate StateSafe(s: State)
    decreases s, 1
  {
    s.FitForward? ==> forall b :: b in s.blocks ==> BlockSafe(b)
  }

  ghost predicate BlockSafe(b: Block)
    decreases b, 0
  {
    forall m :: m in b.models ==> Safe(m) && forall r :: r in b.rows ==> UsesOnly(m, EarlierThan(r))
  }

  lemma {:induction false} UsesWeaken(f: Fitted, ok: Row -> bool, ok': Row -> bool)
    requires UsesOnly(f, ok) && forall r :: ok(r) ==> ok'(r)
    ensures UsesOnly(f, ok')
    decreases f, 2
  {
    forall p | p in f.parents ensures UsesOnly(p, ok') {
      UsesWeaken(p, ok, ok');
    }
    if f.state.FitForward? {
      forall b | b in f.state.blocks ensures BlockUsesOnly(b, ok') {
        assert BlockUsesOnly(b, ok);
        forall m | m in b.models ensures UsesOnly(m, ok') {
          UsesWeaken(m, ok, ok');
        }
      }
    }
  }

  function From(data: Frame): Row -> bool {
    (r: Row) => r in data
  }

  /** A fit uses no row beyond the frame it was given, and is leak-free all the way down. */
  lemma {:induction false} FitIsSafe(plan: Plan, key: Key, data: Frame)
    requires plan.Valid() && key in plan.nodes
    ensures Fit(plan, key, data).Ok? ==>
              UsesOnly(Fit(plan, key, data).value, From(data)) && Safe(Fit(plan, key, data).value)
    decreases (assert key in plan.order; Rank(plan.order, key)), 4, 0
  {
    hide LearnedStage, StageOk, Complete, Refusal, FitAll, Forward;
    InputsBelow(plan, key);
    FitAllSafe(plan, plan.nodes[key].inputs, data, Rank(plan.order, key));
    ForwardSafe(plan, plan.nodes[key].inputs, data, Rank(plan.order, key));
  }

  lemma {:induction false} FitAllSafe(plan: Plan, keys: seq<Key>, data: Frame, bound: nat)
    requires plan.Valid() && Below(plan, keys, bound)
    ensures FitAll(plan, keys, data, bound).Ok? ==>
              forall f :: f in FitAll(plan, keys, data, bound).value ==> UsesOnly(f, From(data)) && Safe(f)
    decreases bound, 1, |keys|
  {
    if keys != [] {
      assert keys[0] in keys;
      FitIsSafe(plan, keys[0], data);
      FitAllSafe(plan, keys[1..], data, bound);
    }
  }

  lemma {:induction false} ForwardSafe(plan: Plan, keys: seq<Key>, data: Frame, bound: nat)
    requires plan.Valid() && Below(plan, keys, bound)
    ensures Forward(plan, keys, data, bound).Ok? ==>
              forall b :: b in Forward(plan, keys, data, bound).value ==> BlockUsesOnly(b, From(data)) && BlockSafe(b)
    decreases bound, 3, 0
  {
    if |Days(data)| >= plan.minDates + plan.splits {
      FoldsSafe(plan, keys, data, 0, bound);
    }
  }

  lemma {:induction false} FoldsSafe(plan: Plan, keys: seq<Key>, data: Frame, i: nat, bound: nat)
    requires plan.Valid() && Below(plan, keys, bound)
    requires |Days(data)| >= plan.minDates + plan.splits && i <= plan.splits
    ensures Folds(plan, keys, data, i, bound).Ok? ==>
              forall b :: b in Folds(plan, keys, data, i, bound).value ==> BlockUsesOnly(b, From(data)) && BlockSafe(b)
    decreases bound, 2, plan.splits - i
  {
    hide BlockUsesOnly, BlockSafe, FoldDays, Models, Days, StageOk, Complete;
    if i < plan.splits {
      hide Folds, BlockUsesOnly, BlockSafe, UsesOnly, Safe, SkipFold, FoldDays, Models, Before, Within, Days, StageOk, Complete;
      FoldsSafe(plan, keys, data, i + 1, bound);
      var block := FoldDays(plan, data, i);
      var training, scoring := Before(data, block[0]), Within(data, block);
      if SkipFold(plan, keys, training, bound) {
        SkipStep(plan, keys, data, i, bound);
      } else {
        KeepStep(plan, keys, data, i, bound);
        ModelsSafe(plan, keys, training, scoring, bound);
        var models := Models(plan, keys, training, scoring, bound);
        if models.Ok? {
          OneFoldSafe(plan, data, i, models.value);
        }
      }
    }
  }

  lemma OneFoldSafe(plan: Plan, data: Frame, i: nat, models: seq<Fitted>)
    requires plan.splits > 0 && |Days(data)| >= plan.minDates + plan.splits && i < plan.splits
    requires var block := FoldDays(plan, data, i);
             forall f :: f in models ==> UsesOnly(f, From(Before(data, block[0]))) && Safe(f)
    ensures var b := Block(Within(data, FoldDays(plan, data, i)), models); BlockUsesOnly(b, From(data)) && BlockSafe(b)
  {
    hide UsesOnly, Safe;
    var block := FoldDays(plan, data, i);
    var training, scoring := Before(data, block[0]), Within(data, block);
    BeforeMembers(data, block[0]);
    WithinMembers(data, block);
    BlockStarts(plan, data, i);
    forall m | m in models ensures UsesOnly(m, From(data)) {
      UsesWeaken(m, From(training), From(data));
    }
    forall m, r | m in models && r in scoring ensures UsesOnly(m, EarlierThan(r)) {
      forall x | x in training ensures EarlierThan(r)(x) {
        EarlierDay(x, r);
      }
      UsesWeaken(m, From(training), EarlierThan(r));
    }
  }

  lemma EarlierDay(x: Row, r: Row)
    requires Day(x) < Day(r)
    ensures x.stamp < r.stamp
  {}

  /** A block starts at its least day. */
  lemma BlockStarts(plan: Plan, data: Frame, i: nat)
    requires plan.splits > 0 && |Days(data)| >= plan.minDates + plan.splits && i < plan.splits
    ensures var block := FoldDays(plan, data, i); forall d :: d in block ==> block[0] <= d
  {
    DaysFacts(data);
    SplitPointFacts(|Days(data)| - plan.minDates, plan.splits, i);
  }

  lemma {:induction false} ModelsSafe(plan: Plan, keys: seq<Key>, training: Frame, scoring: Frame, bound: nat)
    requires plan.Valid() && Below(plan, keys, bound)
    ensures Models(plan, keys, training, scoring, bound).Ok? ==>
              forall f :: f in Models(plan, keys, training, scoring, bound).value ==> UsesOnly(f, From(training)) && Safe(f)
    decreases bound, 1, |keys|
  {
    if keys != [] {
      assert keys[0] in keys;
      FitIsSafe(plan, keys[0], training);
      ModelsSafe(plan, keys[1..], training, scoring, bound);
    }
  }

  // ---- the blocks partition the eligible days ----

  lemma {:induction false} SplitPointMonotone(q: nat, n: nat, i: nat, j: nat)
    requires n > 0 && i <= j <= n
    ensures SplitPoint(q, n, i) <= SplitPoint(q, n, j)
    decreases j - i
  {
    hide SplitPoint;
    if i < j {
      SplitPointFacts(q, n, i);
      SplitPointMonotone(q, n, i + 1, j);
    }
  }

  lemma {:induction false} FindBlock(q: nat, n: nat, x: nat, upTo: nat) returns (i: nat)
    requires n > 0 && upTo <= n && x < SplitPoint(q, n, upTo)
    ensures i < upTo && SplitPoint(q, n, i) <= x < SplitPoint(q, n, i + 1)
  {
    if upTo > 0 && SplitPoint(q, n, upTo - 1) <= x {
      i := upTo - 1;
    } else {
      i := FindBlock(q, n, x, upTo - 1);
    }
  }

  /** Every day of an earlier block precedes every day of a later one; in particular blocks are disjoint. */
  lemma BlocksOrdered(plan: Plan, data: Frame, i: nat, j: nat, a: int, b: int)
    requires plan.splits > 0 && |Days(data)| >= plan.minDates + plan.splits && i < j < plan.splits
    requires a in FoldDays(plan, data, i) && b in FoldDays(plan, data, j)
    ensures a < b
  {
    hide SplitPoint, Days;
    var q := |Days(data)| - plan.minDates;
    DaysFacts(data);
    SplitPointFacts(q, plan.splits, i);
    SplitPointFacts(q, plan.splits, j);
    SplitPointMonotone(q, plan.splits, i + 1, j);
    var x := BlockPlace(plan, data, i, a);
    var y := BlockPlace(plan, data, j, b);
  }

  /** Where a date of a block stands among all dates. */
  lemma BlockPlace(plan: Plan, data: Frame, i: nat, d: int) returns (x: nat)
    requires plan.splits > 0 && |Days(data)| >= plan.minDates + plan.splits && i < plan.splits
    requires d in FoldDays(plan, data, i)
    ensures var q := |Days(data)| - plan.minDates;
            && plan.minDates + SplitPoint(q, plan.splits, i) <= x < plan.minDates + SplitPoint(q, plan.splits, i + 1)
            && x < |Days(data)| && Days(data)[x] == d
  {
    hide SplitPoint, Days;
    var q := |Days(data)| - plan.minDates;
    SplitPointFacts(q, plan.splits, i);
    var y :| 0 <= y < |FoldDays(plan, data, i)| && FoldDays(plan, data, i)[y] == d;
    x := plan.minDates + SplitPoint(q, plan.splits, i) + y;
  }

  /** The blocks cover exactly the days after the first `min_train_dates`. */
  lemma BlocksCover(plan: Plan, data: Frame, d: int)
    requires plan.splits > 0 && |Days(data)| >= plan.minDates + plan.splits
    ensures d in Days(data)[plan.minDates..] <==> exists i: nat :: i < plan.splits && d in FoldDays(plan, data, i)
  {
    hide SplitPoint, Days;
    var q := |Days(data)| - plan.minDates;
    var eligible := Days(data)[plan.minDates..];
    if d in eligible {
      var x :| 0 <= x < |eligible| && eligible[x] == d;
      SplitPointFacts(q, plan.splits, 0);
      var i := FindBlock(q, plan.splits, x, plan.splits);
      SplitPointFacts(q, plan.splits, i);
      assert FoldDays(plan, data, i)[x - SplitPoint(q, plan.splits, i)] == d;
    }
    if i: nat :| i < plan.splits && d in FoldDays(plan, data, i) {
      SplitPointFacts(q, plan.splits, i);
      var y :| 0 <= y < |FoldDays(plan, data, i)| && FoldDays(plan, data, i)[y] == d;
      assert eligible[SplitPoint(q, plan.splits, i) + y] == d;
    }
  }
}
