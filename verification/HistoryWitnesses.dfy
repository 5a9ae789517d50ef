/** Plans of the kind `PipelineGraph.validate` accepts whose documented history is not enough
    (ima/pipeline_graph.py, `build` and `forward_inputs`). */
module HistoryWitnesses {
  import opened GraphValidation
  import opened CrossFitting
  import opened DryRun
  import opened HistoryFacts
  import opened HistoryBound

  function Win(): Contract { Contract(WinProbability, "win_probability", "probability", false) }

  function Residuals(): Contract { Contract(PerformanceDistribution, "log_speed", "log_mps", false) }

  /** Names that differ in length. */
  function Name(i: nat): Key { seq(i, _ => 'x') }

  /** Calibrations over an estimator of win probabilities or, when `native`, over the adapter of an estimator
      of a residual distribution. */
  function Floor(native: bool, i: nat): Node {
    var kind := if i == 0 then Estimator else if i == 1 && native then ProbabilisticAdapter else Calibrate;
    Node(Name(i), kind, if i == 0 then [] else [Name(i - 1)], Parameters(false, false, None, ""),
         if i == 0 && native then Residuals() else Win(), ForwardOof)
  }

  function Floors(native: bool, k: nat): seq<Node> {
    seq(k + 1, (i: nat) => Floor(native, i))
  }

  function Tower(native: bool, k: nat, splits: nat, minDates: nat): Plan {
    Plan(Lookup(Floors(native, k)), seq(k + 1, (i: nat) => Name(i)), splits, minDates, {}, [Column("weight", false)])
  }

  lemma TowerNodes(native: bool, k: nat, i: nat)
    requires i <= k
    ensures Name(i) in Lookup(Floors(native, k)) && Lookup(Floors(native, k))[Name(i)] == Floor(native, i)
  {
    hide Floor, Lookup;
    var nodes := Floors(native, k);
    forall a, b | 0 <= a < b < |nodes| ensures nodes[a].id != nodes[b].id {
      FloorName(native, a);
      FloorName(native, b);
      assert |Name(a)| == a && |Name(b)| == b;
    }
    LookupFacts(nodes);
    FloorName(native, i);
    assert nodes[i] in nodes;
  }

  lemma FloorName(native: bool, i: nat)
    ensures Floor(native, i).id == Name(i)
  {}

  lemma TowerKey(native: bool, k: nat, key: Key) returns (i: nat)
    requires key in Lookup(Floors(native, k))
    ensures i <= k && key == Name(i) && Lookup(Floors(native, k))[key] == Floor(native, i)
  {
    hide Floor, Lookup;
    LookupFacts(Floors(native, k));
    i :| 0 <= i <= k && Floors(native, k)[i] == Lookup(Floors(native, k))[key];
    FloorName(native, i);
  }

  /** Every tower is a plan that validation accepts. */
  lemma TowerValid(native: bool, k: nat, splits: nat, minDates: nat)
    requires splits >= 2 && minDates >= 1
    ensures Tower(native, k, splits, minDates).Valid()
  {
    hide Lookup, Floor, StageOk, LocalOk;
    var plan := Tower(native, k, splits, minDates);
    var nodes, order := plan.nodes, plan.order;
    forall i, j | 0 <= i < j < |order| ensures order[i] != order[j] {
      assert |order[i]| == i && |order[j]| == j;
    }
    forall i | 0 <= i < |order| ensures order[i] in nodes && LocalOk(nodes[order[i]]) {
      TowerNodes(native, k, i);
      FloorSound(native, i);
    }
    forall i, p | 0 <= i < |order| && p in nodes[order[i]].inputs ensures p in order[..i] {
      TowerNodes(native, k, i);
      FloorSound(native, i);
      assert order[..i][i-1] == Name(i - 1);
    }
    forall key | key in nodes ensures key in order && (forall p :: p in nodes[key].inputs ==> p in nodes) {
      var i := TowerKey(native, k, key);
      assert order[i] == key;
      FloorSound(native, i);
      if i > 0 { TowerNodes(native, k, i - 1); }
    }
    forall key | key in nodes ensures StageOk(nodes[key], nodes) {
      var i := TowerKey(native, k, key);
      if i > 0 { TowerNodes(native, k, i - 1); }
      FloorStage(native, i, nodes);
    }
  }

  lemma FloorSound(native: bool, i: nat)
    ensures LocalOk(Floor(native, i))
    ensures Floor(native, i).inputs == if i == 0 then [] else [Name(i - 1)]
  {}

  lemma FloorStage(native: bool, i: nat, nodes: Nodes)
    requires i > 0 ==> Name(i - 1) in nodes && nodes[Name(i - 1)] == Floor(native, i - 1)
    ensures (forall p :: p in Floor(native, i).inputs ==> p in nodes) && StageOk(Floor(native, i), nodes)
  {
    var node := Floor(native, i);
    assert Parents(node, nodes) == if i == 0 then [] else [Floor(native, i - 1)];
  }

  function TowerGraph(native: bool, k: nat, splits: nat, minDates: nat): Graph {
    Graph(Floors(native, k), Name(k), None, None, None, None, splits, minDates, 1, false)
  }

  lemma NoMarketFloor(native: bool, i: nat)
    ensures !Market(Floor(native, i)) && Floor(native, i).id == Name(i)
  {}

  /** `validate` accepts every tower. */
  lemma TowerAccepted(native: bool, k: nat, splits: nat, minDates: nat)
    requires splits >= 2 && minDates >= 1
    ensures Accepts(TowerGraph(native, k, splits, minDates))
  {
    hide Lookup, Floor, StageOk, LocalOk, Faulty, Ancestor, Complete;
    var plan, g := Tower(native, k, splits, minDates), TowerGraph(native, k, splits, minDates);
    TowerValid(native, k, splits, minDates);
    CompleteNotFaulty(plan.nodes, plan.order);
    TowerNodes(native, k, k);
    forall a, b | 0 <= a < b < |g.nodes| ensures g.nodes[a].id != g.nodes[b].id {
      FloorName(native, a);
      FloorName(native, b);
      assert |Name(a)| == a && |Name(b)| == b;
    }
    forall key | key in plan.nodes ensures !Market(plan.nodes[key]) {
      var i := TowerKey(native, k, key);
      NoMarketFloor(native, i);
    }
  }

  lemma {:induction false} TowerDepth(native: bool, k: nat, splits: nat, minDates: nat, i: nat)
    requires splits >= 2 && minDates >= 1 && i <= k
    ensures var plan := Tower(native, k, splits, minDates);
            plan.Valid() && Name(i) in plan.nodes && LearnedDepth(plan, Name(i)) == if native && i > 0 then i - 1 else i
  {
    hide Lookup, StageOk, LocalOk, Complete, LearnedDepth, ParentDepth;
    var plan := Tower(native, k, splits, minDates);
    TowerValid(native, k, splits, minDates);
    TowerNodes(native, k, i);
    DepthOf(plan, Name(i));
    var inputs, bound := plan.nodes[Name(i)].inputs, Rank(plan.order, Name(i));
    if i == 0 {
      NoParentsNoDepth(plan, inputs, bound);
    } else {
      TowerDepth(native, k, splits, minDates, i - 1);
      var p := ParentDepthAttained(plan, inputs, bound);
      assert p == Name(i - 1);
    }
  }

  lemma TowerConfigured(native: bool, k: nat, splits: nat, minDates: nat, key: Key)
    requires splits >= 2 && minDates >= 1
    ensures Tower(native, k, splits, minDates).Valid() && Configured(Tower(native, k, splits, minDates), key)
  {
    hide Lookup, StageOk, LocalOk, Complete, Ancestor;
    var plan := Tower(native, k, splits, minDates);
    TowerValid(native, k, splits, minDates);
    forall a | a in plan.nodes ensures ConfigFault(plan, plan.nodes[a]).None? && (NeedsWindow(plan, plan.nodes[a]) ==> native && a == Name(0)) {
      var i := TowerKey(native, k, a);
      assert plan.schema[0].currentMarket == false;
    }
  }

  /** A tower over a win estimator needs no residual window, so every frame is ready for it. */
  lemma PlainTowerReady(k: nat, splits: nat, minDates: nat, key: Key, data: Frame)
    requires splits >= 2 && minDates >= 1
    ensures Tower(false, k, splits, minDates).Valid() && Ready(Tower(false, k, splits, minDates), key, data)
  {
    hide Lookup, StageOk, LocalOk, Complete, Ancestor, Configured, LearnedDepth, LearnedStage, StampCount, Days;
    var plan := Tower(false, k, splits, minDates);
    TowerConfigured(false, k, splits, minDates, key);
    forall a | a in plan.nodes ensures !NeedsWindow(plan, plan.nodes[a]) {
      var i := TowerKey(false, k, a);
    }
  }

  /** A stage one deeper than `n_splits` fails on the documented number of dates, and succeeds on one more. */
  lemma DeepTower(splits: nat, minDates: nat)
    requires splits >= 2 && minDates >= 1
    ensures var plan, top := Tower(false, splits + 1, splits, minDates), Name(splits + 1);
            && plan.Valid() && top in plan.nodes && LearnedDepth(plan, top) == splits + 1
            && Fit(plan, top, Meetings(LevelDates(plan, splits + 1))).Err?
            && Fit(plan, top, Meetings(LevelDates(plan, splits + 1) + 1)).Ok?
  {
    hide Lookup, StageOk, LocalOk, Complete, LearnedDepth, Fit, Ready, Days, GuardHolds, Meetings;
    var plan, top := Tower(false, splits + 1, splits, minDates), Name(splits + 1);
    TowerDepth(false, splits + 1, splits, minDates, splits + 1);
    TowerNodes(false, splits + 1, splits + 1);
    var k := LevelDates(plan, splits + 1);
    MeetingsFacts(k);
    OneStampGuard(plan, splits + 1, Meetings(k));
    DeepStageFails(plan, top, Meetings(k));
    MeetingsFacts(k + 1);
    OneStampGuard(plan, splits + 1, Meetings(k + 1));
    PlainTowerReady(splits + 1, splits, minDates, top, Meetings(k + 1));
    OneMoreDate(splits);
    StageExactly(plan, top, Meetings(k + 1));
  }

  lemma OneMoreDate(n: nat)
    requires n >= 2
    ensures var q := Times(n, n + 1) + 1; q >= n && q - q / n == Times(n, n)
  {
    var q := Times(n, n + 1) + 1;
    assert q == n * (n + 1) + 1 && n * (n + 1) == n * n + n;
    var s, r := q / n, q % n;
    assert q == n * s + r && n * s < n * (n + 2) by {
      assert n * (n + 2) == n * (n + 1) + n;
    }
    MulCancel(n, s, n + 2);
    assert n * (n + 1) < n * (s + 1) by {
      assert n * (s + 1) == n * s + n;
    }
    MulCancel(n, n + 1, s + 1);
  }

  /** Three races at different times on the first date, then one date after another. */
  function Crowded(k: nat): Frame {
    [Row(0, 0), Row(1, 1), Row(2, 2)] + seq(k, (i: nat) => Row((i + 1) * SECONDS_PER_DAY, i + 3))
  }

  lemma CrowdedFacts(k: nat)
    ensures |Days(Crowded(k))| == k + 1 && Days(Crowded(k))[0] == 0
    ensures StampCount(Before(Crowded(k), 1)) >= 3
  {
    CrowdedDays(k);
    CrowdedStamps(k);
  }

  lemma CrowdedDays(k: nat)
    ensures |Days(Crowded(k))| == k + 1 && Days(Crowded(k))[0] == 0
  {
    var data := Crowded(k);
    DaysFacts(data);
    var all := seq(k + 1, i => i);
    forall d ensures d in Days(data) <==> d in all {
      if d in all {
        if d == 0 { assert data[0] in data; } else { assert data[d + 2] in data && Day(data[d + 2]) == d; }
      }
      if d in Days(data) {
        var r :| r in data && Day(r) == d;
        var i :| 0 <= i < |data| && data[i] == r;
        assert all[d] == d;
      }
    }
    IncreasingUnique(Days(data), all);
  }

  lemma CrowdedStamps(k: nat)
    ensures StampCount(Before(Crowded(k), 1)) >= 3
  {
    var data := Crowded(k);
    BeforeMembers(data, 1);
    var first := [Row(0, 0), Row(1, 1), Row(2, 2)];
    forall r | r in first ensures r in Before(data, 1) {
      assert data[..3] == first;
      assert data[0] in data && data[1] in data && data[2] in data;
    }
    StampsGrow(first, Before(data, 1));
    assert first[0] in first && first[1] in first && first[2] in first;
    assert {0, 1, 2} <= set r | r in first :: r.stamp;
    SubsetSize({0, 1, 2}, set r | r in first :: r.stamp);
  }

  lemma SubsetSize(a: set<int>, b: set<int>)
    requires a <= b
    ensures |a| <= |b|
  {
    assert b == a + (b - a);
  }

  /** Two calibrations, `n_splits = 2`, `min_train_dates = 1`: five single-race dates are enough, but three races
      on the first date make the fit fail however many dates follow. */
  lemma CrowdedTower(k: nat)
    requires k >= 2
    ensures var plan, top := Tower(false, 2, 2, 1), Name(2);
            && plan.Valid() && top in plan.nodes && LearnedDepth(plan, top) == 2
            && Fit(plan, top, Crowded(k)).Err? && Fit(plan, top, Meetings(k + 3)).Ok?
  {
    hide Lookup, StageOk, LocalOk, Complete, LearnedDepth, Fit, Ready, Days, GuardHolds, Meetings, Crowded, StampCount;
    var plan, top, data := Tower(false, 2, 2, 1), Name(2), Crowded(k);
    TowerDepth(false, 2, 2, 1, 2);
    TowerNodes(false, 2, 2);
    CrowdedFacts(k);
    FirstDay(plan, data);
    IntradayStampsFail(plan, top, data, 0);
    MeetingsFacts(k + 3);
    OneStampGuard(plan, 2, Meetings(k + 3));
    PlainTowerReady(2, 2, 1, top, Meetings(k + 3));
    FitSucceeds(plan, top, Meetings(k + 3));
  }

  lemma FirstDay(plan: Plan, data: Frame)
    requires plan.Valid() && plan.minDates == 1 && |Days(data)| >= 1 + plan.splits && Days(data)[0] == 0
    requires StampCount(Before(data, 1)) >= 3
    ensures StampCount(Past(plan, data, 0)) >= 3 && |Days(Past(plan, data, 0))| == 1
  {
    hide Days, Before, FoldDays, StampCount, StageOk, Complete;
    FoldStart(plan, data, 0);
    SplitPointFacts(|Days(data)| - 1, plan.splits, 0);
    PastGrows(plan, data, 0);
    DaysFacts(data);
    BeforeMembers(data, 1);
    BeforeMembers(data, FoldDays(plan, data, 0)[0]);
    StampsGrow(Before(data, 1), Past(plan, data, 0));
  }

  lemma {:induction false} TowerAncestor(native: bool, k: nat, i: nat)
    requires i <= k
    ensures Ancestor(Lookup(Floors(native, k)), Name(i), Name(0))
  {
    hide Lookup, Ancestor;
    if i == 0 {
      SelfAncestor(Lookup(Floors(native, k)), Name(0));
    } else {
      TowerNodes(native, k, i);
      FloorSound(native, i);
      TowerAncestor(native, k, i - 1);
      assert Edge(Lookup(Floors(native, k)), Name(i), Name(i - 1));
      StepAncestor(Lookup(Floors(native, k)), Name(i), Name(i - 1), Name(0));
    }
  }

  /** A calibration over the adapter of a residual distribution: with `min_train_dates = 1` no number of single-race
      dates is enough, because the first fold leaves the estimator one instant; with two it is the documented one. */
  lemma WindowTower(splits: nat, k: nat)
    requires splits >= 2
    ensures var plan, top := Tower(true, 2, splits, 1), Name(2);
            plan.Valid() && top in plan.nodes && LearnedDepth(plan, top) == 1 && Fit(plan, top, Meetings(k)).Err?
    ensures var plan, top := Tower(true, 2, splits, 2), Name(2);
            plan.Valid() && top in plan.nodes && LearnedDepth(plan, top) == 1 && Fit(plan, top, Meetings(2 + splits)).Ok?
  {
    hide Lookup, StageOk, LocalOk, Complete, LearnedDepth, Fit, Days, GuardHolds, Meetings, StampCount, Sufficient, Past,
      Ancestor, Configured, ConfigFault;
    var plan, top, data := Tower(true, 2, splits, 1), Name(2), Meetings(k);
    TowerDepth(true, 2, splits, 1, 2);
    TowerNodes(true, 2, 0);
    TowerNodes(true, 2, 2);
    TowerAncestor(true, 2, 2);
    SelfAncestor(plan.nodes, top);
    ShallowExactly(plan, top, data);
    MeetingsFacts(k);
    if |Days(data)| >= plan.minDates + plan.splits {
      SingleFirstDate(plan, data);
    }
    var wider := Tower(true, 2, splits, 2);
    TowerDepth(true, 2, splits, 2, 2);
    TowerConfigured(true, 2, splits, 2, top);
    MeetingsFacts(2 + splits);
    TimesMonotone(splits, 0, 0);
    DocumentedReady(wider, top, Meetings(2 + splits));
    ShallowExactly(wider, top, Meetings(2 + splits));
  }
}
