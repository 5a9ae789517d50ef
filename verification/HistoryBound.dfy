/** How many meeting dates nested cross-fitting needs (ima/pipeline_graph.py, `required_dates`). */
module HistoryBound {
  import opened GraphValidation
  import opened CrossFitting
  import opened DryRun
  import opened HistoryFacts

  // ---- enough history at every level ----

  /** The fold guard counts instants where the nested fit counts dates. At a stage of depth `depth` and at every
      stage fitted inside it, the guard lets no fold through that is short of dates. */
  ghost predicate GuardHolds(plan: Plan, depth: nat, data: Frame)
    requires plan.Valid()
    decreases depth
  {
    depth <= 1
    || (&& GuardHolds(plan, depth - 1, data)
        && (|Days(data)| >= plan.minDates + plan.splits ==>
              forall i: nat :: i < plan.splits && StampCount(Past(plan, data, i)) >= LevelDates(plan, depth - 1) ==>
                |Days(Past(plan, data, i))| >= LevelDates(plan, depth - 1) && GuardHolds(plan, depth - 1, Past(plan, data, i))))
  }

  /** The documented number of dates for a learned depth. */
  function LevelDates(plan: Plan, depth: nat): nat {
    plan.minDates + Times(plan.splits, depth)
  }

  ghost predicate Enough(plan: Plan, depth: nat, data: Frame)
    requires plan.Valid()
  {
    depth <= plan.splits && (depth > 0 ==> |Days(data)| >= LevelDates(plan, depth)) && GuardHolds(plan, depth, data)
  }

  lemma {:induction false} GuardForLess(plan: Plan, data: Frame, depth: nat, less: nat)
    requires plan.Valid() && GuardHolds(plan, depth, data) && less <= depth
    ensures GuardHolds(plan, less, data)
    decreases depth
  {
    hide Days, Past, LevelDates, StampCount, StageOk, Complete;
    if less < depth && depth > 1 {
      GuardForLess(plan, data, depth - 1, less);
    }
  }

  lemma EnoughForLess(plan: Plan, data: Frame, depth: nat, less: nat)
    requires plan.Valid() && Enough(plan, depth, data) && less <= depth
    ensures Enough(plan, less, data)
  {
    hide GuardHolds, Days, StageOk, Complete;
    TimesMonotone(plan.splits, less, depth);
    GuardForLess(plan, data, depth, less);
  }

  /** One instant per date is one way to satisfy the guard. */
  lemma {:induction false} OneStampGuard(plan: Plan, depth: nat, data: Frame)
    requires plan.Valid() && OneStampPerDay(data)
    ensures GuardHolds(plan, depth, data)
    decreases depth
  {
    hide Days, StampCount, LevelDates, StageOk, Complete, FoldDays, OneStampPerDay;
    if depth > 1 {
      OneStampGuard(plan, depth - 1, data);
      if |Days(data)| >= plan.minDates + plan.splits {
        forall i: nat | i < plan.splits
          ensures GuardHolds(plan, depth - 1, Past(plan, data, i)) && StampCount(Past(plan, data, i)) == |Days(Past(plan, data, i))|
        {
          PastKeepsStamps(plan, data, i);
          OneStampGuard(plan, depth - 1, Past(plan, data, i));
          StampsAreDays(Past(plan, data, i));
        }
      }
    }
  }

  lemma PastKeepsStamps(plan: Plan, data: Frame, i: nat)
    requires plan.Valid() && OneStampPerDay(data)
    requires |Days(data)| >= plan.minDates + plan.splits && i < plan.splits
    ensures OneStampPerDay(Past(plan, data, i))
  {
    hide FoldDays, StageOk, Complete;
    BeforeMembers(data, FoldDays(plan, data, i)[0]);
  }

  // ---- the bound ----

  /** The eligible dates before the last block. */
  function LastStart(plan: Plan, data: Frame): int
    requires plan.splits > 0
  {
    |Days(data)| - plan.minDates - (|Days(data)| - plan.minDates) / plan.splits
  }

  /** A kept fold has the dates that its level needs. */
  lemma KeptFoldEnough(plan: Plan, keys: seq<Key>, data: Frame, i: nat, bound: nat)
    requires plan.Valid() && Below(plan, keys, bound) && ParentDepth(plan, keys, bound) <= plan.splits
    requires |Days(data)| >= plan.minDates + plan.splits && i < plan.splits
    requires GuardHolds(plan, ParentDepth(plan, keys, bound) + 1, data) && Kept(plan, keys, data, i, bound)
    ensures Enough(plan, ParentDepth(plan, keys, bound), Past(plan, data, i))
  {
    hide ParentDepth, Kept, Past, Complete, StageOk, Days, StampCount;
    KeptMeans(plan, keys, data, i, bound);
    PastGrows(plan, data, i);
    TimesMonotone(plan.splits, 0, 0);
  }

  /** The last fold is kept whenever its block starts late enough. */
  lemma LastFoldKept(plan: Plan, keys: seq<Key>, data: Frame, bound: nat)
    requires plan.Valid() && Below(plan, keys, bound)
    requires |Days(data)| >= plan.minDates + plan.splits
    requires LastStart(plan, data) >= Times(plan.splits, ParentDepth(plan, keys, bound))
    ensures Kept(plan, keys, data, plan.splits - 1, bound)
  {
    hide ParentDepth, Kept, Past, Complete, StageOk, Days, StampCount, SplitPoint, Times;
    var i := plan.splits - 1;
    FoldHistory(plan, data, i);
    SplitPointFacts(|Days(data)| - plan.minDates, plan.splits, i);
    DaysAtMostStamps(Past(plan, data, i));
    KeptMeans(plan, keys, data, i, bound);
  }

  lemma MulCancel(n: nat, a: nat, b: nat)
    requires n * a < n * b
    ensures a < b
  {
    if a >= b {
      MulMonotone(b, a, n);
    }
  }

  /** The arithmetic of the bound: after the last of `n` blocks is set aside, `n * d` dates remain. */
  lemma LastBlock(q: nat, n: nat, d: nat)
    requires n > 0 && d + 1 <= n && q >= Times(n, d + 1)
    ensures q - q / n >= Times(n, d)
  {
    QuotientAtLeast(q, n, d + 1);
    RestAtLeast(q / n, n, d);
    RemainderLeft(q, n);
  }

  lemma RemainderLeft(q: nat, n: nat)
    requires n > 0
    ensures q >= Times(n, q / n)
  {}

  lemma QuotientAtLeast(q: nat, n: nat, x: nat)
    requires n > 0 && q >= Times(n, x)
    ensures q / n >= x
  {
    var s, r := q / n, q % n;
    assert q == n * s + r;
    assert n * (s + 1) == n * s + n;
    MulCancel(n, x, s + 1);
  }

  lemma RestAtLeast(s: nat, n: nat, d: nat)
    requires d + 1 <= n && d + 1 <= s
    ensures Times(n, s) - s >= Times(n, d)
  {
    MulMonotone(d + 1, s, n - 1);
    assert s * (n - 1) == n * s - s;
    assert (d + 1) * (n - 1) == n * d + n - d - 1;
  }

  /** A frame that nothing refuses, with `min_train_dates + n_splits * D` dates for a learned depth D of at most
      `n_splits`, supports every nested fit. */
  lemma {:induction false} EnoughSuffices(plan: Plan, key: Key, data: Frame)
    requires plan.Valid() && key in plan.nodes && Ready(plan, key, data)
    requires Enough(plan, LearnedDepth(plan, key), data)
    ensures Sufficient(plan, key, data)
    decreases (assert key in plan.order; Rank(plan.order, key)), 1
  {
    hide Enough, LearnedStage, StageOk, ParentDepth, LearnedDepth, Complete, Ready, Refusal, Supported;
    DepthOf(plan, key);
    var inputs, bound := plan.nodes[key].inputs, Rank(plan.order, key);
    var d := ParentDepth(plan, inputs, bound);
    if LearnedStage(plan.nodes[key], plan.nodes) {
      LastBlockOf(plan, data, d);
      StageSuffices(plan, key, data);
    } else {
      forall p | p in inputs ensures Sufficient(plan, p, data) {
        ParentDepthBounds(plan, inputs, bound, p);
        EnoughForLess(plan, data, d, LearnedDepth(plan, p));
        ReadyInput(plan, key, data, p);
        EnoughSuffices(plan, p, data);
      }
      ReadyNoRefusal(plan, key, data);
    }
  }

  lemma LastBlockOf(plan: Plan, data: Frame, d: nat)
    requires plan.Valid() && Enough(plan, d + 1, data)
    ensures |Days(data)| >= plan.minDates + plan.splits && LastStart(plan, data) >= Times(plan.splits, d)
    ensures GuardHolds(plan, d + 1, data) && d < plan.splits
  {
    hide GuardHolds, Days, StageOk, Complete;
    LastBlock(|Days(data)| - plan.minDates, plan.splits, d);
    TimesMonotone(plan.splits, 0, d);
  }

  /** A learned stage over inputs of depth d <= `n_splits` only needs its last block to start late enough. */
  lemma {:induction false} StageSuffices(plan: Plan, key: Key, data: Frame)
    requires plan.Valid() && key in plan.nodes && Ready(plan, key, data)
    requires LearnedStage(plan.nodes[key], plan.nodes)
    requires key in plan.order && Below(plan, plan.nodes[key].inputs, Rank(plan.order, key))
    requires var d := ParentDepth(plan, plan.nodes[key].inputs, Rank(plan.order, key));
             && d <= plan.splits && GuardHolds(plan, d + 1, data)
             && |Days(data)| >= plan.minDates + plan.splits && LastStart(plan, data) >= Times(plan.splits, d)
    ensures Sufficient(plan, key, data)
    decreases (assert key in plan.order; Rank(plan.order, key)), 0
  {
    hide Enough, LearnedStage, StageOk, ParentDepth, LearnedDepth, Complete, Ready, Refusal, Kept, Past, Days, GuardHolds, Times;
    var inputs, bound := plan.nodes[key].inputs, Rank(plan.order, key);
    var d := ParentDepth(plan, inputs, bound);
    WholeFrameEnough(plan, data, d);
    forall p | p in inputs ensures Sufficient(plan, p, data) {
      ParentDepthBounds(plan, inputs, bound, p);
      EnoughForLess(plan, data, d, LearnedDepth(plan, p));
      ReadyInput(plan, key, data, p);
      EnoughSuffices(plan, p, data);
    }
    forall i: nat, p | i < plan.splits && Kept(plan, inputs, data, i, bound) && p in inputs
      ensures Sufficient(plan, p, Past(plan, data, i))
    {
      KeptFoldEnough(plan, inputs, data, i, bound);
      ParentDepthBounds(plan, inputs, bound, p);
      EnoughForLess(plan, Past(plan, data, i), d, LearnedDepth(plan, p));
      ReadyFold(plan, key, data, i, p);
      EnoughSuffices(plan, p, Past(plan, data, i));
    }
    LastFoldKept(plan, inputs, data, bound);
    ReadyNoRefusal(plan, key, data);
  }

  lemma WholeFrameEnough(plan: Plan, data: Frame, d: nat)
    requires plan.Valid() && d <= plan.splits && GuardHolds(plan, d + 1, data)
    requires |Days(data)| >= plan.minDates + plan.splits && LastStart(plan, data) >= Times(plan.splits, d)
    ensures Enough(plan, d, data)
  {
    hide GuardHolds, Days, StageOk, Complete, Times;
    GuardForLess(plan, data, d + 1, d);
    assert (|Days(data)| - plan.minDates) / plan.splits >= 0;
  }

  /** With learned depth D at most `n_splits` and at least `min_train_dates + n_splits * D` dates, no nested call
      runs out of history, and none is left without a fold. */
  lemma FitSucceeds(plan: Plan, key: Key, data: Frame)
    requires plan.Valid() && key in plan.nodes && Ready(plan, key, data)
    requires Enough(plan, LearnedDepth(plan, key), data)
    ensures Fit(plan, key, data).Ok?
  {
    hide *;
    EnoughSuffices(plan, key, data);
    FitExactly(plan, key, data);
  }

  // ---- exact conditions ----

  /** Up to learned depth one the guard plays no part: a fit succeeds exactly on a ready frame with
      `min_train_dates + n_splits` dates. */
  lemma ShallowExactly(plan: Plan, key: Key, data: Frame)
    requires plan.Valid() && key in plan.nodes && LearnedDepth(plan, key) <= 1
    ensures Fit(plan, key, data).Ok? <==>
            Ready(plan, key, data) && (LearnedDepth(plan, key) == 1 ==> |Days(data)| >= plan.minDates + plan.splits)
  {
    hide LearnedDepth, Fit, Sufficient, Ready, Days, StageOk, Complete;
    FitExactly(plan, key, data);
    if Sufficient(plan, key, data) {
      ReadyNecessary(plan, key, data);
      if LearnedDepth(plan, key) == 1 {
        LearnedNeedsDays(plan, key, data);
      }
    }
    TimesMonotone(plan.splits, 0, 0);
    if Ready(plan, key, data) {
      if LearnedDepth(plan, key) == 1 ==> |Days(data)| >= plan.minDates + plan.splits {
        EnoughSuffices(plan, key, data);
      }
    }
  }

  /** Under the guard's condition the last block of a fitted stage starts late enough. */
  lemma LateStartNeeded(plan: Plan, key: Key, data: Frame)
    requires plan.Valid() && key in plan.nodes && Sufficient(plan, key, data)
    requires LearnedStage(plan.nodes[key], plan.nodes) && GuardHolds(plan, LearnedDepth(plan, key), data)
    ensures |Days(data)| >= plan.minDates + plan.splits
    ensures LastStart(plan, data) >= Times(plan.splits, LearnedDepth(plan, key) - 1)
  {
    hide LearnedDepth, ParentDepth, LearnedStage, Refusal, Complete, StageOk, Days, Past, StampCount, Kept, Times, SplitPoint;
    DepthOf(plan, key);
    var inputs, bound := plan.nodes[key].inputs, Rank(plan.order, key);
    var d := ParentDepth(plan, inputs, bound);
    assert Supported(plan, inputs, data, bound);
    var i: nat :| i < plan.splits && Kept(plan, inputs, data, i, bound);
    KeptMeans(plan, inputs, data, i, bound);
    if d == 0 {
      NoTimes(plan.splits);
      StartsByLast(plan, data, 0);
    } else {
      assert |Days(Past(plan, data, i))| >= LevelDates(plan, d);
      StartsByLast(plan, data, i);
    }
  }

  /** No block starts later than the last. */
  lemma StartsByLast(plan: Plan, data: Frame, i: nat)
    requires plan.splits > 0 && |Days(data)| >= plan.minDates + plan.splits && i < plan.splits
    ensures 0 <= |Days(Past(plan, data, i))| - plan.minDates <= LastStart(plan, data)
  {
    hide Days, Past, SplitPoint;
    FoldHistory(plan, data, i);
    SplitPointFacts(|Days(data)| - plan.minDates, plan.splits, i);
  }

  lemma NoTimes(n: nat)
    ensures Times(n, 0) == 0 && Times(n, 1) == n
  {}

  /** Up to one level past the documented limit, where the guard lets through no fold short of dates, the exact need
      of a stage of learned depth D: its last block starts after at least `n_splits * (D - 1)` eligible dates. */
  lemma StageExactly(plan: Plan, key: Key, data: Frame)
    requires plan.Valid() && key in plan.nodes && LearnedStage(plan.nodes[key], plan.nodes)
    requires LearnedDepth(plan, key) <= plan.splits + 1 && GuardHolds(plan, LearnedDepth(plan, key), data)
    ensures LearnedDepth(plan, key) >= 1
    ensures Fit(plan, key, data).Ok? <==>
            && Ready(plan, key, data)
            && |Days(data)| >= plan.minDates + plan.splits
            && LastStart(plan, data) >= Times(plan.splits, LearnedDepth(plan, key) - 1)
  {
    hide LearnedDepth, ParentDepth, LearnedStage, Fit, Sufficient, Ready, Complete, StageOk, Days, Times, GuardHolds, LastStart;
    DepthOf(plan, key);
    FitExactly(plan, key, data);
    if Sufficient(plan, key, data) {
      ReadyNecessary(plan, key, data);
      LateStartNeeded(plan, key, data);
    }
    if Ready(plan, key, data) && |Days(data)| >= plan.minDates + plan.splits
       && LastStart(plan, data) >= Times(plan.splits, LearnedDepth(plan, key) - 1) {
      StageSuffices(plan, key, data);
    }
  }

  /** The history of a second level: some fold has the instants that the guard asks for, and every fold that has
      them has the dates too. */
  ghost predicate SecondLevel(plan: Plan, data: Frame)
    requires plan.Valid()
  {
    && |Days(data)| >= plan.minDates + plan.splits
    && (exists i: nat :: i < plan.splits && StampCount(Past(plan, data, i)) >= plan.minDates + plan.splits)
    && (forall i: nat :: i < plan.splits && StampCount(Past(plan, data, i)) >= plan.minDates + plan.splits ==>
          |Days(Past(plan, data, i))| >= plan.minDates + plan.splits)
  }

  /** At learned depth two, on every frame whatever its timestamps, this is the exact condition. */
  lemma {:induction false} DepthTwoExactly(plan: Plan, key: Key, data: Frame)
    requires plan.Valid() && key in plan.nodes && LearnedDepth(plan, key) == 2
    ensures Fit(plan, key, data).Ok? <==> Ready(plan, key, data) && SecondLevel(plan, data)
  {
    hide *;
    FitExactly(plan, key, data);
    if Sufficient(plan, key, data) {
      ReadyNecessary(plan, key, data);
      SecondLevelNeeded(plan, key, data);
    }
    if Ready(plan, key, data) && SecondLevel(plan, data) {
      SecondLevelSuffices(plan, key, data);
    }
  }

  lemma {:induction false} SecondLevelNeeded(plan: Plan, key: Key, data: Frame)
    requires plan.Valid() && key in plan.nodes && LearnedDepth(plan, key) == 2 && Sufficient(plan, key, data)
    ensures SecondLevel(plan, data)
    decreases (assert key in plan.order; Rank(plan.order, key))
  {
    hide LearnedDepth, ParentDepth, LearnedStage, Refusal, Complete, StageOk, Days, Past, StampCount, Kept, Times;
    DepthOf(plan, key);
    var inputs, bound := plan.nodes[key].inputs, Rank(plan.order, key);
    if inputs == [] {
      NoParentsNoDepth(plan, inputs, bound);
    } else {
      var p := ParentDepthAttained(plan, inputs, bound);
      if LearnedStage(plan.nodes[key], plan.nodes) {
        NoTimes(plan.splits);
        forall i: nat | i < plan.splits && |Days(data)| >= plan.minDates + plan.splits
          ensures Kept(plan, inputs, data, i, bound) <==> StampCount(Past(plan, data, i)) >= plan.minDates + plan.splits
          ensures Kept(plan, inputs, data, i, bound) ==> |Days(Past(plan, data, i))| >= plan.minDates + plan.splits
        {
          KeptMeans(plan, inputs, data, i, bound);
          if Kept(plan, inputs, data, i, bound) {
            LearnedNeedsDays(plan, p, Past(plan, data, i));
          }
        }
      } else {
        SecondLevelNeeded(plan, p, data);
      }
    }
  }

  lemma {:induction false} SecondLevelSuffices(plan: Plan, key: Key, data: Frame)
    requires plan.Valid() && key in plan.nodes && LearnedDepth(plan, key) <= 2
    requires Ready(plan, key, data) && SecondLevel(plan, data)
    ensures Sufficient(plan, key, data)
    decreases (assert key in plan.order; Rank(plan.order, key))
  {
    hide LearnedDepth, ParentDepth, LearnedStage, Refusal, Complete, StageOk, Days, Past, StampCount, Kept, Times, Ready, Fit;
    DepthOf(plan, key);
    var inputs, bound := plan.nodes[key].inputs, Rank(plan.order, key);
    forall p | p in inputs ensures Sufficient(plan, p, data) && LearnedDepth(plan, p) <= ParentDepth(plan, inputs, bound) {
      ParentDepthBounds(plan, inputs, bound, p);
      ReadyInput(plan, key, data, p);
      SecondLevelSuffices(plan, p, data);
    }
    ReadyNoRefusal(plan, key, data);
    if LearnedStage(plan.nodes[key], plan.nodes) {
      NoTimes(plan.splits);
      var i: nat :| i < plan.splits && StampCount(Past(plan, data, i)) >= plan.minDates + plan.splits;
      KeptMeans(plan, inputs, data, i, bound);
      forall j: nat, p | j < plan.splits && Kept(plan, inputs, data, j, bound) && p in inputs
        ensures Sufficient(plan, p, Past(plan, data, j))
      {
        KeptMeans(plan, inputs, data, j, bound);
        ReadyFold(plan, key, data, j, p);
        ShallowExactly(plan, p, Past(plan, data, j));
        FitExactly(plan, p, Past(plan, data, j));
      }
    }
  }

  /** At any depth from two on: a fold with enough instants for the guard but fewer than `min_train_dates + n_splits`
      dates is kept, and its nested fit runs out of history. */
  lemma IntradayStampsFail(plan: Plan, key: Key, data: Frame, i: nat)
    requires plan.Valid() && key in plan.nodes && LearnedStage(plan.nodes[key], plan.nodes)
    requires LearnedDepth(plan, key) >= 2
    requires |Days(data)| >= plan.minDates + plan.splits && i < plan.splits
    requires StampCount(Past(plan, data, i)) >= LevelDates(plan, LearnedDepth(plan, key) - 1)
    requires |Days(Past(plan, data, i))| < plan.minDates + plan.splits
    ensures Fit(plan, key, data).Err?
  {
    hide LearnedDepth, ParentDepth, LearnedStage, Refusal, Complete, StageOk, Days, Past, StampCount, Kept, Times, Fit;
    DepthOf(plan, key);
    LearnedParents(plan, key);
    var inputs, bound := plan.nodes[key].inputs, Rank(plan.order, key);
    var p := ParentDepthAttained(plan, inputs, bound);
    KeptMeans(plan, inputs, data, i, bound);
    FitExactly(plan, key, data);
    if Sufficient(plan, key, data) {
      LearnedNeedsDays(plan, p, Past(plan, data, i));
    }
  }

  // ---- the documented bound ----

  lemma QuotientOfProduct(n: nat, x: nat)
    requires n > 0
    ensures (n * x) / n == x
  {
    var s, r := (n * x) / n, (n * x) % n;
    assert n * x == n * s + r;
    assert n * s < n * (x + 1);
    MulCancel(n, s, x + 1);
    assert n * x < n * (s + 1);
    MulCancel(n, x, s + 1);
  }

  lemma LastBlockTooEarly(n: nat, d: nat)
    requires n > 0 && d >= n
    ensures Times(n, d + 1) - Times(n, d + 1) / n < Times(n, d)
  {
    var q := Times(n, d + 1);
    assert q == n * (d + 1) && n * (d + 1) == n * d + n;
    QuotientOfProduct(n, d + 1);
  }

  /** A learned stage deeper than `n_splits` fails on exactly that many dates. */
  lemma DeepStageFails(plan: Plan, key: Key, data: Frame)
    requires plan.Valid() && key in plan.nodes && LearnedStage(plan.nodes[key], plan.nodes)
    requires LearnedDepth(plan, key) > plan.splits && GuardHolds(plan, LearnedDepth(plan, key), data)
    requires |Days(data)| == LevelDates(plan, LearnedDepth(plan, key))
    ensures Fit(plan, key, data).Err?
  {
    hide LearnedDepth, LearnedStage, Complete, StageOk, Days, Times, Fit, Sufficient, GuardHolds;
    FitExactly(plan, key, data);
    if Sufficient(plan, key, data) {
      LateStartNeeded(plan, key, data);
      LastBlockTooEarly(plan.splits, LearnedDepth(plan, key) - 1);
    }
  }

  /** `k` meetings on consecutive dates. */
  function Meetings(k: nat): Frame {
    seq(k, (i: nat) => Row(i * SECONDS_PER_DAY, i))
  }

  lemma MeetingsFacts(k: nat)
    ensures OneStampPerDay(Meetings(k)) && |Days(Meetings(k))| == k
  {
    var data := Meetings(k);
    DaysFacts(data);
    var all := seq(k, i => i);
    forall d ensures d in Days(data) <==> d in all {
      if d in all {
        assert data[d] in data && Day(data[d]) == d;
      }
      if d in Days(data) {
        var r :| r in data && Day(r) == d;
        assert all[d] == d;
      }
    }
    IncreasingUnique(Days(data), all);
  }

  /** On one-instant dates the first training frame of a plan with `min_train_dates = 1` has one instant. */
  lemma SingleFirstDate(plan: Plan, data: Frame)
    requires plan.Valid() && OneStampPerDay(data) && |Days(data)| >= plan.minDates + plan.splits
    ensures StampCount(Past(plan, data, 0)) == plan.minDates
  {
    hide Days, Past, StampCount, StageOk, Complete;
    PastKeepsStamps(plan, data, 0);
    StampsAreDays(Past(plan, data, 0));
    PastGrows(plan, data, 0);
  }

  /** What makes the documented number of dates enough, whatever the dates are. */
  ghost predicate BoundHolds(plan: Plan, key: Key)
    requires plan.Valid() && key in plan.nodes
  {
    LearnedDepth(plan, key) <= plan.splits && Configured(plan, key) && (WindowedStage(plan, key) ==> plan.minDates >= 2)
  }

  lemma DocumentedReady(plan: Plan, key: Key, data: Frame)
    requires plan.Valid() && key in plan.nodes && BoundHolds(plan, key) && LearnedDepth(plan, key) > 0
    requires |Days(data)| >= LevelDates(plan, LearnedDepth(plan, key))
    ensures Ready(plan, key, data)
  {
    hide Days, Past, StampCount, StageOk, Complete, Configured, Windowed, WindowedStage, LearnedDepth;
    ManyStamps(plan, LearnedDepth(plan, key));
    DaysAtMostStamps(data);
    PastGrows(plan, data, 0);
    DaysAtMostStamps(Past(plan, data, 0));
  }

  /** The documented history is enough for a learned stage exactly when its depth is at most `n_splits`, no ancestor
      is misconfigured, and `min_train_dates` leaves room for a residual window wherever one is needed. */
  lemma HistoryBoundIsExact(plan: Plan, key: Key)
    requires plan.Valid() && key in plan.nodes && LearnedStage(plan.nodes[key], plan.nodes)
    ensures BoundHolds(plan, key) <==>
            forall data ::
              GuardHolds(plan, LearnedDepth(plan, key), data) && |Days(data)| >= LevelDates(plan, LearnedDepth(plan, key))
              ==> Fit(plan, key, data).Ok?
  {
    hide StageOk, Days, LearnedDepth, Fit, LearnedStage, Complete, Configured, Windowed, WindowedStage, GuardHolds, Sufficient;
    DepthOf(plan, key);
    if BoundHolds(plan, key) {
      forall data | GuardHolds(plan, LearnedDepth(plan, key), data) && |Days(data)| >= LevelDates(plan, LearnedDepth(plan, key))
        ensures Fit(plan, key, data).Ok?
      {
        DocumentedReady(plan, key, data);
        FitSucceeds(plan, key, data);
      }
    } else {
      var data := Meetings(LevelDates(plan, LearnedDepth(plan, key)));
      MeetingsFacts(LevelDates(plan, LearnedDepth(plan, key)));
      OneStampGuard(plan, LearnedDepth(plan, key), data);
      FailsOnMeetings(plan, key, data);
    }
  }

  lemma FailsOnMeetings(plan: Plan, key: Key, data: Frame)
    requires plan.Valid() && key in plan.nodes && LearnedStage(plan.nodes[key], plan.nodes)
    requires OneStampPerDay(data) && |Days(data)| == LevelDates(plan, LearnedDepth(plan, key)) && !BoundHolds(plan, key)
    ensures Fit(plan, key, data).Err?
  {
    hide StageOk, Days, LearnedDepth, Fit, LearnedStage, Complete, Configured, Windowed, WindowedStage, GuardHolds, Sufficient,
      Past, StampCount;
    DepthOf(plan, key);
    if LearnedDepth(plan, key) > plan.splits {
      OneStampGuard(plan, LearnedDepth(plan, key), data);
      DeepStageFails(plan, key, data);
    } else {
      FitExactly(plan, key, data);
      ManyStamps(plan, LearnedDepth(plan, key));
      SingleFirstDate(plan, data);
      if Sufficient(plan, key, data) {
        ReadyNecessary(plan, key, data);
      }
    }
  }
}
