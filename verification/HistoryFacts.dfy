/** What the folds of nested cross-fitting keep, and which frames no ancestor refuses
    (ima/pipeline_graph.py, `build`, `forward_inputs` and `required_dates`). */
module HistoryFacts {
  import opened GraphValidation
  import opened CrossFitting
  import opened DryRun

  // ---- distinct instants against distinct days ----

  lemma Pick(s: set<int>) returns (x: int)
    requires s != {}
    ensures x in s
  {
    if forall y :: y !in s {
      assert false;
    }
    x :| x in s;
  }

  lemma {:induction false} ImageSize(s: set<int>, f: int -> int, image: set<int>)
    requires forall y :: y in image ==> exists x :: x in s && f(x) == y
    ensures |image| <= |s|
  {
    if s == {} {
      if image != {} {
        var y := Pick(image);
      }
    } else {
      var x := Pick(s);
      forall y | y in image - {f(x)} ensures exists z :: z in s - {x} && f(z) == y {
        var z :| z in s && f(z) == y;
        assert z in s - {x};
      }
      ImageSize(s - {x}, f, image - {f(x)});
      if f(x) in image {
        assert |image - {f(x)}| == |image| - 1;
      } else {
        assert image - {f(x)} == image;
      }
    }
  }

  lemma {:induction false} IncreasingSize(xs: seq<int>)
    requires Increasing(xs)
    ensures |set x | x in xs| == |xs|
  {
    if xs == [] {
      assert (set x | x in xs) == {};
    } else {
      var rest := xs[1..];
      assert xs == [xs[0]] + rest;
      IncreasingCons(xs[0], rest);
      hide Increasing;
      IncreasingSize(rest);
      SizeCons(xs[0], rest);
    }
  }

  lemma SizeCons(x: int, rest: seq<int>)
    requires x !in rest
    ensures |set y | y in [x] + rest| == 1 + |set y | y in rest|
  {
    var tail := set y | y in rest;
    assert (set y | y in [x] + rest) == tail + {x};
  }

  /** There are at least as many instants as days. */
  lemma DaysAtMostStamps(data: Frame)
    ensures |Days(data)| <= StampCount(data)
  {
    var stamps := set r | r in data :: r.stamp;
    var days := set d | d in Days(data);
    var dayOf := (stamp: int) => stamp / SECONDS_PER_DAY;
    DaysFacts(data);
    IncreasingSize(Days(data));
    forall d | d in days ensures exists x :: x in stamps && dayOf(x) == d {
      var r :| r in data && Day(r) == d;
      assert r.stamp in stamps && dayOf(r.stamp) == d;
    }
    ImageSize(stamps, dayOf, days);
  }

  /** Every meeting date carries one timestamp, as normalised date columns do. */
  ghost predicate OneStampPerDay(data: Frame) {
    forall a, b :: a in data && b in data && Day(a) == Day(b) ==> a.stamp == b.stamp
  }

  ghost function StampOn(data: Frame, day: int): int {
    if exists r :: r in data && Day(r) == day then (var r :| r in data && Day(r) == day; r.stamp) else 0
  }

  lemma StampsAreDays(data: Frame)
    requires OneStampPerDay(data)
    ensures StampCount(data) == |Days(data)|
  {
    var stamps := set r | r in data :: r.stamp;
    var days := set d | d in Days(data);
    var stampOn := (day: int) => StampOn(data, day);
    DaysFacts(data);
    IncreasingSize(Days(data));
    forall x | x in stamps ensures exists d :: d in days && stampOn(d) == x {
      var r :| r in data && r.stamp == x;
      assert Day(r) in days && stampOn(Day(r)) == x;
    }
    ImageSize(days, stampOn, stamps);
    DaysAtMostStamps(data);
  }

  lemma StampsGrow(a: Frame, b: Frame)
    requires forall r :: r in a ==> r in b
    ensures StampCount(a) <= StampCount(b)
  {
    var few, many := set r | r in a :: r.stamp, set r | r in b :: r.stamp;
    assert few <= many;
    assert many == few + (many - few);
  }

  // ---- the first dates ----

  lemma {:induction false} BeforeBefore(data: Frame, early: int, late: int)
    requires early <= late
    ensures Before(Before(data, late), early) == Before(data, early)
  {
    if data != [] {
      BeforeBefore(data[1..], early, late);
      if Day(data[0]) < late {
        assert Before(data, late)[1..] == Before(data[1..], late);
      } else {
        assert Before(data, late) == Before(data[1..], late);
      }
    }
  }

  /** The i-th training frame holds at least the rows, days and instants of the first one. */
  lemma PastGrows(plan: Plan, data: Frame, i: nat)
    requires plan.splits > 0 && |Days(data)| >= plan.minDates + plan.splits && i < plan.splits
    ensures StampCount(Past(plan, data, 0)) <= StampCount(Past(plan, data, i))
    ensures |Days(Past(plan, data, 0))| == plan.minDates <= |Days(Past(plan, data, i))|
  {
    hide SplitPoint, Before, FoldDays, Days, StampCount;
    var q := |Days(data)| - plan.minDates;
    FoldStart(plan, data, 0);
    FoldStart(plan, data, i);
    FoldHistory(plan, data, 0);
    FoldHistory(plan, data, i);
    SplitPointFacts(q, plan.splits, i);
    DaysFacts(data);
    BeforeMembers(data, FoldDays(plan, data, 0)[0]);
    BeforeMembers(data, FoldDays(plan, data, i)[0]);
    StampsGrow(Past(plan, data, 0), Past(plan, data, i));
  }

  /** A nested fit starts from the same first dates as the outer one. */
  lemma SameFirstDates(plan: Plan, data: Frame, i: nat)
    requires plan.splits > 0 && |Days(data)| >= plan.minDates + plan.splits && i < plan.splits
    requires |Days(Past(plan, data, i))| >= plan.minDates + plan.splits
    ensures Past(plan, Past(plan, data, i), 0) == Past(plan, data, 0)
  {
    hide SplitPoint, Before, FoldDays, Days;
    var start := plan.minDates + SplitPoint(|Days(data)| - plan.minDates, plan.splits, i);
    SplitPointFacts(|Days(data)| - plan.minDates, plan.splits, 0);
    SplitPointFacts(|Days(Past(plan, data, i))| - plan.minDates, plan.splits, 0);
    FoldStart(plan, data, 0);
    FoldStart(plan, data, i);
    DaysBefore(data, start);
    FoldStart(plan, Past(plan, data, i), 0);
    DaysFacts(data);
    BeforeBefore(data, Days(data)[plan.minDates], Days(data)[start]);
  }

  // ---- configuration and residual windows ----

  /** No ancestor is configured so that `build` always raises. */
  ghost predicate Configured(plan: Plan, key: Key)
    requires plan.Valid()
  {
    forall a :: a in plan.nodes && Ancestor(plan.nodes, key, a) ==> ConfigFault(plan, plan.nodes[a]).None?
  }

  /** Some ancestor needs two instants to set a residual window aside. */
  ghost predicate Windowed(plan: Plan, key: Key) {
    exists a :: a in plan.nodes && Ancestor(plan.nodes, key, a) && NeedsWindow(plan, plan.nodes[a])
  }

  /** Some such ancestor lies under an innermost learned stage, which fits it on the first dates alone. */
  ghost predicate WindowedStage(plan: Plan, key: Key)
    requires plan.Valid()
  {
    exists s :: s in plan.nodes && Ancestor(plan.nodes, key, s)
                && LearnedStage(plan.nodes[s], plan.nodes) && LearnedDepth(plan, s) == 1 && Windowed(plan, s)
  }

  /** Nothing refuses the frame, nor its first `min_train_dates` dates where those are fitted. */
  ghost predicate Ready(plan: Plan, key: Key, data: Frame)
    requires plan.Valid()
  {
    && Configured(plan, key)
    && (Windowed(plan, key) ==> StampCount(data) >= 2)
    && (WindowedStage(plan, key) && |Days(data)| >= plan.minDates + plan.splits ==> StampCount(Past(plan, data, 0)) >= 2)
  }

  lemma {:induction false} AncestorSufficient(plan: Plan, key: Key, a: Key, data: Frame)
    requires plan.Valid() && key in plan.nodes && Sufficient(plan, key, data) && Ancestor(plan.nodes, key, a)
    ensures a in plan.nodes && Sufficient(plan, a, data)
    decreases (assert key in plan.order; Rank(plan.order, key))
  {
    hide Supported, Refusal, Complete, StageOk, Ancestor;
    if key != a {
      InputsBelow(plan, key);
      var i := FirstStep(plan.nodes, key, a);
      var p := plan.nodes[key].inputs[i];
      assert p in plan.nodes[key].inputs;
      AncestorSufficient(plan, p, a, data);
    }
  }

  lemma ReadyInput(plan: Plan, key: Key, data: Frame, p: Key)
    requires plan.Valid() && key in plan.nodes && p in plan.nodes[key].inputs && Ready(plan, key, data)
    ensures Ready(plan, p, data)
    ensures Configured(plan, p) && (Windowed(plan, p) ==> Windowed(plan, key)) && (WindowedStage(plan, p) ==> WindowedStage(plan, key))
  {
    hide Past, LearnedDepth, Complete, StageOk, Ancestor, Days, StampCount;
    forall a | Ancestor(plan.nodes, p, a) ensures Ancestor(plan.nodes, key, a) {
      StepAncestor(plan.nodes, key, p, a);
    }
  }

  lemma ReadyNoRefusal(plan: Plan, key: Key, data: Frame)
    requires plan.Valid() && key in plan.nodes && Ready(plan, key, data)
    ensures Refusal(plan, plan.nodes[key], data).None?
  {
    hide Past, LearnedDepth, Complete, StageOk, Ancestor, Days, StampCount, WindowedStage, ConfigFault;
    SelfAncestor(plan.nodes, key);
  }

  // ---- what a fold keeps ----

  lemma NoLearnedNoDepth(plan: Plan, keys: seq<Key>, bound: nat)
    requires plan.Valid() && Below(plan, keys, bound)
    ensures ParentDepth(plan, keys, bound) > 0 <==> exists k :: k in keys && HasLearned(plan, k)
  {
    hide ParentDepth, LearnedDepth, HasLearned, Complete, StageOk;
    if keys != [] {
      var k := ParentDepthAttained(plan, keys, bound);
      HasLearnedMeansDepth(plan, k);
    } else {
      NoParentsNoDepth(plan, keys, bound);
    }
    forall k | k in keys && HasLearned(plan, k) ensures ParentDepth(plan, keys, bound) > 0 {
      HasLearnedMeansDepth(plan, k);
      ParentDepthBounds(plan, keys, bound, k);
    }
  }

  lemma KeptMeans(plan: Plan, keys: seq<Key>, data: Frame, i: nat, bound: nat)
    requires plan.Valid() && Below(plan, keys, bound)
    requires |Days(data)| >= plan.minDates + plan.splits && i < plan.splits
    ensures Kept(plan, keys, data, i, bound) <==>
            ParentDepth(plan, keys, bound) == 0
            || StampCount(Past(plan, data, i)) >= plan.minDates + Times(plan.splits, ParentDepth(plan, keys, bound))
  {
    hide ParentDepth, HasLearned, Past, Complete, StageOk, Days, StampCount, Times;
    NoLearnedNoDepth(plan, keys, bound);
  }

  /** A learned node needs `min_train_dates + n_splits` dates wherever it is fitted. */
  lemma {:induction false} LearnedNeedsDays(plan: Plan, key: Key, data: Frame)
    requires plan.Valid() && key in plan.nodes && Sufficient(plan, key, data) && LearnedDepth(plan, key) > 0
    ensures |Days(data)| >= plan.minDates + plan.splits
    decreases (assert key in plan.order; Rank(plan.order, key))
  {
    hide LearnedDepth, ParentDepth, LearnedStage, Refusal, Complete, StageOk, Days;
    DepthOf(plan, key);
    if !LearnedStage(plan.nodes[key], plan.nodes) {
      var inputs, bound := plan.nodes[key].inputs, Rank(plan.order, key);
      if inputs == [] {
        NoParentsNoDepth(plan, inputs, bound);
      } else {
        var p := ParentDepthAttained(plan, inputs, bound);
        LearnedNeedsDays(plan, p, data);
      }
    }
  }

  // ---- what every successful fit shows ----

  lemma StageWindow(plan: Plan, s: Key, data: Frame)
    requires plan.Valid() && s in plan.nodes && Sufficient(plan, s, data)
    requires LearnedStage(plan.nodes[s], plan.nodes) && LearnedDepth(plan, s) == 1 && Windowed(plan, s)
    ensures |Days(data)| >= plan.minDates + plan.splits && StampCount(Past(plan, data, 0)) >= 2
  {
    hide LearnedDepth, ParentDepth, Complete, StageOk, Days, Ancestor, LearnedStage, StampCount, Past, Kept, ConfigFault;
    DepthOf(plan, s);
    LearnedParents(plan, s);
    var inputs, bound := plan.nodes[s].inputs, Rank(plan.order, s);
    var w :| w in plan.nodes && Ancestor(plan.nodes, s, w) && NeedsWindow(plan, plan.nodes[w]);
    var i := FirstStep(plan.nodes, s, w);
    var p := inputs[i];
    assert p in inputs;
    KeptMeans(plan, inputs, data, 0, bound);
    assert Kept(plan, inputs, data, 0, bound);
    AncestorSufficient(plan, p, w, Past(plan, data, 0));
  }

  /** Wherever a fit succeeds, the configuration is sound and the residual windows are there. */
  lemma ReadyNecessary(plan: Plan, key: Key, data: Frame)
    requires plan.Valid() && key in plan.nodes && Sufficient(plan, key, data)
    ensures Ready(plan, key, data)
  {
    hide LearnedDepth, Complete, StageOk, Days, Ancestor, LearnedStage, StampCount, Past, ConfigFault, Supported;
    forall a | a in plan.nodes && Ancestor(plan.nodes, key, a)
      ensures ConfigFault(plan, plan.nodes[a]).None? && (NeedsWindow(plan, plan.nodes[a]) ==> StampCount(data) >= 2)
    {
      AncestorSufficient(plan, key, a, data);
      assert Refusal(plan, plan.nodes[a], data).None?;
    }
    if WindowedStage(plan, key) {
      var s :| s in plan.nodes && Ancestor(plan.nodes, key, s)
               && LearnedStage(plan.nodes[s], plan.nodes) && LearnedDepth(plan, s) == 1 && Windowed(plan, s);
      AncestorSufficient(plan, key, s, data);
      StageWindow(plan, s, data);
    }
  }

  /** The frames of kept folds are ready for the inputs that are fitted on them. */
  lemma ReadyFold(plan: Plan, key: Key, data: Frame, i: nat, p: Key)
    requires plan.Valid() && key in plan.nodes && LearnedStage(plan.nodes[key], plan.nodes) && Ready(plan, key, data)
    requires key in plan.order && Below(plan, plan.nodes[key].inputs, Rank(plan.order, key))
    requires |Days(data)| >= plan.minDates + plan.splits && i < plan.splits
    requires Kept(plan, plan.nodes[key].inputs, data, i, Rank(plan.order, key)) && p in plan.nodes[key].inputs
    ensures Ready(plan, p, Past(plan, data, i))
  {
    hide LearnedDepth, ParentDepth, Complete, StageOk, Days, Ancestor, LearnedStage, StampCount, Past, ConfigFault, Times,
      NeedsWindow, Configured, Kept;
    var inputs, bound := plan.nodes[key].inputs, Rank(plan.order, key);
    ReadyInput(plan, key, data, p);
    DepthOf(plan, key);
    KeptMeans(plan, inputs, data, i, bound);
    PastGrows(plan, data, i);
    TimesMonotone(plan.splits, 0, ParentDepth(plan, inputs, bound));
    if ParentDepth(plan, inputs, bound) == 0 {
      SelfAncestor(plan.nodes, key);
    } else {
      ManyStamps(plan, ParentDepth(plan, inputs, bound));
    }
    if |Days(Past(plan, data, i))| >= plan.minDates + plan.splits {
      SameFirstDates(plan, data, i);
    }
  }

  lemma ManyStamps(plan: Plan, d: nat)
    requires plan.Valid() && d > 0
    ensures plan.minDates + Times(plan.splits, d) >= plan.minDates + plan.splits >= 3
  {
    hide Complete, StageOk;
    MulMonotone(1, d, plan.splits);
  }

  lemma TimesMonotone(n: nat, a: nat, b: nat)
    requires a <= b
    ensures Times(n, a) <= Times(n, b)
    ensures Times(n, a + 1) == Times(n, a) + n
  {}
}
