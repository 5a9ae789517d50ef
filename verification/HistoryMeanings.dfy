/** What the history features of a row are, in its own past records (ima/feature_program.py, domain history). */
module HistoryMeanings {
  import opened StableSort
  import opened Sums
  import opened HistoryFeatures

  /** The record belongs to the row's group and was available strictly before its cutoff. */
  predicate Past(r: Record, row: Row) {
    row.key.Some? && r.key == row.key && r.available < row.cutoff
  }

  /** A row's history holds its past records, each as often as it was recorded. */
  lemma {:induction false} KnownExactly(records: seq<Record>, row: Row, r: Record)
    requires row.key.Some?
    ensures multiset(Known(records, row.key.value, row.cutoff))[r] == if Past(r, row) then multiset(records)[r] else 0
  {
    if records != [] {
      var n := |records| - 1;
      KnownExactly(records[..n], row, r);
      assert records == records[..n] + [records[n]];
      var group := Group(records[..n], row.key.value);
      assert (group + [records[n]])[..|group|] == group;
      hide Group;
      BelowSnoc(group, records[n], ByTime, row.cutoff);
    }
  }

  lemma KnownMember(records: seq<Record>, row: Row, r: Record)
    requires row.key.Some?
    ensures r in Known(records, row.key.value, row.cutoff) <==> r in records && Past(r, row)
  {
    hide Known;
    KnownExactly(records, row, r);
    assert r in records <==> multiset(records)[r] > 0;
    assert r in Known(records, row.key.value, row.cutoff) <==> multiset(Known(records, row.key.value, row.cutoff))[r] > 0;
  }

  /** None of the row's past records became available later; among simultaneous ones it is the last start. */
  ghost predicate IsLatest(records: seq<Record>, row: Row, r: Record) {
    r in records && Past(r, row) &&
    forall s :: s in records && Past(s, row) ==> s.available < r.available || (s.available == r.available && s.start <= r.start)
  }

  lemma LatestIsPast(records: seq<Record>, row: Row)
    requires row.key.Some? && Known(records, row.key.value, row.cutoff) != []
    ensures IsLatest(records, row, Latest(Known(records, row.key.value, row.cutoff)).value)
  {
    hide Known, Latest, Past;
    var known := Known(records, row.key.value, row.cutoff);
    LatestMeaning(known);
    KnownMember(records, row, Latest(known).value);
    forall s | s in records && Past(s, row) ensures s in known { KnownMember(records, row, s); }
    assert forall s :: s in known ==> Before(ByTime(s), ByTime(Latest(known).value));
  }

  lemma NothingPast(records: seq<Record>, row: Row)
    requires row.key.Some?
    ensures Known(records, row.key.value, row.cutoff) == [] <==> forall r :: r in records ==> !Past(r, row)
  {
    hide Known, Past;
    var known := Known(records, row.key.value, row.cutoff);
    forall r ensures r in known <==> r in records && Past(r, row) { KnownMember(records, row, r); }
    if known != [] { assert known[0] in known; }
  }

  /** The elapsed days and the weight change are counted from the latest past record, and are missing exactly where
      there is none (or, for the change, no weight to compare). */
  lemma SinceLatest(records: seq<Record>, row: Row) returns (r: Record)
    ensures var days, change := Naive(records, row, ElapsedDays), Naive(records, row, WeightChange);
            if forall s :: s in records ==> !Past(s, row) then days == change == None
            else
              && IsLatest(records, row, r)
              && days.Some? && days.value * 86400.0 == (row.cutoff - r.available) as real && days.value > 0.0
              && (change.Some? <==> row.weight.Some? && r.carried.Some?)
              && (change.Some? ==> r.carried.value + change.value == row.weight.value)
  {
    hide Known, Latest;
    r := Record(None, 0, 0, None, None);
    if row.key.Some? {
      NothingPast(records, row);
      if Known(records, row.key.value, row.cutoff) != [] {
        LatestIsPast(records, row);
        LatestMeaning(Known(records, row.key.value, row.cutoff));
        r := Latest(Known(records, row.key.value, row.cutoff)).value;
      }
    }
  }

  // ---- means ----

  function Fading(seconds: int, rate: real): real { -(seconds as real * rate) }

  /** What a past record counts for: one, or less the longer ago it became available. */
  function Share(op: Operation, cutoff: int): Record -> real {
    (r: Record) => if r.value.None? then 0.0 else if op.RecencyMean? then op.exp(Fading(cutoff - r.available, op.rate)) else 1.0
  }

  function Shared(op: Operation, cutoff: int): Record -> real {
    (r: Record) => if r.value.None? then 0.0 else Share(op, cutoff)(r) * r.value.value
  }

  ghost predicate Increasing(exp: real -> real) {
    forall x, y :: x < y ==> exp(x) < exp(y)
  }

  /** Newer records count for more, by the exponential of the time between them over the decay time. */
  lemma NewerCountsMore(op: Operation, cutoff: int, older: Record, newer: Record)
    requires op.RecencyMean? && IsExp(op.exp) && Increasing(op.exp) && op.rate > 0.0
    requires older.value.Some? && newer.value.Some? && older.available < newer.available
    ensures 0.0 < Share(op, cutoff)(older) < Share(op, cutoff)(newer)
    ensures Share(op, cutoff)(newer) == op.exp((newer.available - older.available) as real * op.rate) * Share(op, cutoff)(older)
  {
    var a, b := Fading(cutoff - older.available, op.rate), Fading(cutoff - newer.available, op.rate);
    var c := (newer.available - older.available) as real * op.rate;
    assert c > 0.0 && b == c + a;
    hide Increasing;
    ExpSplit(op.exp, c, a, b);
    ExpPositive(op.exp, a);
    IncreasingAt(op.exp, a, b);
  }

  lemma IncreasingAt(exp: real -> real, x: real, y: real)
    requires Increasing(exp) && x < y
    ensures exp(x) < exp(y)
  {}

  ghost predicate Averages(op: Operation) {
    op.MeanMeasure? || (op.RecencyMean? && IsExp(op.exp))
  }

  lemma SameShares(op: Operation, cutoff: int, r: Record)
    requires Averages(op)
    ensures var w := if op.RecencyMean? then Recency(op.exp, op.rate, cutoff) else Plain;
            Support(w)(r) == Share(op, cutoff)(r) && Term(w)(r) == Shared(op, cutoff)(r)
    ensures Share(op, cutoff)(r) >= 0.0 && (Share(op, cutoff)(r) > 0.0 <==> r.value.Some?)
  {
    hide Age, Fading, IsExp;
    if op.RecencyMean? {
      Signs(cutoff, r.available, op.rate);
      ExpPositive(op.exp, Age(r.available, cutoff, op.rate));
    }
  }

  lemma Signs(cutoff: int, t: int, rate: real)
    ensures Age(t, cutoff, rate) == Fading(cutoff - t, rate)
  {
    assert (t - cutoff) as real == -((cutoff - t) as real);
  }

  lemma {:induction false} SharesPositive(xs: seq<Record>, op: Operation, cutoff: int)
    requires Averages(op)
    ensures Sum(xs, Share(op, cutoff)) >= 0.0
    ensures Sum(xs, Share(op, cutoff)) > 0.0 <==> exists r :: r in xs && r.value.Some?
  {
    hide Averages, Share;
    if xs != [] {
      SharesPositive(xs[1..], op, cutoff);
      SameShares(op, cutoff, xs[0]);
      assert xs == [xs[0]] + xs[1..];
      forall r ensures r in xs <==> r == xs[0] || r in xs[1..] {}
      assert Sum(xs, Share(op, cutoff)) == Share(op, cutoff)(xs[0]) + Sum(xs[1..], Share(op, cutoff));
    }
  }

  /** The mean measure balances the shares of the past records that have one, and is missing exactly where none has. */
  lemma MeanBalances(records: seq<Record>, row: Row, op: Operation)
    requires Averages(op)
    ensures var mean := Naive(records, row, op);
            && (mean.Some? <==> exists r :: r in records && Past(r, row) && r.value.Some?)
            && (mean.Some? ==>
                  var known := Known(records, row.key.value, row.cutoff);
                  mean.value * Sum(known, Share(op, row.cutoff)) == Sum(known, Shared(op, row.cutoff)))
  {
    hide Known, Sum, Share, Shared, Averages, IsExp, Term, Support, Past;
    if row.key.None? {
      forall r ensures !Past(r, row) { NoKey(r, row); }
    } else {
      var known := Known(records, row.key.value, row.cutoff);
      var w := if op.RecencyMean? then Recency(op.exp, op.rate, row.cutoff) else Plain;
      forall r | r in known ensures Support(w)(r) == Share(op, row.cutoff)(r) && Term(w)(r) == Shared(op, row.cutoff)(r) {
        SameShares(op, row.cutoff, r);
      }
      SumCongruent(known, Support(w), Share(op, row.cutoff));
      SumCongruent(known, Term(w), Shared(op, row.cutoff));
      SharesPositive(known, op, row.cutoff);
      forall r ensures r in known <==> r in records && Past(r, row) { KnownMember(records, row, r); }
      MeanOf(records, row, op, w);
      RatioBalances(Sum(known, Term(w)), Sum(known, Support(w)));
    }
  }

  lemma MeanOf(records: seq<Record>, row: Row, op: Operation, w: Weighting)
    requires Averages(op) && row.key.Some? && w == if op.RecencyMean? then Recency(op.exp, op.rate, row.cutoff) else Plain
    ensures var known := Known(records, row.key.value, row.cutoff);
            Naive(records, row, op) == Ratio(Sum(known, Term(w)), Sum(known, Support(w)))
  {
    hide Known, Sum, Term, Support, Ratio;
  }

  lemma RatioBalances(sum: real, support: real)
    ensures Ratio(sum, support).Some? <==> support > 0.0
    ensures Ratio(sum, support).Some? ==> Ratio(sum, support).value * support == sum
  {}

  lemma NoKey(r: Record, row: Row)
    requires row.key.None?
    ensures !Past(r, row)
  {}
}
