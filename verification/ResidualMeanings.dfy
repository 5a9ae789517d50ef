/** What the adjusted-speed history of a row is, counted over the combined list of residuals
    (ima/feature_residuals.py, `AdjustedSpeedHistory.transform`). */
module ResidualMeanings {
  import opened PrefixSums
  import opened StableSort
  import opened Sums
  import opened ResidualHistory

  /** The first entry of its runner in its race. */
  ghost predicate Leads(entries: seq<Entry>, i: nat) {
    i < |entries| && forall j :: 0 <= j < i ==> entries[j].race != entries[i].race || entries[j].horseNo != entries[i].horseNo
  }

  /** It is the first entry of its runner and has a residual of the row's group. */
  ghost predicate InGroup(entries: seq<Entry>, row: Row, i: nat) {
    Leads(entries, i) && entries[i].residual.Some? && entries[i].key.Some? && row.key.Some? && entries[i].key.value == row.key.value
  }

  ghost predicate Counts(entries: seq<Entry>, row: Row, i: nat) {
    InGroup(entries, row, i) && entries[i].available < row.cutoff
  }

  /** Among the first `n` entries: how many count, and the total of their residuals. */
  ghost function Counted(entries: seq<Entry>, row: Row, n: nat): nat {
    if n == 0 then 0 else Counted(entries, row, n - 1) + if Counts(entries, row, n - 1) then 1 else 0
  }

  ghost function Totalled(entries: seq<Entry>, row: Row, n: nat): real {
    if n == 0 then 0.0 else Totalled(entries, row, n - 1) + if Counts(entries, row, n - 1) then entries[n - 1].residual.value else 0.0
  }

  lemma {:induction false} HeldExactly(xs: seq<Entry>, e: Entry)
    ensures Held(FirstOf(xs), e) <==> exists j :: 0 <= j < |xs| && xs[j].race == e.race && xs[j].horseNo == e.horseNo
  {
    if xs != [] {
      var n := |xs| - 1;
      HeldExactly(xs[..n], e);
      HeldExactly(xs[..n], xs[n]);
      assert forall j :: 0 <= j < n ==> xs[..n][j] == xs[j];
      HeldSnoc(FirstOf(xs[..n]), xs[n], e);
    }
  }

  lemma HeldSnoc(xs: seq<Entry>, x: Entry, e: Entry)
    ensures Held(xs + [x], e) <==> Held(xs, e) || SameRunner(x, e)
  {
    if Held(xs, e) { var y :| y in xs && SameRunner(y, e); assert y in xs + [x]; }
    if SameRunner(x, e) { assert x in xs + [x]; }
  }

  lemma KeptSnoc(entries: seq<Entry>, n: nat)
    requires n < |entries|
    ensures FirstOf(entries[..n + 1]) == if Leads(entries, n) then FirstOf(entries[..n]) + [entries[n]] else FirstOf(entries[..n])
  {
    HeldExactly(entries[..n], entries[n]);
    assert entries[..n + 1][..n] == entries[..n] && entries[..n + 1][n] == entries[n];
    assert forall j :: 0 <= j < n ==> entries[..n][j] == entries[j];
  }

  lemma PastSnoc(xs: seq<Entry>, e: Entry, key: string)
    ensures Past(xs + [e], key) == if e.key == Some(key) && e.residual.Some? then Past(xs, key) + [e] else Past(xs, key)
  {
    assert (xs + [e])[..|xs|] == xs;
  }

  lemma PastStep(entries: seq<Entry>, row: Row, n: nat)
    requires row.key.Some? && n < |entries|
    ensures Past(FirstOf(entries[..n + 1]), row.key.value)
         == Past(FirstOf(entries[..n]), row.key.value) + if InGroup(entries, row, n) then [entries[n]] else []
  {
    hide FirstOf, Past, Leads;
    KeptSnoc(entries, n);
    PastSnoc(FirstOf(entries[..n]), entries[n], row.key.value);
  }

  lemma BelowCounted(past: seq<Entry>, e: Entry, cutoff: int)
    requires e.residual.Some?
    ensures |Below(past + [e], ByAvailable, cutoff)| == |Below(past, ByAvailable, cutoff)| + if e.available < cutoff then 1 else 0
    ensures Sum(Below(past + [e], ByAvailable, cutoff), Residual)
         == Sum(Below(past, ByAvailable, cutoff), Residual) + if e.available < cutoff then e.residual.value else 0.0
  {
    BelowSnoc(past, e, ByAvailable, cutoff);
    hide Below, Sum;
    SumSnoc(Below(past, ByAvailable, cutoff), e, Residual);
  }

  lemma NoneCounted(entries: seq<Entry>, row: Row)
    requires row.key.Some?
    ensures var past := Past(FirstOf(entries[..0]), row.key.value);
            past == [] && |Below(past, ByAvailable, row.cutoff)| == 0 && Sum(Below(past, ByAvailable, row.cutoff), Residual) == 0.0
  {}

  lemma {:induction false} NonePast(entries: seq<Entry>, row: Row, n: nat)
    requires row.key.Some? && n <= |entries|
    ensures Past(FirstOf(entries[..n]), row.key.value) == [] <==> forall i: nat :: i < n ==> !InGroup(entries, row, i)
  {
    hide FirstOf, Past, InGroup;
    if n == 0 {
      NoneCounted(entries, row);
    } else {
      NonePast(entries, row, n - 1);
      PastStep(entries, row, n - 1);
    }
  }

  lemma {:induction false} PastCounted(entries: seq<Entry>, row: Row, n: nat)
    requires row.key.Some? && n <= |entries|
    ensures var known := Below(Past(FirstOf(entries[..n]), row.key.value), ByAvailable, row.cutoff);
            |known| == Counted(entries, row, n) && Sum(known, Residual) == Totalled(entries, row, n)
  {
    hide FirstOf, Past, Below, Sum;
    if n == 0 {
      NoneCounted(entries, row);
    } else {
      PastCounted(entries, row, n - 1);
      PastStep(entries, row, n - 1);
      CountedStep(entries, row, n - 1);
      hide InGroup, Counted, Totalled;
      var past := Past(FirstOf(entries[..n - 1]), row.key.value);
      if InGroup(entries, row, n - 1) {
        InGroupHas(entries, row, n - 1);
        BelowCounted(past, entries[n - 1], row.cutoff);
      } else {
        assert past + [] == past;
      }
    }
  }

  lemma CountedStep(entries: seq<Entry>, row: Row, n: nat)
    requires n < |entries|
    ensures InGroup(entries, row, n) ==> entries[n].residual.Some?
    ensures Counted(entries, row, n + 1) == Counted(entries, row, n) + if InGroup(entries, row, n) && entries[n].available < row.cutoff then 1 else 0
    ensures Totalled(entries, row, n + 1) == Totalled(entries, row, n)
              + if InGroup(entries, row, n) && entries[n].available < row.cutoff then entries[n].residual.value else 0.0
  {
    hide Leads;
  }

  lemma InGroupHas(entries: seq<Entry>, row: Row, i: nat)
    requires InGroup(entries, row, i)
    ensures i < |entries| && entries[i].residual.Some?
  {}

  /** A row's value is missing exactly where its group has no residual in the whole list, and otherwise spreads the total
      of the residuals available before its cutoff, each runner's first entry alone, over their number plus the shrinkage
      (over one at least). */
  lemma ValueExactly(entries: seq<Entry>, row: Row, shrinkage: real)
    ensures var v := Value(FirstOf(entries), row, shrinkage);
            var support := Counted(entries, row, |entries|) as real + shrinkage;
            && (v.Some? <==> exists i :: 0 <= i < |entries| && InGroup(entries, row, i))
            && (v.Some? ==> v.value * (if support < 1.0 then 1.0 else support) == Totalled(entries, row, |entries|))
  {
    hide FirstOf, Past, Below, Sum, Counted, Totalled, InGroup;
    if row.key.Some? {
      NonePast(entries, row, |entries|);
      PastCounted(entries, row, |entries|);
      assert entries[..|entries|] == entries;
      SpreadsBack(Totalled(entries, row, |entries|), Counted(entries, row, |entries|), shrinkage);
    } else {
      forall i: nat ensures !InGroup(entries, row, i) { NoGroup(entries, row, i); }
    }
  }

  lemma NoGroup(entries: seq<Entry>, row: Row, i: nat)
    requires row.key.None?
    ensures !InGroup(entries, row, i)
  {}

  lemma SpreadsBack(sum: real, count: nat, shrinkage: real)
    ensures var support := count as real + shrinkage;
            Shrunk(sum, count, shrinkage) * (if support < 1.0 then 1.0 else support) == sum
  {}
}
