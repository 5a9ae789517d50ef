/** Shrunken means of a horse's earlier speed residuals (ima/feature_residuals.py, `AdjustedSpeedHistory.transform`). */
module ResidualHistory {
  import opened Bisection
  import opened PrefixSums
  import opened StableSort
  import opened Sums

  datatype Option<+T> = None | Some(value: T)

  /** One runner's residual; `key` is the horse, or horse and distance band, and missing when the band is. */
  datatype Entry = Entry(race: string, horseNo: int, key: Option<string>, available: int, residual: Option<real>)

  datatype Row = Row(key: Option<string>, cutoff: int)

  function ByAvailable(e: Entry): (int, int) { (e.available, 0) }

  function Residual(e: Entry): real { if e.residual.Some? then e.residual.value else 0.0 }

  predicate SameRunner(a: Entry, b: Entry) { a.race == b.race && a.horseNo == b.horseNo }

  predicate Held(xs: seq<Entry>, e: Entry) { exists x | x in xs :: SameRunner(x, e) }

  /** Dropping duplicate runners, the first one kept: stored history before the rows being transformed. */
  function FirstOf(xs: seq<Entry>): seq<Entry> {
    if xs == [] then []
    else
      var kept := FirstOf(xs[..|xs|-1]);
      if Held(kept, xs[|xs|-1]) then kept else kept + [xs[|xs|-1]]
  }

  /** The group's entries with a residual, in order. */
  function Past(xs: seq<Entry>, key: string): seq<Entry> {
    if xs == [] then []
    else
      var past := Past(xs[..|xs|-1], key);
      var e := xs[|xs|-1];
      if e.key == Some(key) && e.residual.Some? then past + [e] else past
  }

  function AtLeastOne(x: real): real { if x >= 1.0 then x else 1.0 }

  function Shrunk(sum: real, count: nat, shrinkage: real): real {
    sum / AtLeastOne(count as real + shrinkage)
  }

  /** What the row of a group gets: the shrunken mean over the group's residuals strictly before its cutoff; nothing if
      the group is unknown to the whole history. */
  function Answer(history: seq<Entry>, key: string, cutoff: int, shrinkage: real): Option<real> {
    var past := Past(history, key);
    var known := Below(past, ByAvailable, cutoff);
    if past == [] then None else Some(Shrunk(Sum(known, Residual), |known|, shrinkage))
  }

  /** Grouping drops rows without a group; they get nothing. */
  function Value(history: seq<Entry>, row: Row, shrinkage: real): Option<real> {
    if row.key.None? then None else Answer(history, row.key.value, row.cutoff, shrinkage)
  }

  /** The row's group, if it has one, has a residual somewhere in the history. */
  predicate GroupKnown(history: seq<Entry>, row: Row) {
    row.key.Some? && Past(history, row.key.value) != []
  }

  lemma PrefixIsKnown(past: seq<Entry>, cutoff: int, count: nat)
    requires var group := SortBy(past, ByAvailable);
      && count <= |group|
      && (forall i :: 0 <= i < count ==> group[i].available < cutoff)
      && (forall i :: count <= i < |group| ==> group[i].available >= cutoff)
    ensures SortBy(past, ByAvailable)[..count] == SortBy(Below(past, ByAvailable, cutoff), ByAvailable)
    ensures count == |Below(past, ByAvailable, cutoff)|
    ensures Sum(SortBy(past, ByAvailable)[..count], Residual) == Sum(Below(past, ByAvailable, cutoff), Residual)
  {
    hide SortBy, Below, Sum;
    PrefixIsBelow(past, ByAvailable, cutoff, count);
    SortedSize(Below(past, ByAvailable, cutoff), ByAvailable);
    SumSort(Below(past, ByAvailable, cutoff), ByAvailable, Residual);
  }

  method FillKey(history: seq<Entry>, rows: seq<Row>, shrinkage: real, key: string, values: array<Option<real>>)
    requires values.Length == |rows|
    modifies values
    ensures forall i :: 0 <= i < |rows| ==>
              values[i] == if rows[i].key == Some(key) && Past(history, key) != [] then Value(history, rows[i], shrinkage) else old(values[i])
  {
    hide SortBy, Past, Sum, Below, Shrunk;
    var past := Past(history, key);
    if past == [] { return; }
    var group := SortBy(past, ByAvailable);
    SortBySorts(past, ByAvailable);
    var times := seq(|group|, i requires 0 <= i < |group| => group[i].available);
    forall i, j | 0 <= i <= j < |times| ensures times[i] <= times[j] { assert Before(ByAvailable(group[i]), ByAvailable(group[j])); }
    assert forall i :: 0 <= i < |group| ==> group[i].available == times[i];
    var sums := Cumulate(group, Residual);
    for i := 0 to |rows|
      invariant forall j :: 0 <= j < i ==> values[j] == if rows[j].key == Some(key) then Value(history, rows[j], shrinkage) else old(values[j])
      invariant forall j :: i <= j < |rows| ==> values[j] == old(values[j])
    {
      if rows[i].key == Some(key) {
        var count := BisectLeft(times, rows[i].cutoff);
        PrefixIsKnown(past, rows[i].cutoff, count);
        values[i] := Some(Shrunk(sums[count], count, shrinkage));
      }
    }
  }

  /** Distinct row keys in order of first appearance. */
  function RowKeys(rows: seq<Row>): seq<string> {
    if rows == [] then []
    else
      var keys := RowKeys(rows[..|rows|-1]);
      var key := rows[|rows|-1].key;
      if key.None? || key.value in keys then keys else keys + [key.value]
  }

  lemma {:induction false} RowKeysMembers(rows: seq<Row>)
    ensures forall i :: 0 <= i < |rows| && rows[i].key.Some? ==> rows[i].key.value in RowKeys(rows)
  {
    if rows != [] {
      RowKeysMembers(rows[..|rows|-1]);
      forall i | 0 <= i < |rows| - 1 && rows[i].key.Some? ensures rows[i].key.value in RowKeys(rows) { assert rows[..|rows|-1][i] == rows[i]; }
    }
  }

  /** One column of `transform`: every row gets its value over the combined, de-duplicated history. */
  method Transform(stored: seq<Entry>, current: seq<Entry>, rows: seq<Row>, shrinkage: real) returns (values: array<Option<real>>)
    ensures fresh(values) && values.Length == |rows|
    ensures forall i :: 0 <= i < |rows| ==> values[i] == Value(FirstOf(stored + current), rows[i], shrinkage)
  {
    hide Past, FirstOf, RowKeys, Below;
    var history := FirstOf(stored + current);
    values := new Option<real>[|rows|](i => None);
    var keys := RowKeys(rows);
    for k := 0 to |keys|
      invariant forall i :: 0 <= i < |rows| ==>
                  values[i] == if rows[i].key.Some? && rows[i].key.value in keys[..k] then Value(history, rows[i], shrinkage) else None
    {
      assert keys[..k + 1] == keys[..k] + [keys[k]];
      FillKey(history, rows, shrinkage, keys[k], values);
    }
    assert keys[..|keys|] == keys;
    RowKeysMembers(rows);
  }

  // ---- later evidence ----

  /** Entries of one runner become available together. */
  ghost predicate TogetherAvailable(entries: seq<Entry>) {
    forall a, b :: a in entries && b in entries && SameRunner(a, b) ==> a.available == b.available
  }

  lemma {:induction false} FirstOfMembers(xs: seq<Entry>)
    ensures forall e :: e in FirstOf(xs) ==> e in xs
  {
    hide Held;
    if xs != [] {
      FirstOfMembers(xs[..|xs|-1]);
      assert xs == xs[..|xs|-1] + [xs[|xs|-1]];
    }
  }

  lemma HeldBelow(xs: seq<Entry>, e: Entry, cutoff: int)
    requires forall x :: x in xs && SameRunner(x, e) ==> x.available == e.available
    ensures e.available < cutoff ==> (Held(xs, e) <==> Held(Below(xs, ByAvailable, cutoff), e))
  {
    hide Below;
    forall x ensures x in Below(xs, ByAvailable, cutoff) <==> x in xs && x.available < cutoff {
      BelowMember(xs, ByAvailable, cutoff, x);
    }
  }

  /** Where a runner's entries become available together, dropping duplicates and bounding commute, so later entries
      may stand anywhere. */
  lemma {:induction false} FirstOfEarly(xs: seq<Entry>, cutoff: int)
    requires TogetherAvailable(xs)
    ensures Below(FirstOf(xs), ByAvailable, cutoff) == FirstOf(Below(xs, ByAvailable, cutoff))
  {
    hide Held, SameRunner;
    if xs != [] {
      var n := |xs| - 1;
      assert xs == xs[..n] + [xs[n]];
      FirstOfEarly(xs[..n], cutoff);
      FirstOfMembers(xs[..n]);
      HeldBelow(FirstOf(xs[..n]), xs[n], cutoff);
      BelowSnoc(FirstOf(xs[..n]), xs[n], ByAvailable, cutoff);
      var early := Below(xs[..n], ByAvailable, cutoff);
      assert (early + [xs[n]])[..|early|] == early;
    }
  }

  /** Later entries at the end of the list never displace an earlier one, whatever their runners. */
  lemma {:induction false} AppendedEarly(xs: seq<Entry>, later: seq<Entry>, cutoff: int)
    requires forall e :: e in later ==> e.available >= cutoff
    ensures Below(FirstOf(xs + later), ByAvailable, cutoff) == Below(FirstOf(xs), ByAvailable, cutoff)
  {
    hide Held, Below;
    if later == [] {
      assert xs + later == xs;
    } else {
      var n := |later| - 1;
      AppendedEarly(xs, later[..n], cutoff);
      assert xs + later == (xs + later[..n]) + [later[n]];
      assert (xs + later)[..|xs + later| - 1] == xs + later[..n];
      BelowSnoc(FirstOf(xs + later[..n]), later[n], ByAvailable, cutoff);
    }
  }

  lemma {:induction false} PastOfEarly(xs: seq<Entry>, key: string, cutoff: int)
    ensures Below(Past(xs, key), ByAvailable, cutoff) == Past(Below(xs, ByAvailable, cutoff), key)
  {
    if xs != [] {
      var n := |xs| - 1;
      PastOfEarly(xs[..n], key, cutoff);
      BelowSnoc(Past(xs[..n], key), xs[n], ByAvailable, cutoff);
      var early := Below(xs[..n], ByAvailable, cutoff);
      assert (early + [xs[n]])[..|early|] == early;
    }
  }

  lemma NothingBelow(past: seq<Entry>, cutoff: int)
    ensures past == [] ==> Below(past, ByAvailable, cutoff) == []
  {}

  /** Two lists whose distinct runners agree on the entries available before a row's cutoff, wherever their later
      entries stand (the row's own result among them), give it the same value, or one gives zero where the other,
      knowing no residual of the group at all, gives nothing. */
  lemma LaterEntriesOnlyFillIn(entries: seq<Entry>, other: seq<Entry>, row: Row, shrinkage: real)
    requires Below(FirstOf(entries), ByAvailable, row.cutoff) == Below(FirstOf(other), ByAvailable, row.cutoff)
    ensures var x, y := Value(FirstOf(entries), row, shrinkage), Value(FirstOf(other), row, shrinkage);
            && (x.Some? && y.Some? ==> x == y)
            && (x.None? ==> y == None || y == Some(0.0)) && (y.None? ==> x == None || x == Some(0.0))
            && (x == y <==> (GroupKnown(FirstOf(entries), row) <==> GroupKnown(FirstOf(other), row)))
  {
    hide Past, FirstOf, Below;
    if row.key.Some? {
      var key := row.key.value;
      PastOfEarly(FirstOf(entries), key, row.cutoff);
      PastOfEarly(FirstOf(other), key, row.cutoff);
      NothingBelow(Past(FirstOf(entries), key), row.cutoff);
      NothingBelow(Past(FirstOf(other), key), row.cutoff);
    }
  }

  /** ... which does happen: with no earlier start, the row's own later result turns missing into zero. */
  lemma OwnResultFillsIn(own: Entry, row: Row, shrinkage: real)
    requires own.key.Some? && own.key == row.key && own.residual.Some? && own.available >= row.cutoff
    ensures Value(FirstOf([]), row, shrinkage) == None && Value(FirstOf([own]), row, shrinkage) == Some(0.0)
  {
    assert [own][..0] == [];
    assert FirstOf([own]) == [own] && Past([own], row.key.value) == [own];
    assert Below([own], ByAvailable, row.cutoff) == [];
  }
}
