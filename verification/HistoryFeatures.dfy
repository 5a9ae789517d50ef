/** Features over a horse's own past, computed group by group with sorting, binary search and prefix sums
    (ima/feature_program.py, domain history). */
module HistoryFeatures {
  import opened Bisection
  import opened PrefixSums
  import opened StableSort
  import opened Sums

  datatype Option<+T> = None | Some(value: T)

  /** A past start: its group (horse, or horse and context; none if unknown), when it became available, its row
      number, the measurement and the weight carried. Times are in seconds. */
  datatype Record = Record(key: Option<string>, available: int, start: int, value: Option<real>, carried: Option<real>)

  /** A row asking for its history: its group, its cutoff and the weight now carried. */
  datatype Row = Row(key: Option<string>, cutoff: int, weight: Option<real>)

  function ByTime(r: Record): (int, int) { (r.available, r.start) }

  function Group(records: seq<Record>, key: string): seq<Record> {
    if records == [] then []
    else
      var group := Group(records[..|records|-1], key);
      if records[|records|-1].key == Some(key) then group + [records[|records|-1]] else group
  }

  /** The naive history: the group's records available strictly before the cutoff. */
  function Known(records: seq<Record>, key: string, cutoff: int): seq<Record> {
    Below(Group(records, key), ByTime, cutoff)
  }

  // ---- weighted means ----

  /** `rate` is one over the decay time in seconds; `anchor` the instant of weight one. */
  datatype Weighting = Plain | Recency(exp: real -> real, rate: real, anchor: int)

  function Age(t: int, anchor: int, rate: real): real { (t - anchor) as real * rate }

  function Weight(w: Weighting, r: Record): real {
    match w
    case Plain => 1.0
    case Recency(exp, rate, anchor) => exp(Age(r.available, anchor, rate))
  }

  function Term(w: Weighting): Record -> real {
    (r: Record) => if r.value.None? then 0.0 else Weight(w, r) * r.value.value
  }

  function Support(w: Weighting): Record -> real {
    (r: Record) => if r.value.None? then 0.0 else Weight(w, r)
  }

  function Ratio(sum: real, support: real): Option<real> {
    if support > 0.0 then Some(sum / support) else None
  }

  function Mean(xs: seq<Record>, w: Weighting): Option<real> {
    Ratio(Sum(xs, Term(w)), Sum(xs, Support(w)))
  }

  // The laws of the exponential that recency weighting relies on.

  ghost predicate ExpLaw(exp: real -> real, x: real, y: real, z: real) {
    z == x + y ==> exp(z) == exp(x) * exp(y)
  }

  ghost predicate IsExp(exp: real -> real) {
    && (forall x :: exp(x) > 0.0)
    && (forall x, y, z :: ExpLaw(exp, x, y, z))
  }

  lemma ShiftedWeight(exp: real -> real, rate: real, a: int, b: int, r: Record)
    requires IsExp(exp)
    ensures Weight(Recency(exp, rate, b), r) == exp(Age(a, b, rate)) * Weight(Recency(exp, rate, a), r)
  {
    hide IsExp, Age;
    AgesAdd(r.available, a, b, rate);
    ExpSplit(exp, Age(a, b, rate), Age(r.available, a, rate), Age(r.available, b, rate));
  }

  lemma AgesAdd(t: int, a: int, b: int, rate: real)
    ensures Age(t, b, rate) == Age(a, b, rate) + Age(t, a, rate)
  {
    Distribute((a - b) as real, (t - a) as real, (t - b) as real, rate);
  }

  lemma ExpSplit(exp: real -> real, x: real, y: real, z: real)
    requires IsExp(exp) && z == x + y
    ensures exp(z) == exp(x) * exp(y)
  {
    assert ExpLaw(exp, x, y, z);
  }

  lemma Distribute(p: real, q: real, s: real, rate: real)
    requires p + q == s
    ensures p * rate + q * rate == s * rate
  {}

  lemma ScaledTerm(c: real, w: real, v: real, cw: real)
    requires cw == c * w
    ensures cw * v == c * (w * v)
  {}

  lemma ScaledRatio(c: real, sum: real, support: real, csum: real, csupport: real)
    requires c > 0.0 && csum == c * sum && csupport == c * support
    ensures Ratio(csum, csupport) == Ratio(sum, support)
  {
    if support > 0.0 {
      assert csupport > 0.0;
      var q := sum / support;
      assert q * support == sum;
      assert q * csupport == csum;
      assert csum / csupport == q;
    } else {
      assert csupport <= 0.0;
    }
  }

  /** A recency-weighted mean does not depend on the instant its weights are anchored at. */
  lemma AnchorIrrelevant(xs: seq<Record>, exp: real -> real, rate: real, a: int, b: int)
    requires IsExp(exp)
    ensures Mean(xs, Recency(exp, rate, a)) == Mean(xs, Recency(exp, rate, b))
  {
    hide IsExp, Weight, Ratio;
    var w, w' := Recency(exp, rate, a), Recency(exp, rate, b);
    var c := exp(Age(a, b, rate));
    assert c > 0.0 by { ExpPositive(exp, Age(a, b, rate)); }
    forall r | r in xs ensures Support(w')(r) == c * Support(w)(r) && Term(w')(r) == c * Term(w)(r) {
      ShiftedWeight(exp, rate, a, b, r);
      if r.value.Some? { ScaledTerm(c, Weight(w, r), r.value.value, Weight(w', r)); }
    }
    SumScale(xs, c, Term(w), Term(w'));
    SumScale(xs, c, Support(w), Support(w'));
    ScaledRatio(c, Sum(xs, Term(w)), Sum(xs, Support(w)), Sum(xs, Term(w')), Sum(xs, Support(w')));
  }

  lemma ExpPositive(exp: real -> real, x: real)
    requires IsExp(exp)
    ensures exp(x) > 0.0
  {}

  // ---- the latest record ----

  /** The most recent record: latest available, then latest row; of equals the last. */
  function Latest(xs: seq<Record>): Option<Record> {
    if xs == [] then None
    else
      var l := Latest(xs[..|xs|-1]);
      if l.None? || Before(ByTime(l.value), ByTime(xs[|xs|-1])) then Some(xs[|xs|-1]) else l
  }

  lemma {:induction false} LatestIsLast(xs: seq<Record>)
    ensures var s := SortBy(xs, ByTime); Latest(xs) == if s == [] then None else Some(s[|s|-1])
  {
    if xs != [] { LatestIsLast(xs[..|xs|-1]); }
  }

  lemma {:induction false} LatestMeaning(xs: seq<Record>)
    ensures Latest(xs).Some? <==> xs != []
    ensures Latest(xs).Some? ==> Latest(xs).value in xs && forall r :: r in xs ==> Before(ByTime(r), ByTime(Latest(xs).value))
  {
    if xs != [] {
      LatestMeaning(xs[..|xs|-1]);
      assert xs == xs[..|xs|-1] + [xs[|xs|-1]];
    }
  }

  // ---- the naive features ----

  datatype Operation = ElapsedDays | WeightChange | MeanMeasure | RecencyMean(exp: real -> real, rate: real)

  function Elapsed(row: Row, latest: Record): real { (row.cutoff - latest.available) as real / 86400.0 }

  function Change(row: Row, latest: Record): Option<real> {
    if row.weight.Some? && latest.carried.Some? then Some(row.weight.value - latest.carried.value) else None
  }

  /** What the row should get, from the records available strictly before its cutoff and nothing else. */
  function Naive(records: seq<Record>, row: Row, op: Operation): Option<real> {
    if row.key.None? then None
    else
      var known := Known(records, row.key.value, row.cutoff);
      match op
      case ElapsedDays => if known == [] then None else Some(Elapsed(row, Latest(known).value))
      case WeightChange => if known == [] then None else Change(row, Latest(known).value)
      case MeanMeasure => Mean(known, Plain)
      case RecencyMean(exp, rate) => Mean(known, Recency(exp, rate, row.cutoff))
  }

  // ---- group by group ----

  /** The weights the code uses inside one group: anchored at the group's latest record. */
  function GroupWeighting(op: Operation, group: seq<Record>): Weighting {
    if op.RecencyMean? && group != [] then Recency(op.exp, op.rate, group[|group|-1].available) else Plain
  }

  /** One query against a prepared group: the insertion point decides, the prefix answers. */
  function Answer(group: seq<Record>, sums: seq<real>, support: seq<real>, count: nat, row: Row, op: Operation): Option<real>
    requires count <= |group| && |sums| == |support| == |group| + 1
  {
    if count == 0 then None
    else if op.ElapsedDays? then Some(Elapsed(row, group[count - 1]))
    else if op.WeightChange? then Change(row, group[count - 1])
    else Ratio(sums[count], support[count])
  }

  lemma AnswerIsNaive(records: seq<Record>, row: Row, op: Operation, sums: seq<real>, support: seq<real>, count: nat)
    requires row.key.Some? && (op.RecencyMean? ==> IsExp(op.exp))
    requires var group := SortBy(Group(records, row.key.value), ByTime);
      && count <= |group| && |sums| == |support| == |group| + 1
      && (forall i :: 0 <= i < count ==> group[i].available < row.cutoff)
      && (forall i :: count <= i < |group| ==> group[i].available >= row.cutoff)
      && sums[count] == Sum(group[..count], Term(GroupWeighting(op, group)))
      && support[count] == Sum(group[..count], Support(GroupWeighting(op, group)))
    ensures Answer(SortBy(Group(records, row.key.value), ByTime), sums, support, count, row, op) == Naive(records, row, op)
  {
    hide SortBy, Group, Below, Sum, Ratio, Term, Support, IsExp, Latest;
    var group := SortBy(Group(records, row.key.value), ByTime);
    var known := Known(records, row.key.value, row.cutoff);
    var w := GroupWeighting(op, group);
    PrefixIsBelow(Group(records, row.key.value), ByTime, row.cutoff, count);
    SortedSize(known, ByTime);
    LatestIsLast(known);
    assert count > 0 ==> group[..count][count - 1] == group[count - 1];
    SumSort(known, ByTime, Term(w));
    SumSort(known, ByTime, Support(w));
    if count == 0 {
      EmptyMean(known, Plain);
      if op.RecencyMean? { EmptyMean(known, Recency(op.exp, op.rate, row.cutoff)); }
    } else if op.RecencyMean? {
      AnchorIrrelevant(known, op.exp, op.rate, group[|group|-1].available, row.cutoff);
    }
  }

  lemma EmptyMean(xs: seq<Record>, w: Weighting)
    requires xs == []
    ensures Mean(xs, w) == None
  {}

  /** Distinct known keys in order of first appearance. */
  function Keys(records: seq<Record>): seq<string> {
    if records == [] then []
    else
      var keys := Keys(records[..|records|-1]);
      var k := records[|records|-1].key;
      if k.None? || k.value in keys then keys else keys + [k.value]
  }

  lemma {:induction false} KeysMembers(records: seq<Record>, key: string)
    ensures key in Keys(records) <==> Group(records, key) != []
  {
    if records != [] { KeysMembers(records[..|records|-1], key); }
  }

  lemma NoGroup(records: seq<Record>, row: Row, op: Operation)
    requires row.key.None? || row.key.value !in Keys(records)
    ensures Naive(records, row, op) == None
  {
    hide Keys, Group, Ratio;
    if row.key.Some? {
      KeysMembers(records, row.key.value);
      if op.RecencyMean? { EmptyMean(Known(records, row.key.value, row.cutoff), Recency(op.exp, op.rate, row.cutoff)); }
      EmptyMean(Known(records, row.key.value, row.cutoff), Plain);
    }
  }

  /** One group's pass: every row of the group gets its naive value, the others keep theirs. */
  method FillGroup(records: seq<Record>, rows: seq<Row>, op: Operation, key: string, values: array<Option<real>>)
    requires values.Length == |rows| && (op.RecencyMean? ==> IsExp(op.exp))
    modifies values
    ensures forall i :: 0 <= i < |rows| ==>
              values[i] == if rows[i].key == Some(key) then Naive(records, rows[i], op) else old(values[i])
  {
    hide SortBy, Group, Naive, Sum, IsExp, Term, Support;
    var group := SortBy(Group(records, key), ByTime);
    SortBySorts(Group(records, key), ByTime);
    var times := seq(|group|, i requires 0 <= i < |group| => group[i].available);
    TimesAscend(group, times);
    var w := GroupWeighting(op, group);
    var sums := Cumulate(group, Term(w));
    var support := Cumulate(group, Support(w));
    for i := 0 to |rows|
      invariant forall j :: 0 <= j < i ==>
                  values[j] == if rows[j].key == Some(key) then Naive(records, rows[j], op) else old(values[j])
      invariant forall j :: i <= j < |rows| ==> values[j] == old(values[j])
    {
      if rows[i].key == Some(key) {
        var count := BisectLeft(times, rows[i].cutoff);
        AnswerIsNaive(records, rows[i], op, sums, support, count);
        values[i] := Answer(group, sums, support, count, rows[i], op);
      }
    }
  }

  lemma TimesAscend(group: seq<Record>, times: seq<int>)
    requires Sorted(group, ByTime) && |times| == |group| && forall i :: 0 <= i < |group| ==> times[i] == group[i].available
    ensures Ascending(times)
  {
    forall i, j | 0 <= i <= j < |times| ensures times[i] <= times[j] {
      assert Before(ByTime(group[i]), ByTime(group[j]));
    }
  }

  /** The domain-history block: grouping, sorting, insertion points, prefix sums and weights anchored at the group's
      latest record give each row the naive value over its own strict past. */
  method DomainHistory(records: seq<Record>, rows: seq<Row>, op: Operation) returns (values: array<Option<real>>)
    requires op.RecencyMean? ==> IsExp(op.exp)
    ensures fresh(values) && values.Length == |rows|
    ensures forall i :: 0 <= i < |rows| ==> values[i] == Naive(records, rows[i], op)
  {
    hide Naive, IsExp, Keys;
    values := new Option<real>[|rows|](i => None);
    var keys := Keys(records);
    for k := 0 to |keys|
      invariant forall i :: 0 <= i < |rows| ==>
                  values[i] == if rows[i].key.Some? && rows[i].key.value in keys[..k] then Naive(records, rows[i], op) else None
    {
      assert keys[..k + 1] == keys[..k] + [keys[k]];
      FillGroup(records, rows, op, keys[k], values);
    }
    assert keys[..|keys|] == keys;
    forall i | 0 <= i < |rows| ensures values[i] == Naive(records, rows[i], op) {
      if rows[i].key.None? || rows[i].key.value !in keys { NoGroup(records, rows[i], op); }
    }
  }

  // ---- later records ----

  /** The history of a row is that of the records available before its cutoff. */
  lemma {:induction false} KnownOfEarly(records: seq<Record>, key: string, cutoff: int)
    ensures Known(records, key, cutoff) == Group(Below(records, ByTime, cutoff), key)
  {
    if records != [] {
      var n := |records| - 1;
      KnownOfEarly(records[..n], key, cutoff);
      BelowSnoc(Group(records[..n], key), records[n], ByTime, cutoff);
      var early := Below(records[..n], ByTime, cutoff);
      assert (early + [records[n]])[..|early|] == early;
    }
  }

  /** Two histories that agree on the records available before a row's cutoff give it the same value, wherever their
      later records stand, although recency weights are anchored at the latest record of the whole group. */
  lemma LaterRecordsIrrelevant(records: seq<Record>, other: seq<Record>, row: Row, op: Operation)
    requires Below(records, ByTime, row.cutoff) == Below(other, ByTime, row.cutoff)
    ensures Naive(records, row, op) == Naive(other, row, op)
  {
    hide Known, Latest, Mean, Below, Group;
    if row.key.Some? {
      KnownOfEarly(records, row.key.value, row.cutoff);
      KnownOfEarly(other, row.key.value, row.cutoff);
    }
  }
}
