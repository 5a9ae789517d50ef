/** What the race-day event features say about the selected evidence, in counts and seconds
    (ima/historical_events.py, `build_event_features`). */
module EventMeanings {
  import opened StableSort
  import opened AsOfViews
  import opened EventFeatures

  /** No selected view occurred later; among simultaneous ones it comes last. */
  ghost predicate IsLatest(rows: seq<View>, v: View) {
    v in rows && forall u :: u in rows ==> u.occurred < v.occurred || (u.occurred == v.occurred && u.id <= v.id)
  }

  lemma LastIsLatest(rows: seq<View>, cutoff: int)
    requires AsOf(rows, cutoff) != []
    ensures var selected := AsOf(rows, cutoff); IsLatest(selected, selected[|selected|-1])
  {
    hide Eligible, Kept, Groups, SortBy, Sorted;
    var known := Eligible(rows, cutoff);
    SortBySorts(Kept(known, Groups(known), cutoff), ByOccurred);
    SortedEnd(AsOf(rows, cutoff));
  }

  lemma SortedEnd(selected: seq<View>)
    requires Sorted(selected, ByOccurred) && selected != []
    ensures IsLatest(selected, selected[|selected|-1])
  {
    forall u | u in selected ensures Before(ByOccurred(u), ByOccurred(selected[|selected|-1])) {
      var i :| 0 <= i < |selected| && selected[i] == u;
    }
  }

  // ---- windows ----

  ghost function Since(rows: seq<View>, start: int): set<nat> {
    set i: nat | i < |rows| && rows[i].occurred >= start
  }

  lemma {:induction false} CountIsSize(rows: seq<View>, start: int)
    ensures CountSince(rows, start) == |Since(rows, start)|
  {
    if rows != [] {
      var n := |rows| - 1;
      CountIsSize(rows[..n], start);
      assert Since(rows, start) == Since(rows[..n], start) + if rows[n].occurred >= start then {n} else {};
    }
  }

  /** Some complete statement known before the cutoff spans the whole window. */
  ghost predicate Spanned(records: seq<Coverage>, start: int, cutoff: int) {
    exists k :: 0 <= k < |records| && records[k].complete && records[k].available < cutoff && records[k].start <= start && cutoff <= records[k].end
  }

  lemma CoveredIsSpanned(records: seq<Coverage>, start: int, cutoff: int)
    ensures Covered(records, start, cutoff) <==> Spanned(records, start, cutoff)
  {
    if r :| r in records && Covers(r, start, cutoff) {
      var k :| 0 <= k < |records| && records[k] == r;
    }
    if k :| 0 <= k < |records| && records[k].complete && records[k].available < cutoff && records[k].start <= start && cutoff <= records[k].end {
      assert records[k] in records && Covers(records[k], start, cutoff);
    }
  }

  lemma {:induction false} WindowAt(rows: seq<View>, records: seq<Coverage>, days: seq<int>, cutoff: int, w: nat)
    requires w < |days|
    ensures |Windows(rows, records, days, cutoff)| == |days|
    ensures Windows(rows, records, days, cutoff)[w] == Window(rows, records, days[w], cutoff)
  {
    hide Window;
    if w > 0 {
      WindowAt(rows, records, days[1..], cutoff, w - 1);
    } else if |days| > 1 {
      WindowAt(rows, records, days[1..], cutoff, 0);
    }
  }

  lemma {:induction false} FamilyAt(views: Views, coverage: CoverageByHorse, horse: string, families: seq<(string, seq<int>)>, cutoff: int, k: nat)
    requires k < |families|
    ensures |FamilyList(views, coverage, horse, families, cutoff)| == |families|
    ensures FamilyList(views, coverage, horse, families, cutoff)[k] ==
              Family(AsOf(Rows(views, horse, families[k].0), cutoff), Records(coverage, horse, families[k].0), families[k].1, cutoff)
  {
    hide Family, AsOf, Rows, Records;
    if k > 0 {
      FamilyAt(views, coverage, horse, families[1..], cutoff, k - 1);
    } else if |families| > 1 {
      FamilyAt(views, coverage, horse, families[1..], cutoff, 0);
    }
  }

  /** A window's cells: how many selected views occurred in the last so many days, reported as a count only where some
      complete statement known in time spans exactly those days. */
  lemma WindowCounts(views: Views, coverage: CoverageByHorse, horse: string, cutoff: int, k: nat, w: nat)
    requires k < |FAMILIES| && w < |FAMILIES[k].1|
    ensures var cells, rows := RunnerFeatures(views, coverage, horse, cutoff).families, AsOf(Rows(views, horse, FAMILIES[k].0), cutoff);
            var start := cutoff - 86400 * FAMILIES[k].1[w];
            && |cells| == |FAMILIES| && |cells[k].windows| == |FAMILIES[k].1|
            && cells[k].windows[w].observed == |Since(rows, start)|
            && (cells[k].windows[w].covered <==> Spanned(Records(coverage, horse, FAMILIES[k].0), start, cutoff))
            && cells[k].windows[w].count == if cells[k].windows[w].covered then Some(cells[k].windows[w].observed) else None
  {
    hide AsOf, Rows, Records, Movement, ConditionOpen, FAMILIES;
    var rows, records := AsOf(Rows(views, horse, FAMILIES[k].0), cutoff), Records(coverage, horse, FAMILIES[k].0);
    FamilyAt(views, coverage, horse, FAMILIES, cutoff, k);
    hide FamilyList;
    WindowAt(rows, records, FAMILIES[k].1, cutoff, w);
    hide Windows;
    CountIsSize(rows, cutoff - 86400 * FAMILIES[k].1[w]);
    CoveredIsSpanned(records, cutoff - 86400 * FAMILIES[k].1[w], cutoff);
  }

  /** How far back each family is counted, in days. */
  lemma WindowDays(k: nat)
    requires k < |FAMILIES|
    ensures FAMILIES[k].1 ==
      match FAMILIES[k].0
      case "trackwork" => [7, 14, 30, 90]
      case "barrier_trials" => [90, 180, 365]
      case _ => [30, 90, 365]
  {
    assert FAMILIES[0].0[0] == 't' && FAMILIES[1].0[0] == 'b';
    assert k >= 2 ==> FAMILIES[k].0[0] in {'v', 'm', 'i'};
    assert "trackwork"[0] == 't' && "barrier_trials"[0] == 'b';
  }

  // ---- days and conditions ----

  /** That many days of 86400 seconds. */
  ghost predicate Lasts(days: Option<real>, seconds: int) {
    days.Some? && days.value * 86400.0 == seconds as real
  }

  /** A family's cells: present exactly with selected views, dated by the latest of them. */
  lemma FamilyDates(views: Views, coverage: CoverageByHorse, horse: string, cutoff: int, k: nat) returns (v: View)
    requires k < |FAMILIES|
    ensures var rows := AsOf(Rows(views, horse, FAMILIES[k].0), cutoff);
            var families := RunnerFeatures(views, coverage, horse, cutoff).families;
            && |families| == |FAMILIES|
            && families[k].usable == |rows| && (families[k].available <==> rows != [])
            && if rows == [] then families[k].daysSince == families[k].lastDistance == None
               else && IsLatest(rows, v) && Lasts(families[k].daysSince, cutoff - v.occurred)
                    && forall d: real :: families[k].lastDistance == Some(d) <==> v.values.distance == Some(d) && d > 0.0
  {
    hide AsOf, Rows, Records, Movement, ConditionOpen, FAMILIES, Windows;
    var rows := AsOf(Rows(views, horse, FAMILIES[k].0), cutoff);
    FamilyAt(views, coverage, horse, FAMILIES, cutoff, k);
    hide FamilyList;
    if rows != [] {
      LastIsLatest(Rows(views, horse, FAMILIES[k].0), cutoff);
      v := rows[|rows|-1];
    } else {
      v := View(0, "", 0, 0, 0, None, Values(None, None, None, None));
    }
  }

  /** The veterinary condition is open exactly when some selected finding occurred after every selected clearance. */
  lemma ConditionMeaning(views: Views, coverage: CoverageByHorse, horse: string, cutoff: int)
    ensures var findings, clearances := AsOf(Rows(views, horse, "veterinary"), cutoff), AsOf(Rows(views, horse, "veterinary_clearance"), cutoff);
            var open := RunnerFeatures(views, coverage, horse, cutoff).conditionOpen;
            && (open.Some? <==> findings != [])
            && (open == Some(true) <==> exists v :: v in findings && forall c :: c in clearances ==> c.occurred < v.occurred)
  {
    hide AsOf, Rows, FamilyList, Movement;
    var findings, clearances := AsOf(Rows(views, horse, "veterinary"), cutoff), AsOf(Rows(views, horse, "veterinary_clearance"), cutoff);
    if findings != [] {
      LastIsLatest(Rows(views, horse, "veterinary"), cutoff);
      assert findings[|findings|-1] in findings;
    }
    if clearances != [] { LastIsLatest(Rows(views, horse, "veterinary_clearance"), cutoff); }
  }

  /** The stay of a horse whose latest movement arrived before the cutoff: completed if it had returned by then, known
      up to the return or the cutoff, whichever came first. */
  lemma StayMeaning(views: Views, coverage: CoverageByHorse, horse: string, cutoff: int) returns (v: View)
    ensures var rows, row := AsOf(Rows(views, horse, "movements"), cutoff), RunnerFeatures(views, coverage, horse, cutoff);
            if rows == [] then row.completedStay == row.knownStay == row.sinceReturn == None
            else
              && IsLatest(rows, v)
              && var values := v.values;
                 && (row.completedStay.Some? <==> values.arrival.Some? && values.returned.Some? && values.arrival.value <= values.returned.value < cutoff)
                 && (row.sinceReturn.Some? <==> row.completedStay.Some?)
                 && (row.completedStay.Some? ==> Lasts(row.completedStay, values.returned.value - values.arrival.value) && Lasts(row.sinceReturn, cutoff - values.returned.value))
                 && (values.arrival.None? || values.arrival.value >= cutoff ==> row.knownStay.None?)
                 && (values.arrival.Some? && values.arrival.value < cutoff ==>
                      if values.returned.None? || values.returned.value >= cutoff then Lasts(row.knownStay, cutoff - values.arrival.value)
                      else if values.returned.value >= values.arrival.value then row.knownStay == row.completedStay
                      else row.knownStay.None?)
  {
    hide AsOf, Rows, FamilyList, ConditionOpen;
    var rows := AsOf(Rows(views, horse, "movements"), cutoff);
    if rows != [] {
      LastIsLatest(Rows(views, horse, "movements"), cutoff);
      v := rows[|rows|-1];
    } else {
      v := View(0, "", 0, 0, 0, None, Values(None, None, None, None));
    }
  }

  /** The last placing is the latest selected trial's. */
  lemma PlacingMeaning(views: Views, coverage: CoverageByHorse, horse: string, cutoff: int, x: real)
    requires RunnerFeatures(views, coverage, horse, cutoff).lastPlacing == Some(x)
    ensures exists v :: IsLatest(AsOf(Rows(views, horse, "barrier_trials"), cutoff), v) && v.values.placing == Some(x)
  {
    hide AsOf, Rows, FamilyList, ConditionOpen, Movement;
    LastIsLatest(Rows(views, horse, "barrier_trials"), cutoff);
  }
}
