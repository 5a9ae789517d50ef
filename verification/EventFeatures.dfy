/** Race-day features from historical events, and the shortcut taken when there is no evidence at all
    (ima/historical_events.py, `build_event_features`). */
module EventFeatures {
  import opened StableSort
  import opened AsOfViews

  /** A coverage statement; `complete` is: complete status with no missing pages and no gap of any kind. */
  datatype Coverage = Coverage(complete: bool, available: int, start: int, end: int)

  type Views = map<(string, string), seq<View>>
  type CoverageByHorse = map<(string, string), seq<Coverage>>

  const FAMILIES: seq<(string, seq<int>)> := [
    ("trackwork", [7, 14, 30, 90]), ("barrier_trials", [90, 180, 365]), ("veterinary", [30, 90, 365]),
    ("veterinary_clearance", [30, 90, 365]), ("movements", [30, 90, 365]), ("incidents", [30, 90, 365])]

  datatype WindowCells = WindowCells(count: Option<nat>, covered: bool, observed: nat)

  datatype FamilyCells = FamilyCells(available: bool, usable: nat, daysSince: Option<real>, lastDistance: Option<real>,
                                     windows: seq<WindowCells>)

  datatype RowCells = RowCells(families: seq<FamilyCells>, conditionOpen: Option<bool>, completedStay: Option<real>,
                               knownStay: Option<real>, sinceReturn: Option<real>, lastPlacing: Option<real>)

  function Days(seconds: int): real { seconds as real / 86400.0 }

  function Rows(views: Views, horse: string, family: string): seq<View> {
    if (horse, family) in views then views[(horse, family)] else []
  }

  function Records(coverage: CoverageByHorse, horse: string, family: string): seq<Coverage> {
    if (horse, family) in coverage then coverage[(horse, family)] else []
  }

  /** Some complete statement, available before the cutoff, spans the window. */
  predicate Covers(r: Coverage, start: int, cutoff: int) {
    r.complete && r.available < cutoff && r.start <= start && r.end >= cutoff
  }

  predicate Covered(records: seq<Coverage>, start: int, cutoff: int) {
    exists r | r in records :: Covers(r, start, cutoff)
  }

  function CountSince(rows: seq<View>, start: int): nat {
    if rows == [] then 0 else CountSince(rows[..|rows|-1], start) + if rows[|rows|-1].occurred >= start then 1 else 0
  }

  function Window(rows: seq<View>, records: seq<Coverage>, days: int, cutoff: int): WindowCells {
    var start := cutoff - days * DAY;
    var n := CountSince(rows, start);
    if Covered(records, start, cutoff) then WindowCells(Some(n), true, n) else WindowCells(None, false, n)
  }

  function Windows(rows: seq<View>, records: seq<Coverage>, days: seq<int>, cutoff: int): seq<WindowCells> {
    if days == [] then [] else [Window(rows, records, days[0], cutoff)] + Windows(rows, records, days[1..], cutoff)
  }

  function Family(rows: seq<View>, records: seq<Coverage>, days: seq<int>, cutoff: int): FamilyCells {
    var windows := Windows(rows, records, days, cutoff);
    if rows == [] then FamilyCells(false, 0, None, None, windows)
    else
      var last := rows[|rows|-1];
      var distance := last.values.distance;
      FamilyCells(true, |rows|, Some(Days(cutoff - last.occurred)),
        if distance.Some? && distance.value > 0.0 then distance else None, windows)
  }

  function FamilyList(views: Views, coverage: CoverageByHorse, horse: string, families: seq<(string, seq<int>)>, cutoff: int)
    : seq<FamilyCells>
  {
    if families == [] then []
    else
      var (family, days) := families[0];
      [Family(AsOf(Rows(views, horse, family), cutoff), Records(coverage, horse, family), days, cutoff)]
      + FamilyList(views, coverage, horse, families[1..], cutoff)
  }

  function ConditionOpen(veterinary: seq<View>, clearance: seq<View>): Option<bool> {
    if veterinary == [] then None
    else Some(clearance == [] || clearance[|clearance|-1].occurred < veterinary[|veterinary|-1].occurred)
  }

  /** Completed stay, known stay and days since return, from the last movement. */
  function Movement(movements: seq<View>, cutoff: int): (Option<real>, Option<real>, Option<real>) {
    if movements == [] then (None, None, None)
    else
      var values := movements[|movements|-1].values;
      if values.arrival.None? || values.arrival.value >= cutoff then (None, None, None)
      else
        var arrival := values.arrival.value;
        var known := if values.returned.Some? && values.returned.value < cutoff then values.returned.value else cutoff;
        var stay := if known >= arrival then Some(Days(known - arrival)) else None;
        if values.returned.Some? && arrival <= values.returned.value < cutoff
        then (Some(Days(values.returned.value - arrival)), stay, Some(Days(cutoff - values.returned.value)))
        else (None, stay, None)
  }

  /** One runner's features. */
  function RunnerFeatures(views: Views, coverage: CoverageByHorse, horse: string, cutoff: int): RowCells {
    var movement := Movement(AsOf(Rows(views, horse, "movements"), cutoff), cutoff);
    var trials := AsOf(Rows(views, horse, "barrier_trials"), cutoff);
    RowCells(FamilyList(views, coverage, horse, FAMILIES, cutoff),
      ConditionOpen(AsOf(Rows(views, horse, "veterinary"), cutoff), AsOf(Rows(views, horse, "veterinary_clearance"), cutoff)),
      movement.0, movement.1, movement.2, if trials == [] then None else trials[|trials|-1].values.placing)
  }

  // ---- the no-evidence shortcut ----

  function ZeroWindows(days: seq<int>): seq<WindowCells> {
    if days == [] then [] else [WindowCells(None, false, 0)] + ZeroWindows(days[1..])
  }

  function ZeroFamilies(families: seq<(string, seq<int>)>): seq<FamilyCells> {
    if families == [] then []
    else [FamilyCells(false, 0, None, None, ZeroWindows(families[0].1))] + ZeroFamilies(families[1..])
  }

  /** Zero support everywhere, everything else missing. */
  const ZERO_ROW := RowCells(ZeroFamilies(FAMILIES), None, None, None, None, None)

  ghost predicate SortedViews(views: Views) {
    forall key :: key in views ==> Sorted(views[key], ByEligible)
  }

  /** Some group's first view is eligible before the cutoff. */
  predicate AnyEvidence(views: Views, cutoff: int) {
    exists key | key in views :: views[key] != [] && views[key][0].eligible < cutoff
  }

  lemma NothingEligible(rows: seq<View>, cutoff: int)
    requires Sorted(rows, ByEligible) && (rows == [] || rows[0].eligible >= cutoff)
    ensures Eligible(rows, cutoff) == []
  {
    EligiblePrefix(rows, cutoff, 0);
  }

  lemma NothingSelected(views: Views, horse: string, family: string, cutoff: int, latest: int)
    requires SortedViews(views) && !AnyEvidence(views, latest) && cutoff <= latest
    ensures AsOf(Rows(views, horse, family), cutoff) == []
  {
    hide Eligible;
    NothingEligible(Rows(views, horse, family), cutoff);
  }

  lemma {:induction false} WindowsAreZero(days: seq<int>, cutoff: int)
    ensures Windows([], [], days, cutoff) == ZeroWindows(days)
  {
    if days != [] { WindowsAreZero(days[1..], cutoff); }
  }

  lemma {:induction false} FamiliesAreZero(views: Views, horse: string, families: seq<(string, seq<int>)>, cutoff: int, latest: int)
    requires SortedViews(views) && !AnyEvidence(views, latest) && cutoff <= latest
    ensures FamilyList(views, map[], horse, families, cutoff) == ZeroFamilies(families)
  {
    hide AsOf, SortedViews, AnyEvidence, Windows;
    if families != [] {
      FamiliesAreZero(views, horse, families[1..], cutoff, latest);
      NothingSelected(views, horse, families[0].0, cutoff, latest);
      WindowsAreZero(families[0].1, cutoff);
    }
  }

  /** Without coverage, and with nothing eligible before the latest cutoff, every runner's features are the zero row. */
  lemma ShortcutAgrees(views: Views, horse: string, cutoff: int, latest: int)
    requires SortedViews(views) && !AnyEvidence(views, latest) && cutoff <= latest
    ensures RunnerFeatures(views, map[], horse, cutoff) == ZERO_ROW
  {
    hide AsOf, SortedViews, AnyEvidence, FamilyList;
    FamiliesAreZero(views, horse, FAMILIES, cutoff, latest);
    NothingSelected(views, horse, "movements", cutoff, latest);
    NothingSelected(views, horse, "barrier_trials", cutoff, latest);
    NothingSelected(views, horse, "veterinary", cutoff, latest);
    NothingSelected(views, horse, "veterinary_clearance", cutoff, latest);
  }

  method Latest(runners: seq<(string, int)>) returns (latest: int)
    requires runners != []
    ensures forall i :: 0 <= i < |runners| ==> runners[i].1 <= latest
  {
    latest := runners[0].1;
    for i := 1 to |runners|
      invariant forall j :: 0 <= j < i ==> runners[j].1 <= latest
    {
      if runners[i].1 > latest { latest := runners[i].1; }
    }
  }

  /** The loop over families: select by scanning, then fill that family's cells. */
  method SelectFamilies(views: Views, coverage: CoverageByHorse, horse: string, families: seq<(string, seq<int>)>, cutoff: int)
    returns (selected: map<string, seq<View>>, cells: seq<FamilyCells>)
    requires SortedViews(views)
    ensures cells == FamilyList(views, coverage, horse, families, cutoff)
    ensures forall k :: 0 <= k < |families| ==>
              families[k].0 in selected && selected[families[k].0] == AsOf(Rows(views, horse, families[k].0), cutoff)
  {
    hide AsOf, FamilyList, Rows, Records, Family;
    selected, cells := map[], [];
    assert families[0..] == families;
    for k := 0 to |families|
      invariant forall j :: 0 <= j < k ==> families[j].0 in selected
      invariant forall f :: f in selected ==> selected[f] == AsOf(Rows(views, horse, f), cutoff)
      invariant cells + FamilyList(views, coverage, horse, families[k..], cutoff) == FamilyList(views, coverage, horse, families, cutoff)
    {
      SortedRows(views, horse, families[k].0);
      var rows := SelectAsOf(Rows(views, horse, families[k].0), cutoff);
      selected := selected[families[k].0 := rows];
      FamilyListStep(views, coverage, horse, families, k, cutoff);
      cells := cells + [Family(rows, Records(coverage, horse, families[k].0), families[k].1, cutoff)];
    }
    FamilyListEnd(views, coverage, horse, families[|families|..], cutoff);
  }

  lemma SortedRows(views: Views, horse: string, family: string)
    requires SortedViews(views)
    ensures Sorted(Rows(views, horse, family), ByEligible)
  {}

  lemma FamilyListStep(views: Views, coverage: CoverageByHorse, horse: string, families: seq<(string, seq<int>)>, k: nat, cutoff: int)
    requires k < |families|
    ensures FamilyList(views, coverage, horse, families[k..], cutoff)
         == [Family(AsOf(Rows(views, horse, families[k].0), cutoff), Records(coverage, horse, families[k].0), families[k].1, cutoff)]
            + FamilyList(views, coverage, horse, families[k + 1..], cutoff)
  {
    hide AsOf, Family, Rows, Records;
    assert families[k..][1..] == families[k + 1..];
  }

  lemma FamilyListEnd(views: Views, coverage: CoverageByHorse, horse: string, families: seq<(string, seq<int>)>, cutoff: int)
    requires families == []
    ensures FamilyList(views, coverage, horse, families, cutoff) == []
  {}

  /** One runner's loop body. */
  method FillRow(views: Views, coverage: CoverageByHorse, horse: string, cutoff: int) returns (row: RowCells)
    requires SortedViews(views)
    ensures row == RunnerFeatures(views, coverage, horse, cutoff)
  {
    hide AsOf, FamilyList, Rows, Movement, ConditionOpen, SortedViews;
    var selected, families := SelectFamilies(views, coverage, horse, FAMILIES, cutoff);
    assert FAMILIES[1].0 == "barrier_trials" && FAMILIES[2].0 == "veterinary";
    assert FAMILIES[3].0 == "veterinary_clearance" && FAMILIES[4].0 == "movements";
    var movement := Movement(selected["movements"], cutoff);
    var trials := selected["barrier_trials"];
    row := RowCells(families, ConditionOpen(selected["veterinary"], selected["veterinary_clearance"]),
      movement.0, movement.1, movement.2, if trials == [] then None else trials[|trials|-1].values.placing);
  }

  /** The shortcut and the full loop are the same function, row by row: no runner's features depend on the cutoffs
      of the others. */
  method BuildEventFeatures(views: Views, coverage: CoverageByHorse, runners: seq<(string, int)>) returns (output: seq<RowCells>)
    requires SortedViews(views)
    ensures |output| == |runners|
    ensures forall i :: 0 <= i < |runners| ==> output[i] == RunnerFeatures(views, coverage, runners[i].0, runners[i].1)
  {
    hide AsOf, SortedViews, RunnerFeatures;
    if runners == [] { return []; }
    var latest := Latest(runners);
    if coverage == map[] && !AnyEvidence(views, latest) {
      forall i | 0 <= i < |runners| { ShortcutAgrees(views, runners[i].0, runners[i].1, latest); }
      return seq(|runners|, i => ZERO_ROW);
    }
    output := [];
    for i := 0 to |runners|
      invariant |output| == i
      invariant forall j :: 0 <= j < i ==> output[j] == RunnerFeatures(views, coverage, runners[j].0, runners[j].1)
    {
      var row := FillRow(views, coverage, runners[i].0, runners[i].1);
      output := output + [row];
    }
  }

  // ---- point in time ----

  /** Two collections of views and coverage that agree on everything known before the cutoff. */
  ghost predicate AgreeBefore(views: Views, coverage: CoverageByHorse, views': Views, coverage': CoverageByHorse, horse: string, cutoff: int) {
    forall family ::
      && Eligible(Rows(views, horse, family), cutoff) == Eligible(Rows(views', horse, family), cutoff)
      && (forall r: Coverage | r.available < cutoff :: r in Records(coverage, horse, family) <==> r in Records(coverage', horse, family))
  }

  lemma AgreeFamily(views: Views, coverage: CoverageByHorse, views': Views, coverage': CoverageByHorse, horse: string, cutoff: int, family: string)
    requires AgreeBefore(views, coverage, views', coverage', horse, cutoff)
    ensures AsOf(Rows(views, horse, family), cutoff) == AsOf(Rows(views', horse, family), cutoff)
    ensures forall start :: Covered(Records(coverage, horse, family), start, cutoff) <==> Covered(Records(coverage', horse, family), start, cutoff)
  {
    var records, records' := Records(coverage, horse, family), Records(coverage', horse, family);
    forall start ensures Covered(records, start, cutoff) <==> Covered(records', start, cutoff) {
      if r :| r in records && Covers(r, start, cutoff) { assert r in records'; }
      if r :| r in records' && Covers(r, start, cutoff) { assert r in records; }
    }
  }

  lemma {:induction false} SameWindows(rows: seq<View>, records: seq<Coverage>, records': seq<Coverage>, days: seq<int>, cutoff: int)
    requires forall start :: Covered(records, start, cutoff) <==> Covered(records', start, cutoff)
    ensures Windows(rows, records, days, cutoff) == Windows(rows, records', days, cutoff)
  {
    hide Covered;
    if days != [] { SameWindows(rows, records, records', days[1..], cutoff); }
  }

  lemma {:induction false} SameFamilies(views: Views, coverage: CoverageByHorse, views': Views, coverage': CoverageByHorse,
      horse: string, families: seq<(string, seq<int>)>, cutoff: int)
    requires AgreeBefore(views, coverage, views', coverage', horse, cutoff)
    ensures FamilyList(views, coverage, horse, families, cutoff) == FamilyList(views', coverage', horse, families, cutoff)
  {
    hide AsOf, AgreeBefore, Rows, Records, Covered, Windows;
    if families != [] {
      var (family, days) := families[0];
      SameFamilies(views, coverage, views', coverage', horse, families[1..], cutoff);
      AgreeFamily(views, coverage, views', coverage', horse, cutoff, family);
      SameWindows(AsOf(Rows(views, horse, family), cutoff), Records(coverage, horse, family), Records(coverage', horse, family), days, cutoff);
    }
  }

  /** A runner's features depend only on the views and coverage known strictly before its cutoff. */
  lemma PointInTime(views: Views, coverage: CoverageByHorse, views': Views, coverage': CoverageByHorse, horse: string, cutoff: int)
    requires AgreeBefore(views, coverage, views', coverage', horse, cutoff)
    ensures RunnerFeatures(views, coverage, horse, cutoff) == RunnerFeatures(views', coverage', horse, cutoff)
  {
    hide AsOf, AgreeBefore, Rows, Records, Covered, FamilyList;
    SameFamilies(views, coverage, views', coverage', horse, FAMILIES, cutoff);
    AgreeFamily(views, coverage, views', coverage', horse, cutoff, "movements");
    AgreeFamily(views, coverage, views', coverage', horse, cutoff, "barrier_trials");
    AgreeFamily(views, coverage, views', coverage', horse, cutoff, "veterinary");
    AgreeFamily(views, coverage, views', coverage', horse, cutoff, "veterinary_clearance");
  }
}
