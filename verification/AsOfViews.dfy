/** Which observations a race may see, and the features read from them (ima/historical_events.py). */
module AsOfViews {
  import opened StableSort

  datatype Option<+T> = None | Some(value: T)

  datatype Result<+T> = Ok(value: T) | Err

  /** Instants are whole seconds. */
  const DAY: int := 86400

  // ---- from observations to views ----

  datatype Tier = VerifiedPointInTime | ObservedProspective | Unknown
  datatype Policy = Strict | AssumedRetrospective(lags: map<string, int>)

  /** What the typed values of an observation may hold. */
  datatype Values = Values(distance: Option<real>, arrival: Option<int>, returned: Option<int>, placing: Option<real>)

  /** A normalised event. `usable` is: no exclusion reasons, an official source, a well-formed body hash. It and the
      group come out of correction resolution (`ArchivedEvents`). Ids stand in their lexicographic order. */
  datatype Observation = Observation(
    id: int, group: string, family: string, horse: Option<string>, usable: bool,
    occurrenceEligible: Option<int>, available: Option<int>, occurred: int, validFrom: Option<int>, validTo: Option<int>,
    tier: Tier, values: Values)

  datatype View = View(id: int, group: string, eligible: int, available: int, occurred: int, validTo: Option<int>, values: Values)

  function Max(a: int, b: int): int { if a >= b then a else b }

  /** One observation's view: nothing if it is not evidence, an error for a negative lag. */
  function AsView(o: Observation, policy: Policy): Result<Option<View>> {
    if !o.usable || o.horse.None? || o.occurrenceEligible.None? then Ok(None)
    else if policy.Strict? && o.tier == Unknown then Ok(None)
    else if policy.AssumedRetrospective? && o.tier != VerifiedPointInTime then
      if o.family !in policy.lags then Ok(None)
      else if policy.lags[o.family] < 0 then Err
      else Ok(Some(Seen(o, o.occurrenceEligible.value + policy.lags[o.family])))
    else if o.available.None? then Ok(None)
    else Ok(Some(Seen(o, o.available.value)))
  }

  function Seen(o: Observation, available: int): View
    requires o.occurrenceEligible.Some?
  {
    var from := if o.validFrom.Some? then o.validFrom.value else o.occurrenceEligible.value;
    View(o.id, o.group, Max(Max(o.occurrenceEligible.value, available), from), available, o.occurred, o.validTo, o.values)
  }

  function ByEligible(v: View): (int, int) { (v.eligible, v.id) }

  function ByOccurred(v: View): (int, int) { (v.occurred, v.id) }

  // ---- selection as of a cutoff ----

  function Eligible(rows: seq<View>, cutoff: int): seq<View> {
    Below(rows, ByEligible, cutoff)
  }

  /** The version of a group kept by a left-to-right scan: later only if strictly later available. */
  function Winner(rows: seq<View>, group: string): Option<View> {
    if rows == [] then None
    else
      var w := Winner(rows[..|rows|-1], group);
      var v := rows[|rows|-1];
      if v.group == group && (w.None? || v.available > w.value.available) then Some(v) else w
  }

  /** Groups in order of first appearance. */
  function Groups(rows: seq<View>): seq<string> {
    if rows == [] then []
    else
      var gs := Groups(rows[..|rows|-1]);
      if rows[|rows|-1].group in gs then gs else gs + [rows[|rows|-1].group]
  }

  predicate StillValid(v: View, cutoff: int) {
    v.validTo.None? || v.validTo.value >= cutoff
  }

  function Kept(rows: seq<View>, groups: seq<string>, cutoff: int): seq<View> {
    if groups == [] then []
    else
      var kept := Kept(rows, groups[..|groups|-1], cutoff);
      var w := Winner(rows, groups[|groups|-1]);
      if w.Some? && StillValid(w.value, cutoff) then kept + [w.value] else kept
  }

  /** The naive definition: only rows eligible before the cutoff, one version a group, expired ones dropped. */
  function AsOf(rows: seq<View>, cutoff: int): seq<View> {
    var known := Eligible(rows, cutoff);
    SortBy(Kept(known, Groups(known), cutoff), ByOccurred)
  }

  ghost predicate VersionsOf(versions: map<string, View>, order: seq<string>, rows: seq<View>) {
    && order == Groups(rows)
    && (forall g :: g in versions <==> Winner(rows, g).Some?)
    && (forall g :: g in versions ==> Winner(rows, g) == Some(versions[g]))
  }

  lemma {:induction false} GroupsMembers(rows: seq<View>, g: string)
    ensures g in Groups(rows) <==> Winner(rows, g).Some?
    ensures Winner(rows, g).Some? ==> Winner(rows, g).value.group == g && Winner(rows, g).value in rows
  {
    if rows != [] { GroupsMembers(rows[..|rows|-1], g); }
  }

  lemma EligibleSnoc(rows: seq<View>, v: View, cutoff: int)
    ensures Eligible(rows + [v], cutoff) == if v.eligible < cutoff then Eligible(rows, cutoff) + [v] else Eligible(rows, cutoff)
  {
    BelowSnoc(rows, v, ByEligible, cutoff);
  }

  lemma EligiblePrefix(rows: seq<View>, cutoff: int, n: nat)
    requires Sorted(rows, ByEligible) && n <= |rows| && (n < |rows| ==> rows[n].eligible >= cutoff)
    ensures Eligible(rows, cutoff) == Eligible(rows[..n], cutoff)
  {
    BelowPrefix(rows, ByEligible, cutoff, n);
  }

  lemma KeptSnoc(rows: seq<View>, groups: seq<string>, g: string, cutoff: int)
    ensures Kept(rows, groups + [g], cutoff) ==
              if Winner(rows, g).Some? && StillValid(Winner(rows, g).value, cutoff) then Kept(rows, groups, cutoff) + [Winner(rows, g).value]
              else Kept(rows, groups, cutoff)
  {}

  lemma KeptNothing(rows: seq<View>, groups: seq<string>, cutoff: int)
    requires groups == []
    ensures Kept(rows, groups, cutoff) == []
  {}

  lemma VersionsStart(rows: seq<View>, cutoff: int)
    ensures VersionsOf(map[], [], Eligible(rows[..0], cutoff))
  {}

  lemma VersionsStep(versions: map<string, View>, order: seq<string>, rows: seq<View>, v: View)
    requires VersionsOf(versions, order, rows)
    ensures VersionsOf(
      if v.group !in versions || v.available > versions[v.group].available then versions[v.group := v] else versions,
      if v.group !in versions then order + [v.group] else order, rows + [v])
  {
    GroupsMembers(rows, v.group);
    var next := if v.group !in versions || v.available > versions[v.group].available then versions[v.group := v] else versions;
    hide Winner, Groups;
    forall g
      ensures g in next <==> Winner(rows + [v], g).Some?
      ensures g in next ==> Winner(rows + [v], g) == Some(next[g])
    {}
  }

  lemma VersionsOrder(versions: map<string, View>, order: seq<string>, rows: seq<View>)
    requires VersionsOf(versions, order, rows)
    ensures order == Groups(rows)
  {}

  lemma VersionsAt(versions: map<string, View>, order: seq<string>, rows: seq<View>, k: nat)
    requires VersionsOf(versions, order, rows) && k < |order|
    ensures order[k] in versions && Winner(rows, order[k]) == Some(versions[order[k]])
  {
    GroupsMembers(rows, order[k]);
  }

  /** `select_as_of`: scanning sorted rows and stopping at the first ineligible one gives the naive selection. */
  method SelectAsOf(rows: seq<View>, cutoff: int) returns (selected: seq<View>)
    requires Sorted(rows, ByEligible)
    ensures selected == AsOf(rows, cutoff)
  {
    hide Eligible, Winner, Groups, Kept, VersionsOf, Sorted;
    var versions: map<string, View>, order: seq<string>, i := map[], [], 0;
    VersionsStart(rows, cutoff);
    while i < |rows|
      invariant 0 <= i <= |rows|
      invariant VersionsOf(versions, order, Eligible(rows[..i], cutoff))
      invariant forall k :: 0 <= k < i ==> rows[k].eligible < cutoff
    {
      if rows[i].eligible >= cutoff { break; }
      ghost var known := Eligible(rows[..i], cutoff);
      var key := rows[i].group;
      GroupsMembers(known, key);
      assert rows[..i + 1] == rows[..i] + [rows[i]];
      EligibleSnoc(rows[..i], rows[i], cutoff);
      VersionsStep(versions, order, known, rows[i]);
      if key !in versions { order := order + [key]; }
      if key !in versions || rows[i].available > versions[key].available { versions := versions[key := rows[i]]; }
      i := i + 1;
    }
    EligiblePrefix(rows, cutoff, i);
    ghost var known := Eligible(rows, cutoff);
    var kept: seq<View> := [];
    KeptNothing(known, order[..0], cutoff);
    for k := 0 to |order|
      invariant kept == Kept(known, order[..k], cutoff)
    {
      assert order[..k + 1] == order[..k] + [order[k]];
      KeptSnoc(known, order[..k], order[k], cutoff);
      VersionsAt(versions, order, known, k);
      if StillValid(versions[order[k]], cutoff) { kept := kept + [versions[order[k]]]; }
    }
    assert order[..|order|] == Groups(known) by { VersionsOrder(versions, order, known); }
    selected := SortBy(kept, ByOccurred);
  }

  // ---- what is selected ----

  /** Row `i` is the version of its group that decides: strictly later available than earlier ones, at least as
      late as later ones. */
  ghost predicate Decides(rows: seq<View>, i: nat) {
    && i < |rows|
    && (forall j :: 0 <= j < i && rows[j].group == rows[i].group ==> rows[j].available < rows[i].available)
    && (forall j :: i < j < |rows| && rows[j].group == rows[i].group ==> rows[j].available <= rows[i].available)
  }

  lemma {:induction false} WinnerDecides(rows: seq<View>, g: string) returns (i: nat)
    requires Winner(rows, g).Some?
    ensures Decides(rows, i) && rows[i] == Winner(rows, g).value && rows[i].group == g
  {
    var n := |rows| - 1;
    var w := Winner(rows[..n], g);
    if w.Some? {
      i := WinnerDecides(rows[..n], g);
      forall j | 0 <= j < n ensures rows[..n][j] == rows[j] {}
      if rows[n].group == g && rows[n].available > w.value.available {
        i := n;
      }
    } else {
      i := n;
      NoWinner(rows[..n], g);
    }
  }

  lemma {:induction false} NoWinner(rows: seq<View>, g: string)
    requires Winner(rows, g).None?
    ensures forall j :: 0 <= j < |rows| ==> rows[j].group != g
  {
    if rows != [] { NoWinner(rows[..|rows|-1], g); }
  }

  lemma {:induction false} KeptMembers(rows: seq<View>, groups: seq<string>, cutoff: int, v: View)
    ensures v in Kept(rows, groups, cutoff) <==>
              exists k :: 0 <= k < |groups| && Winner(rows, groups[k]) == Some(v) && StillValid(v, cutoff)
  {
    if groups != [] {
      var n := |groups| - 1;
      KeptMembers(rows, groups[..n], cutoff, v);
      if v in Kept(rows, groups[..n], cutoff) {
        var k :| 0 <= k < n && Winner(rows, groups[..n][k]) == Some(v) && StillValid(v, cutoff);
        assert groups[..n][k] == groups[k];
      }
      if exists k :: 0 <= k < |groups| && Winner(rows, groups[k]) == Some(v) && StillValid(v, cutoff) {
        var k :| 0 <= k < |groups| && Winner(rows, groups[k]) == Some(v) && StillValid(v, cutoff);
        if k < n { assert groups[..n][k] == groups[k]; }
      }
    }
  }

  /** Exactly the deciding, still valid version of each group is selected, from the eligible rows alone. */
  lemma SelectedExactly(rows: seq<View>, cutoff: int, v: View)
    ensures v in AsOf(rows, cutoff) <==>
              StillValid(v, cutoff) && exists i :: 0 <= i < |Eligible(rows, cutoff)| && Eligible(rows, cutoff)[i] == v && Decides(Eligible(rows, cutoff), i)
  {
    hide Eligible, Winner, Groups, Kept, SortBy, Decides;
    var known := Eligible(rows, cutoff);
    SortByMember(Kept(known, Groups(known), cutoff), ByOccurred, v);
    assert v in AsOf(rows, cutoff) <==> v in Kept(known, Groups(known), cutoff);
    if v in AsOf(rows, cutoff) {
      var i := KeptDecides(known, cutoff, v);
      assert known[i] == v && Decides(known, i);
    }
    forall i | 0 <= i < |known| && known[i] == v && Decides(known, i) && StillValid(v, cutoff)
      ensures v in AsOf(rows, cutoff)
    {
      DecidingKept(known, cutoff, i);
    }
  }

  lemma KeptDecides(known: seq<View>, cutoff: int, v: View) returns (i: nat)
    requires v in Kept(known, Groups(known), cutoff)
    ensures i < |known| && Decides(known, i) && known[i] == v && StillValid(v, cutoff)
  {
    hide Winner, Groups, Kept;
    KeptMembers(known, Groups(known), cutoff, v);
    var k :| 0 <= k < |Groups(known)| && Winner(known, Groups(known)[k]) == Some(v) && StillValid(v, cutoff);
    i := WinnerDecides(known, Groups(known)[k]);
  }

  lemma DecidingKept(known: seq<View>, cutoff: int, i: nat)
    requires Decides(known, i) && StillValid(known[i], cutoff)
    ensures known[i] in Kept(known, Groups(known), cutoff)
  {
    hide Winner, Groups, Kept;
    DecidingWins(known, i);
    GroupsMembers(known, known[i].group);
    KeptMembers(known, Groups(known), cutoff, known[i]);
    var k :| 0 <= k < |Groups(known)| && Groups(known)[k] == known[i].group;
  }

  lemma DecidingWins(rows: seq<View>, i: nat)
    requires Decides(rows, i)
    ensures Winner(rows, rows[i].group) == Some(rows[i])
  {
    hide Winner;
    var g := rows[i].group;
    if Winner(rows, g).None? { NoWinner(rows, g); }
    var j := WinnerDecides(rows, g);
    assert i == j;
  }

  // ---- later views cannot matter ----

  /** Two collections of views that agree on what was eligible before the cutoff give the same selection, wherever
      later views stand. Later events can still change an early view itself: see `ArchivedEvents`. */
  lemma LaterEvidenceIrrelevant(rows: seq<View>, other: seq<View>, cutoff: int)
    requires Eligible(rows, cutoff) == Eligible(other, cutoff)
    ensures AsOf(SortBy(rows, ByEligible), cutoff) == AsOf(SortBy(other, ByEligible), cutoff)
  {
    BelowSort(rows, ByEligible, cutoff);
    BelowSort(other, ByEligible, cutoff);
  }
}
