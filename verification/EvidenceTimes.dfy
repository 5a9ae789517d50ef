/** When an event may be seen, said of its own record (ima/historical_events.py, `event_views` and `select_as_of`). */
module EvidenceTimes {
  import C = CorrectionChains
  import opened StableSort
  import opened AsOfViews
  import opened EventFeatures
  import opened ArchivedEvents

  /** The instant from which the evidence counts as available: the recorded one or, where a retrospective policy does not
      trust it, the occurrence plus the lag assumed for the family. */
  function EffectivelyAvailable(r: Record, policy: Policy): Option<int> {
    match policy
    case Strict => if r.tier == Unknown then None else r.available
    case AssumedRetrospective(lags) =>
      if r.tier == VerifiedPointInTime then r.available
      else if r.event.family in lags && r.occurrenceEligible.Some? && lags[r.event.family] >= 0
      then Some(r.occurrenceEligible.value + lags[r.event.family])
      else None
  }

  /** The event is evidence: nothing excludes it, its correction chain is whole, its source official, its horse known. */
  ghost predicate IsEvidence(records: seq<Record>, i: nat)
    requires i < |records| && C.Chain(Events(records), i).Stop?
  {
    && records[i].event.reasons == [] && !C.Chain(Events(records), i).broken
    && records[i].official && records[i].event.horse.Some?
  }

  /** Its occurrence, its availability and the start of its validity all lie strictly before the cutoff. */
  predicate SeenBefore(r: Record, policy: Policy, cutoff: int) {
    var available := EffectivelyAvailable(r, policy);
    && r.occurrenceEligible.Some? && r.occurrenceEligible.value < cutoff
    && available.Some? && available.value < cutoff
    && (r.validFrom.Some? ==> r.validFrom.value < cutoff)
  }

  /** A view is eligible before a cutoff exactly when the event is evidence seen before it; it then carries the
      event's own data, in the group its chain ends at. */
  lemma EligibleExactly(records: seq<Record>, i: nat, policy: Policy, cutoff: int)
    requires i < |records| && C.Chain(Events(records), i).Stop?
    ensures var v := ViewAt(records, i, policy);
            && (v.Some? && v.value.eligible < cutoff <==> IsEvidence(records, i) && SeenBefore(records[i], policy, cutoff))
            && (v.Some? ==>
                  && Some(v.value.available) == EffectivelyAvailable(records[i], policy)
                  && v.value.id == records[i].rank && v.value.occurred == records[i].occurred
                  && v.value.validTo == records[i].validTo && v.value.values == records[i].values
                  && v.value.group == records[C.Chain(Events(records), i).at].event.group)
  {
    hide C.Chain;
    var w := C.Chain(Events(records), i);
    if w.broken { assert C.ResolvedEvent(Events(records), i).reasons[|records[i].event.reasons|] == C.BROKEN; }
    else { assert C.ResolvedEvent(Events(records), i).reasons == records[i].event.reasons; }
  }

  /** Whatever is selected for a race comes from an event of the horse and family that was evidence seen before the
      cutoff and is still valid at it. */
  lemma SelectedWasSeen(records: seq<Record>, policy: Policy, horse: string, family: string, cutoff: int, v: View) returns (i: nat)
    requires C.Resolvable(Events(records)) && v in AsOf(Rows(ViewsOf(records, policy), horse, family), cutoff)
    ensures i < |records| && ForKey(records[i], horse, family)
    ensures IsEvidence(records, i) && SeenBefore(records[i], policy, cutoff)
    ensures records[i].validTo.Some? ==> records[i].validTo.value >= cutoff
    ensures v.id == records[i].rank && v.occurred == records[i].occurred && v.values == records[i].values
    ensures v.group == records[C.Chain(Events(records), i).at].event.group
  {
    hide C.Chain, ViewsOf, AsOf, Eligible, ViewAt, Decides, IsEvidence, SeenBefore, Rows;
    var rows := Rows(ViewsOf(records, policy), horse, family);
    SelectedExactly(rows, cutoff, v);
    i := Behind(records, policy, horse, family, cutoff, v);
    EligibleExactly(records, i, policy, cutoff);
  }

  /** Conversely, every event of the horse and family that is evidence seen before the cutoff takes part in the
      selection. */
  lemma SeenTakesPart(records: seq<Record>, policy: Policy, cutoff: int, i: nat)
    requires C.Resolvable(Events(records)) && i < |records| && IsEvidence(records, i) && SeenBefore(records[i], policy, cutoff)
    ensures ViewAt(records, i, policy).Some?
    ensures var horse, family := records[i].event.horse.value, records[i].event.family;
            ViewAt(records, i, policy).value in Eligible(Rows(ViewsOf(records, policy), horse, family), cutoff)
  {
    hide C.Chain, ViewsOf, Collected, SortBy, Eligible, ViewAt, SeenBefore;
    var horse, family := records[i].event.horse.value, records[i].event.family;
    EligibleExactly(records, i, policy, cutoff);
    var v := ViewAt(records, i, policy).value;
    RowsOf(records, policy, horse, family);
    EligibleOfSorted(Listed(records, policy, horse, family), cutoff, v);
    KnownIsEligible(records, |records|, policy, cutoff, horse, family);
    assert ForKey(records[i], horse, family) && KnownAt(records, i, policy, cutoff) == Some(v);
    KnownMember(records, |records|, policy, cutoff, horse, family, v);
  }

  lemma KnownView(records: seq<Record>, i: nat, policy: Policy, cutoff: int)
    requires i < |records| && C.Chain(Events(records), i).Stop? && KnownAt(records, i, policy, cutoff).Some?
    ensures ViewAt(records, i, policy) == KnownAt(records, i, policy, cutoff)
    ensures ViewAt(records, i, policy).value.eligible < cutoff
  {
    hide C.Chain, ViewAt;
  }

  lemma EligibleOfSorted(listed: seq<View>, cutoff: int, v: View)
    ensures v in Eligible(SortBy(listed, ByEligible), cutoff) <==> v in Eligible(listed, cutoff)
  {
    hide SortBy, Below;
    BelowMember(SortBy(listed, ByEligible), ByEligible, cutoff, v);
    BelowMember(listed, ByEligible, cutoff, v);
    SortByMember(listed, ByEligible, v);
  }

  /** The views are refused over a lag exactly when some event that would otherwise be evidence relies on a negative one. */
  lemma LagRefusedExactly(records: seq<Record>, policy: Policy)
    requires C.Resolvable(Events(records))
    ensures NoError(records, |records|, policy) <==>
              !exists i: nat :: i < |records| && IsEvidence(records, i) && records[i].occurrenceEligible.Some?
                && policy.AssumedRetrospective? && records[i].tier != VerifiedPointInTime
                && records[i].event.family in policy.lags && policy.lags[records[i].event.family] < 0
  {
    hide C.Chain;
    forall i: nat | i < |records|
      ensures AsView(Observe(records[i], C.ResolvedEvent(Events(records), i)), policy).Err? <==>
                && IsEvidence(records, i) && records[i].occurrenceEligible.Some?
                && policy.AssumedRetrospective? && records[i].tier != VerifiedPointInTime
                && records[i].event.family in policy.lags && policy.lags[records[i].event.family] < 0
    {
      ErrAt(records, i, policy);
    }
    hide AsView, Observe, IsEvidence;
  }

  lemma ErrAt(records: seq<Record>, i: nat, policy: Policy)
    requires i < |records| && C.Chain(Events(records), i).Stop?
    ensures AsView(Observe(records[i], C.ResolvedEvent(Events(records), i)), policy).Err? <==>
              && IsEvidence(records, i) && records[i].occurrenceEligible.Some?
              && policy.AssumedRetrospective? && records[i].tier != VerifiedPointInTime
              && records[i].event.family in policy.lags && policy.lags[records[i].event.family] < 0
  {
    hide C.Chain;
    var w := C.Chain(Events(records), i);
    if w.broken { assert C.ResolvedEvent(Events(records), i).reasons[|records[i].event.reasons|] == C.BROKEN; }
    else { assert C.ResolvedEvent(Events(records), i).reasons == records[i].event.reasons; }
  }

  ghost function GroupOf(records: seq<Record>, i: nat): string
    requires i < |records| && C.Chain(Events(records), i).Stop?
  {
    records[C.Chain(Events(records), i).at].event.group
  }

  /** The version to select: seen before the cutoff, still valid at it, and available after every other version of its
      group that is seen. */
  ghost predicate Newest(records: seq<Record>, policy: Policy, cutoff: int, i: nat)
    requires C.Resolvable(Events(records))
  {
    && i < |records| && IsEvidence(records, i) && SeenBefore(records[i], policy, cutoff)
    && (records[i].validTo.Some? ==> records[i].validTo.value >= cutoff)
    && forall j: nat :: j < |records| && j != i && IsEvidence(records, j) && SeenBefore(records[j], policy, cutoff)
         && ForKey(records[j], records[i].event.horse.value, records[i].event.family) && GroupOf(records, j) == GroupOf(records, i)
         ==> EffectivelyAvailable(records[j], policy).value < EffectivelyAvailable(records[i], policy).value
  }

  /** The newest version of its group is selected. */
  lemma NewestIsSelected(records: seq<Record>, policy: Policy, cutoff: int, i: nat)
    requires C.Resolvable(Events(records)) && Newest(records, policy, cutoff, i)
    ensures ViewAt(records, i, policy).Some?
    ensures ViewAt(records, i, policy).value in
              AsOf(Rows(ViewsOf(records, policy), records[i].event.horse.value, records[i].event.family), cutoff)
  {
    var horse, family := records[i].event.horse.value, records[i].event.family;
    hide C.Chain, ViewsOf, AsOf, Eligible, ViewAt, SeenBefore, IsEvidence, Rows, EffectivelyAvailable, GroupOf, Decides, ForKey;
    SeenTakesPart(records, policy, cutoff, i);
    ViewFacts(records, i, policy);
    var v := ViewAt(records, i, policy).value;
    var rows := Rows(ViewsOf(records, policy), horse, family);
    var known := Eligible(rows, cutoff);
    var k := FirstAt(known, v);
    forall j | 0 <= j < |known| && known[j] != v && known[j].group == v.group ensures known[j].available < v.available {
      var n := Behind(records, policy, horse, family, cutoff, known[j]);
      ViewFacts(records, n, policy);
    }
    DecidesAt(known, k);
    SelectedExactly(rows, cutoff, v);
  }

  lemma FirstAt(known: seq<View>, v: View) returns (k: nat)
    requires v in known
    ensures k < |known| && known[k] == v && forall j :: 0 <= j < k ==> known[j] != v
  {
    k := 0;
    while known[k] != v
      invariant k < |known| && v in known[k..] && forall j :: 0 <= j < k ==> known[j] != v
      decreases |known| - k
    {
      k := k + 1;
    }
  }

  lemma DecidesAt(known: seq<View>, k: nat)
    requires k < |known| && forall j :: 0 <= j < k ==> known[j] != known[k]
    requires forall j :: 0 <= j < |known| && known[j] != known[k] && known[j].group == known[k].group ==> known[j].available < known[k].available
    ensures Decides(known, k)
  {}

  lemma ViewFacts(records: seq<Record>, i: nat, policy: Policy)
    requires i < |records| && C.Chain(Events(records), i).Stop? && ViewAt(records, i, policy).Some?
    ensures var v := ViewAt(records, i, policy).value;
            && Some(v.available) == EffectivelyAvailable(records[i], policy)
            && v.validTo == records[i].validTo && v.group == GroupOf(records, i)
  {
    hide C.Chain, ViewAt, EffectivelyAvailable, IsEvidence, SeenBefore;
    EligibleExactly(records, i, policy, 0);
  }

  /** The event behind an eligible view. */
  lemma Behind(records: seq<Record>, policy: Policy, horse: string, family: string, cutoff: int, v: View) returns (i: nat)
    requires C.Resolvable(Events(records)) && v in Eligible(Rows(ViewsOf(records, policy), horse, family), cutoff)
    ensures i < |records| && ForKey(records[i], horse, family) && ViewAt(records, i, policy) == Some(v)
    ensures IsEvidence(records, i) && SeenBefore(records[i], policy, cutoff)
  {
    hide C.Chain, ViewsOf, Collected, SortBy, Eligible, ViewAt, IsEvidence, SeenBefore, KnownAt, ForKey;
    RowsOf(records, policy, horse, family);
    EligibleOfSorted(Listed(records, policy, horse, family), cutoff, v);
    KnownIsEligible(records, |records|, policy, cutoff, horse, family);
    KnownMember(records, |records|, policy, cutoff, horse, family, v);
    i :| 0 <= i < |records| && ForKey(records[i], horse, family) && KnownAt(records, i, policy, cutoff) == Some(v);
    KnownView(records, i, policy, cutoff);
    EligibleExactly(records, i, policy, cutoff);
  }
}
