/** From raw events to what a race may see: corrections resolved over the whole archive, then one view an event
    (ima/historical_events.py, `normalize_events` and `event_views`). */
module ArchivedEvents {
  import C = CorrectionChains
  import opened StableSort
  import opened AsOfViews
  import opened EventFeatures

  /** An event and what its view is read from; `rank` is its id's place in lexicographic order. */
  datatype Record = Record(
    event: C.Event, rank: int, official: bool,
    occurrenceEligible: Option<int>, available: Option<int>, occurred: int, validFrom: Option<int>, validTo: Option<int>,
    tier: Tier, values: Values)

  function Events(records: seq<Record>): (events: seq<C.Event>)
    ensures |events| == |records| && forall i :: 0 <= i < |records| ==> events[i] == records[i].event
  {
    seq(|records|, i requires 0 <= i < |records| => records[i].event)
  }

  /** The observation an event amounts to once its chain is resolved. */
  function Observe(r: Record, resolved: C.Event): Observation {
    Observation(r.rank, resolved.group, r.event.family, if r.event.horse.Some? then Some(r.event.horse.value) else None,
      resolved.reasons == [] && r.official,
      r.occurrenceEligible, r.available, r.occurred, r.validFrom, r.validTo, r.tier, r.values)
  }

  /** The view of the i-th event; none if it is not evidence. */
  function ViewAt(records: seq<Record>, i: nat, policy: Policy): Option<View>
    requires i < |records| && C.Chain(Events(records), i).Stop?
  {
    var v := AsView(Observe(records[i], C.ResolvedEvent(Events(records), i)), policy);
    if v.Ok? then v.value else None
  }

  predicate ForKey(r: Record, horse: string, family: string) {
    r.event.horse.Some? && r.event.horse.value == horse && r.event.family == family
  }

  /** The views of one horse and family among the first `n` events, in archive order. */
  ghost function Collected(records: seq<Record>, n: nat, policy: Policy, horse: string, family: string): seq<View>
    requires C.Resolvable(Events(records)) && n <= |records|
  {
    if n == 0 then []
    else
      var before := Collected(records, n - 1, policy, horse, family);
      var v := ViewAt(records, n - 1, policy);
      if ForKey(records[n - 1], horse, family) && v.Some? then before + [v.value] else before
  }

  ghost function Listed(records: seq<Record>, policy: Policy, horse: string, family: string): seq<View>
    requires C.Resolvable(Events(records))
  {
    Collected(records, |records|, policy, horse, family)
  }

  // ---- what is known before a cutoff ----

  /** Its own evidence is eligible before the cutoff, whatever becomes of its chain. */
  predicate Early(r: Record, policy: Policy, cutoff: int) {
    var v := AsView(Observe(r, r.event), policy);
    v.Ok? && v.value.Some? && v.value.value.eligible < cutoff
  }

  /** The archive later on: more events, anywhere in the list, none of them early. */
  ghost predicate Grows(records: seq<Record>, later: seq<Record>, policy: Policy, cutoff: int) {
    if later == [] then records == []
    else
      var n := |later| - 1;
      || (records != [] && records[|records|-1] == later[n] && Grows(records[..|records|-1], later[..n], policy, cutoff))
      || (!Early(later[n], policy, cutoff) && Grows(records, later[..n], policy, cutoff))
  }

  /** Events that share an id agree on whatever a chain reads (unique ids are one way), no chain is endless, and ids
      are told apart by their ranks. */
  ghost predicate Sound(records: seq<Record>) {
    && C.Agreeing(Events(records)) && C.Resolvable(Events(records))
    && forall i, j :: 0 <= i < |records| && 0 <= j < |records| && records[i].rank == records[j].rank ==>
         records[i].event.id == records[j].event.id
  }

  /** The same is known before the cutoff of every horse and family. */
  ghost predicate SameKnown(records: seq<Record>, later: seq<Record>, policy: Policy, cutoff: int)
    requires C.Resolvable(Events(records)) && C.Resolvable(Events(later))
  {
    forall horse, family :: Eligible(Listed(records, policy, horse, family), cutoff) == Eligible(Listed(later, policy, horse, family), cutoff)
  }

  lemma {:induction false} GrowsKeeps(records: seq<Record>, later: seq<Record>, policy: Policy, cutoff: int, r: Record)
    requires Grows(records, later, policy, cutoff)
    ensures r in records ==> r in later
    ensures r in later && Early(r, policy, cutoff) ==> r in records
  {
    hide Early;
    if later != [] {
      var n := |later| - 1;
      assert later == later[..n] + [later[n]];
      if records != [] && records[|records|-1] == later[n] && Grows(records[..|records|-1], later[..n], policy, cutoff) {
        var m := |records| - 1;
        assert records == records[..m] + [records[m]];
        GrowsKeeps(records[..m], later[..n], policy, cutoff, r);
      } else {
        GrowsKeeps(records, later[..n], policy, cutoff, r);
      }
    }
  }

  // ---- a chain, now and later ----

  /** A chain that stops because its next parent is not in the archive. */
  ghost predicate Orphaned(events: seq<C.Event>, i: nat)
    requires i < |events|
  {
    C.Chain(events, i).Stop? && C.Chain(events, i).broken && events[C.Chain(events, i).at].correctionOf !in C.ById(events)
  }

  ghost predicate WithinEvents(xs: seq<C.Event>, ys: seq<C.Event>) {
    forall e :: e in xs ==> e in ys
  }

  lemma FoundLater(xs: seq<C.Event>, ys: seq<C.Event>, i: nat)
    requires C.Agreeing(ys) && WithinEvents(xs, ys) && i < |xs|
    ensures xs[i].id in C.ById(ys) && C.Alike(xs[i], ys[C.ById(ys)[xs[i].id]])
  {
    assert xs[i] in xs;
    var j: nat :| j < |ys| && ys[j] == xs[i];
  }

  /** A walk that ends in the smaller archive ends at an event like it in the larger one, unless it was an orphan there
      and the missing parent has turned up. */
  lemma {:induction false} LaterWalk(xs: seq<C.Event>, ys: seq<C.Event>, start: nat, start': nat, at: nat, at': nat, visited: set<string>)
    requires C.Agreeing(xs) && C.Agreeing(ys) && WithinEvents(xs, ys)
    requires start < |xs| && start' < |ys| && C.Alike(xs[start], ys[start'])
    requires at < |xs| && at' < |ys| && C.Alike(xs[at], ys[at'])
    requires C.Walk(xs, start, at, visited).Stop?
    ensures var w, w' := C.Walk(xs, start, at, visited), C.Walk(ys, start', at', visited);
            || (w.broken && xs[w.at].correctionOf !in C.ById(xs) && xs[w.at].correctionOf in C.ById(ys))
            || (w'.Stop? && w'.broken == w.broken && C.Alike(xs[w.at], ys[w'.at]))
    decreases C.ById(xs).Keys - visited
  {
    hide C.ById, C.Agreeing, WithinEvents;
    if xs[at].correctionOf != "" {
      var p, p' := C.Parent(xs, at), C.Parent(ys, at');
      if p.Some? {
        FoundLater(xs, ys, p.value);
        assert p'.Some? && C.Alike(xs[p.value], ys[p'.value]);
        if C.Compatible(xs[start], xs[p.value]) {
          LaterWalk(xs, ys, start, start', p.value, p'.value, visited + {xs[at].id});
        }
      }
    }
  }

  // ---- point in time, exactly ----

  /** An early event whose chain was broken, until a later event completed it. */
  ghost predicate Repaired(records: seq<Record>, later: seq<Record>, policy: Policy, cutoff: int, i: nat, j: nat)
    requires i < |records| && j < |later| && C.Resolvable(Events(records)) && C.Resolvable(Events(later))
  {
    && records[i] == later[j] && Early(records[i], policy, cutoff)
    && C.Chain(Events(records), i).broken && !C.Chain(Events(later), j).broken
  }

  ghost predicate NothingRepaired(records: seq<Record>, later: seq<Record>, policy: Policy, cutoff: int)
    requires C.Resolvable(Events(records)) && C.Resolvable(Events(later))
  {
    forall i: nat, j: nat :: i < |records| && j < |later| ==> !Repaired(records, later, policy, cutoff, i, j)
  }

  /** The view, if it is eligible before the cutoff. */
  function KnownAt(records: seq<Record>, i: nat, policy: Policy, cutoff: int): Option<View>
    requires i < |records| && C.Chain(Events(records), i).Stop?
  {
    var v := ViewAt(records, i, policy);
    if v.Some? && v.value.eligible < cutoff then v else None
  }

  /** Known is early with an unbroken chain; the chain only decides the group. */
  lemma KnownMeans(records: seq<Record>, i: nat, policy: Policy, cutoff: int)
    requires i < |records| && C.Chain(Events(records), i).Stop?
    ensures KnownAt(records, i, policy, cutoff).Some? <==> Early(records[i], policy, cutoff) && !C.Chain(Events(records), i).broken
    ensures KnownAt(records, i, policy, cutoff).Some? ==>
              KnownAt(records, i, policy, cutoff).value.id == records[i].rank && records[i].event.horse.Some?
  {
    hide C.Chain;
    var w := C.Chain(Events(records), i);
    if w.broken { assert C.ResolvedEvent(Events(records), i).reasons[|records[i].event.reasons|] == C.BROKEN; }
    else { assert C.ResolvedEvent(Events(records), i).reasons == records[i].event.reasons; }
  }

  lemma EventsWithin(records: seq<Record>, later: seq<Record>, policy: Policy, cutoff: int)
    requires Grows(records, later, policy, cutoff)
    ensures WithinEvents(Events(records), Events(later))
  {
    hide Grows, Early;
    forall e | e in Events(records) ensures e in Events(later) {
      var i :| 0 <= i < |records| && Events(records)[i] == e;
      GrowsKeeps(records, later, policy, cutoff, records[i]);
      var j :| 0 <= j < |later| && later[j] == records[i];
      assert Events(later)[j] == e;
    }
  }

  lemma SameAtBoth(records: seq<Record>, later: seq<Record>, policy: Policy, cutoff: int, i: nat, j: nat)
    requires Sound(records) && Sound(later) && Grows(records, later, policy, cutoff)
    requires NothingRepaired(records, later, policy, cutoff)
    requires i < |records| && j < |later| && records[i] == later[j]
    ensures KnownAt(records, i, policy, cutoff) == KnownAt(later, j, policy, cutoff)
  {
    hide C.Walk, Grows, Early;
    var xs, ys := Events(records), Events(later);
    KnownMeans(records, i, policy, cutoff);
    KnownMeans(later, j, policy, cutoff);
    assert !Repaired(records, later, policy, cutoff, i, j);
    EventsWithin(records, later, policy, cutoff);
    LaterWalk(xs, ys, i, j, i, j, {});
  }

  lemma EligibleStep(rows: seq<View>, v: Option<View>, cutoff: int)
    ensures Eligible(if v.Some? then rows + [v.value] else rows, cutoff)
         == Eligible(rows, cutoff) + if v.Some? && v.value.eligible < cutoff then [v.value] else []
  {
    if v.Some? { EligibleSnoc(rows, v.value, cutoff); }
  }

  /** The known views among the first `n` events. */
  ghost function Known(records: seq<Record>, n: nat, policy: Policy, cutoff: int, horse: string, family: string): seq<View>
    requires C.Resolvable(Events(records)) && n <= |records|
  {
    if n == 0 then []
    else
      Known(records, n - 1, policy, cutoff, horse, family)
      + if ForKey(records[n - 1], horse, family) && KnownAt(records, n - 1, policy, cutoff).Some?
        then [KnownAt(records, n - 1, policy, cutoff).value] else []
  }

  lemma {:induction false} KnownIsEligible(records: seq<Record>, n: nat, policy: Policy, cutoff: int, horse: string, family: string)
    requires C.Resolvable(Events(records)) && n <= |records|
    ensures Eligible(Collected(records, n, policy, horse, family), cutoff) == Known(records, n, policy, cutoff, horse, family)
  {
    hide C.Chain, ViewAt, Eligible;
    if n > 0 {
      KnownIsEligible(records, n - 1, policy, cutoff, horse, family);
      var v := ViewAt(records, n - 1, policy);
      EligibleStep(Collected(records, n - 1, policy, horse, family), if ForKey(records[n - 1], horse, family) then v else None, cutoff);
    } else {
      NothingCollected(cutoff);
    }
  }

  lemma NothingCollected(cutoff: int)
    ensures Eligible([], cutoff) == []
  {}

  lemma {:induction false} SameKnownPrefix(records: seq<Record>, later: seq<Record>, policy: Policy, cutoff: int, n: nat, m: nat,
                                           horse: string, family: string)
    requires Sound(records) && Sound(later) && Grows(records, later, policy, cutoff)
    requires NothingRepaired(records, later, policy, cutoff)
    requires n <= |records| && m <= |later| && Grows(records[..n], later[..m], policy, cutoff)
    ensures Known(records, n, policy, cutoff, horse, family) == Known(later, m, policy, cutoff, horse, family)
    decreases m
  {
    hide C.Chain, KnownAt, Early, NothingRepaired, C.Agreeing, Known, Grows;
    if m == 0 {
      BothEmpty(records, later, policy, cutoff, n, m, horse, family);
    } else {
      GrowsStep(records, later, policy, cutoff, n, m);
      if n > 0 && records[n - 1] == later[m - 1] && Grows(records[..n - 1], later[..m - 1], policy, cutoff) {
        SameKnownPrefix(records, later, policy, cutoff, n - 1, m - 1, horse, family);
        SameAtBoth(records, later, policy, cutoff, n - 1, m - 1);
        KnownStep(records, later, policy, cutoff, n, m, horse, family);
      } else {
        SameKnownPrefix(records, later, policy, cutoff, n, m - 1, horse, family);
        KnownSkip(later, policy, cutoff, m, horse, family);
      }
    }
  }

  lemma BothEmpty(records: seq<Record>, later: seq<Record>, policy: Policy, cutoff: int, n: nat, m: nat, horse: string, family: string)
    requires C.Resolvable(Events(records)) && C.Resolvable(Events(later))
    requires n <= |records| && m == 0 && Grows(records[..n], later[..m], policy, cutoff)
    ensures Known(records, n, policy, cutoff, horse, family) == Known(later, m, policy, cutoff, horse, family)
  {
    hide KnownAt, C.Chain;
  }

  lemma GrowsStep(records: seq<Record>, later: seq<Record>, policy: Policy, cutoff: int, n: nat, m: nat)
    requires n <= |records| && 0 < m <= |later| && Grows(records[..n], later[..m], policy, cutoff)
    ensures || (n > 0 && records[n - 1] == later[m - 1] && Grows(records[..n - 1], later[..m - 1], policy, cutoff))
            || (!Early(later[m - 1], policy, cutoff) && Grows(records[..n], later[..m - 1], policy, cutoff))
  {
    hide Early;
    assert later[..m][..m - 1] == later[..m - 1] && later[..m][m - 1] == later[m - 1];
    if n > 0 { assert records[..n][..n - 1] == records[..n - 1]; }
  }

  lemma KnownSkip(later: seq<Record>, policy: Policy, cutoff: int, m: nat, horse: string, family: string)
    requires C.Resolvable(Events(later)) && 0 < m <= |later| && !Early(later[m - 1], policy, cutoff)
    ensures Known(later, m, policy, cutoff, horse, family) == Known(later, m - 1, policy, cutoff, horse, family)
  {
    hide C.Chain, KnownAt, Early, ForKey;
    KnownMeans(later, m - 1, policy, cutoff);
  }

  lemma KnownStep(records: seq<Record>, later: seq<Record>, policy: Policy, cutoff: int, n: nat, m: nat, horse: string, family: string)
    requires Sound(records) && Sound(later) && 0 < n <= |records| && 0 < m <= |later| && records[n - 1] == later[m - 1]
    requires Known(records, n - 1, policy, cutoff, horse, family) == Known(later, m - 1, policy, cutoff, horse, family)
    requires KnownAt(records, n - 1, policy, cutoff) == KnownAt(later, m - 1, policy, cutoff)
    ensures Known(records, n, policy, cutoff, horse, family) == Known(later, m, policy, cutoff, horse, family)
  {
    hide C.Chain, KnownAt, C.Agreeing, ForKey;
  }

  lemma {:induction false} KnownMember(records: seq<Record>, n: nat, policy: Policy, cutoff: int, horse: string, family: string, v: View)
    requires C.Resolvable(Events(records)) && n <= |records|
    ensures v in Known(records, n, policy, cutoff, horse, family) <==>
            exists k :: 0 <= k < n && ForKey(records[k], horse, family) && KnownAt(records, k, policy, cutoff) == Some(v)
  {
    hide C.Chain, KnownAt, ForKey;
    if n > 0 { KnownMember(records, n - 1, policy, cutoff, horse, family, v); }
  }

  /** Later events leave everything known before the cutoff as it was, exactly when they complete no broken chain
      of an early event. */
  lemma PointInTimeExactly(records: seq<Record>, later: seq<Record>, policy: Policy, cutoff: int)
    requires Sound(records) && Sound(later) && Grows(records, later, policy, cutoff)
    ensures SameKnown(records, later, policy, cutoff) <==> NothingRepaired(records, later, policy, cutoff)
  {
    hide C.Chain, KnownAt, Early, Grows, Known, Collected, Eligible;
    if NothingRepaired(records, later, policy, cutoff) {
      assert records[..|records|] == records && later[..|later|] == later;
      forall horse, family ensures Eligible(Listed(records, policy, horse, family), cutoff) == Eligible(Listed(later, policy, horse, family), cutoff) {
        SameKnownPrefix(records, later, policy, cutoff, |records|, |later|, horse, family);
        KnownIsEligible(records, |records|, policy, cutoff, horse, family);
        KnownIsEligible(later, |later|, policy, cutoff, horse, family);
      }
    }
    if SameKnown(records, later, policy, cutoff) {
      forall i: nat, j: nat | i < |records| && j < |later| ensures !Repaired(records, later, policy, cutoff, i, j) {
        if Repaired(records, later, policy, cutoff, i, j) {
          RepairShows(records, later, policy, cutoff, i, j);
          assert false;
        }
      }
    }
  }

  lemma RepairShows(records: seq<Record>, later: seq<Record>, policy: Policy, cutoff: int, i: nat, j: nat)
    requires Sound(records) && Sound(later) && i < |records| && j < |later|
    requires Repaired(records, later, policy, cutoff, i, j)
    ensures !SameKnown(records, later, policy, cutoff)
  {
    hide C.Chain, KnownAt, Early, Grows, Known, Collected, Eligible;
    KnownMeans(later, j, policy, cutoff);
    KnownMeans(records, i, policy, cutoff);
    var v := KnownAt(later, j, policy, cutoff).value;
    var horse, family := later[j].event.horse.value, later[j].event.family;
    KnownMember(later, |later|, policy, cutoff, horse, family, v);
    KnownMember(records, |records|, policy, cutoff, horse, family, v);
    KnownIsEligible(records, |records|, policy, cutoff, horse, family);
    KnownIsEligible(later, |later|, policy, cutoff, horse, family);
    assert v in Known(later, |later|, policy, cutoff, horse, family);
    if v in Known(records, |records|, policy, cutoff, horse, family) {
      var k :| 0 <= k < |records| && ForKey(records[k], horse, family) && KnownAt(records, k, policy, cutoff) == Some(v);
      KnownMeans(records, k, policy, cutoff);
      C.SameFate(Events(records), k, i);
      assert false;
    }
    assert Eligible(Listed(records, policy, horse, family), cutoff) != Eligible(Listed(later, policy, horse, family), cutoff);
  }

  // ---- what the archive must hold ----

  /** No early event is waiting for a parent. */
  ghost predicate Settled(records: seq<Record>, policy: Policy, cutoff: int) {
    forall i: nat :: i < |records| && Early(records[i], policy, cutoff) ==> !Orphaned(Events(records), i)
  }

  /** Every parent that the chain of an early event looks for in vain stays missing. */
  ghost predicate StaysAbsent(records: seq<Record>, later: seq<Record>, policy: Policy, cutoff: int)
    requires C.Resolvable(Events(records))
  {
    forall i: nat :: i < |records| && Early(records[i], policy, cutoff) && Orphaned(Events(records), i) ==>
      Events(records)[C.Chain(Events(records), i).at].correctionOf !in C.ById(Events(later))
  }

  /** A parent already present, or absent for good, keeps everything known before the cutoff as it was. */
  lemma PresentOrAbsent(records: seq<Record>, later: seq<Record>, policy: Policy, cutoff: int)
    requires Sound(records) && Sound(later) && Grows(records, later, policy, cutoff)
    requires StaysAbsent(records, later, policy, cutoff)
    ensures NothingRepaired(records, later, policy, cutoff) && SameKnown(records, later, policy, cutoff)
  {
    hide C.Walk, Early, Grows, SameKnown;
    var xs, ys := Events(records), Events(later);
    EventsWithin(records, later, policy, cutoff);
    forall i: nat, j: nat | i < |records| && j < |later| ensures !Repaired(records, later, policy, cutoff, i, j) {
      if records[i] == later[j] && Early(records[i], policy, cutoff) {
        LaterWalk(xs, ys, i, j, i, j, {});
      }
    }
    PointInTimeExactly(records, later, policy, cutoff);
  }

  lemma {:induction false} GrowsNothing(records: seq<Record>, policy: Policy, cutoff: int)
    ensures Grows(records, records, policy, cutoff)
  {
    hide Early;
    if records != [] { GrowsNothing(records[..|records|-1], policy, cutoff); }
  }

  /** Adding an original under a missing id completes the chains that were waiting for it, and no chain runs on. */
  lemma {:induction false} AddedWalk(xs: seq<C.Event>, original: C.Event, start: nat, at: nat, visited: set<string>)
    requires start < |xs| && at < |xs| && C.Walk(xs, start, at, visited).Stop?
    requires original.correctionOf == "" && original.id !in C.ById(xs)
    ensures var w, w' := C.Walk(xs, start, at, visited), C.Walk(xs + [original], start, at, visited);
            w'.Stop? && (w.broken && xs[w.at].correctionOf == original.id && C.Compatible(xs[start], original) ==> !w'.broken)
    decreases C.ById(xs).Keys - visited
  {
    var ys := xs + [original];
    assert ys[..|xs|] == xs;
    assert C.ById(ys) == C.ById(xs)[original.id := |xs|];
    hide C.ById;
    if xs[at].correctionOf != "" {
      var p := C.Parent(xs, at);
      if p.Some? && C.Compatible(xs[start], xs[p.value]) {
        AddedWalk(xs, original, start, p.value, visited + {xs[at].id});
      }
    }
  }

  lemma FreshRank(records: seq<Record>) returns (rank: int)
    ensures forall i :: 0 <= i < |records| ==> records[i].rank != rank
  {
    rank := 0;
    for n := 0 to |records|
      invariant forall i :: 0 <= i < n ==> records[i].rank < rank
    {
      if records[n].rank >= rank { rank := records[n].rank + 1; }
    }
  }

  /** An observation of the missing parent that nobody captured before the cutoff. */
  function MissingParent(id: string, child: Record, rank: int): Record {
    Record(C.Event(id, "", child.event.horse, child.event.family, "", []), rank, false, None, None, 0, None, None, Unknown, child.values)
  }

  lemma AddedStops(xs: seq<C.Event>, original: C.Event, k: nat)
    requires C.Resolvable(xs) && original.correctionOf == "" && original.id !in C.ById(xs) && k <= |xs|
    ensures C.Chain(xs + [original], k).Stop?
  {
    if k < |xs| {
      assert C.Chain(xs, k).Stop?;
      hide C.Walk, C.ById;
      AddedWalk(xs, original, k, k, {});
    } else {
      OriginalStops(xs + [original], k);
    }
  }

  lemma AddedSound(records: seq<Record>, parent: Record)
    requires Sound(records) && parent.event.correctionOf == "" && parent.event.id !in C.ById(Events(records))
    requires forall i :: 0 <= i < |records| ==> records[i].rank != parent.rank
    ensures Sound(records + [parent]) && Events(records + [parent]) == Events(records) + [parent.event]
  {
    hide C.Chain, C.ById;
    var xs, ys := Events(records), Events(records + [parent]);
    assert ys == xs + [parent.event];
    forall k: nat | k < |ys| ensures C.Chain(ys, k).Stop? {
      AddedStops(xs, parent.event, k);
    }
    forall k | 0 <= k < |xs| ensures ys[k].id != parent.event.id {
      assert xs[k].id in C.ById(xs);
    }
  }

  lemma OrphanRepaired(records: seq<Record>, policy: Policy, cutoff: int, i: nat) returns (later: seq<Record>)
    requires Sound(records) && i < |records| && Early(records[i], policy, cutoff) && Orphaned(Events(records), i)
    ensures Sound(later) && Grows(records, later, policy, cutoff) && |later| > i && Repaired(records, later, policy, cutoff, i, i)
  {
    hide C.Walk, C.ById, C.Resolvable, C.Agreeing;
    var xs := Events(records);
    var rank := FreshRank(records);
    var parent := MissingParent(xs[C.Chain(xs, i).at].correctionOf, records[i], rank);
    later := records + [parent];
    AddedSound(records, parent);
    AddedWalk(xs, parent.event, i, i, {});
    GrowsNothing(records, policy, cutoff);
    assert later[..|records|] == records && !Early(parent, policy, cutoff);
    hide Early;
    assert Grows(records, later, policy, cutoff);
  }

  lemma OriginalStops(events: seq<C.Event>, i: nat)
    requires i < |events| && events[i].correctionOf == ""
    ensures C.Chain(events, i) == C.Stop(i, false)
  {}

  /** What is known before a cutoff is final, whatever is captured afterwards, exactly when no early event is waiting
      for a parent. */
  lemma FinalExactly(records: seq<Record>, policy: Policy, cutoff: int)
    requires Sound(records)
    ensures Settled(records, policy, cutoff) <==>
            forall later :: Sound(later) && Grows(records, later, policy, cutoff) ==> SameKnown(records, later, policy, cutoff)
  {
    hide C.Chain, Early, Grows, SameKnown, C.Agreeing;
    if Settled(records, policy, cutoff) {
      forall later | Sound(later) && Grows(records, later, policy, cutoff) ensures SameKnown(records, later, policy, cutoff) {
        PresentOrAbsent(records, later, policy, cutoff);
      }
    } else {
      var i: nat :| i < |records| && Early(records[i], policy, cutoff) && Orphaned(Events(records), i);
      var later := OrphanRepaired(records, policy, cutoff, i);
      RepairShows(records, later, policy, cutoff, i, i);
    }
  }

  // ---- the views by horse and family ----

  function KeysOf(records: seq<Record>): set<(string, string)> {
    set r | r in records && r.event.horse.Some? :: (r.event.horse.value, r.event.family)
  }

  /** What `event_views` returns. */
  ghost function ViewsOf(records: seq<Record>, policy: Policy): Views
    requires C.Resolvable(Events(records))
  {
    map key | key in KeysOf(records) && Listed(records, policy, key.0, key.1) != [] :: SortBy(Listed(records, policy, key.0, key.1), ByEligible)
  }

  lemma {:induction false} OnlyItsKeys(records: seq<Record>, n: nat, policy: Policy, horse: string, family: string)
    requires C.Resolvable(Events(records)) && n <= |records| && (horse, family) !in KeysOf(records)
    ensures Collected(records, n, policy, horse, family) == []
  {
    hide C.Chain, ViewAt;
    if n > 0 {
      OnlyItsKeys(records, n - 1, policy, horse, family);
      assert records[n - 1] in records;
    }
  }

  lemma RowsOf(records: seq<Record>, policy: Policy, horse: string, family: string)
    requires C.Resolvable(Events(records))
    ensures Rows(ViewsOf(records, policy), horse, family) == SortBy(Listed(records, policy, horse, family), ByEligible)
  {
    hide Collected, KeysOf;
    if (horse, family) !in KeysOf(records) { OnlyItsKeys(records, |records|, policy, horse, family); }
  }

  ghost predicate NoError(records: seq<Record>, n: nat, policy: Policy)
    requires C.Resolvable(Events(records)) && n <= |records|
  {
    forall i :: 0 <= i < n ==> AsView(Observe(records[i], C.ResolvedEvent(Events(records), i)), policy).Ok?
  }

  ghost predicate HoldsViews(views: Views, records: seq<Record>, n: nat, policy: Policy)
    requires C.Resolvable(Events(records)) && n <= |records|
  {
    && (forall key :: key in views ==> views[key] != [])
    && (forall horse, family :: Rows(views, horse, family) == Collected(records, n, policy, horse, family))
  }

  lemma HoldsNext(views: Views, records: seq<Record>, n: nat, policy: Policy)
    requires C.Resolvable(Events(records)) && n < |records| && HoldsViews(views, records, n, policy)
    requires ViewAt(records, n, policy).Some? ==> records[n].event.horse.Some?
    ensures HoldsViews(
      if ViewAt(records, n, policy).Some? then
        var key := (records[n].event.horse.value, records[n].event.family);
        views[key := Rows(views, key.0, key.1) + [ViewAt(records, n, policy).value]]
      else views, records, n + 1, policy)
  {
    hide C.Chain, ViewAt;
    var v, key := ViewAt(records, n, policy), (if records[n].event.horse.Some? then records[n].event.horse.value else "", records[n].event.family);
    var next := if v.Some? then views[key := Rows(views, key.0, key.1) + [v.value]] else views;
    forall horse, family ensures Rows(next, horse, family) == Collected(records, n + 1, policy, horse, family) {
      assert Rows(views, horse, family) == Collected(records, n, policy, horse, family);
    }
  }

  lemma HoldsNothing(records: seq<Record>, policy: Policy)
    requires C.Resolvable(Events(records))
    ensures HoldsViews(map[], records, 0, policy) && NoError(records, 0, policy)
  {}

  /** The loop over the normalised events. */
  method CollectViews(records: seq<Record>, events: array<C.Event>, policy: Policy) returns (ok: bool, views: Views)
    requires C.Resolvable(Events(records)) && events[..] == C.Resolved(Events(records))
    ensures ok <==> NoError(records, |records|, policy)
    ensures ok ==> HoldsViews(views, records, |records|, policy)
  {
    hide C.Chain, C.Resolvable, C.ResolvedEvent, AsView, HoldsViews, Observe;
    views := map[];
    HoldsNothing(records, policy);
    for n := 0 to |records|
      invariant NoError(records, n, policy) && HoldsViews(views, records, n, policy)
    {
      assert events[n] == C.Resolved(Events(records))[n];
      var v := AsView(Observe(records[n], events[n]), policy);
      if v.Err? {
        ok := false;
        return;
      }
      ViewHasHorse(records, n, policy);
      HoldsNext(views, records, n, policy);
      if v.value.Some? {
        var horse, family := records[n].event.horse.value, records[n].event.family;
        views := views[(horse, family) := Rows(views, horse, family) + [v.value.value]];
      }
    }
    ok := true;
  }

  method SortViews(unsorted: Views) returns (views: Views)
    ensures views.Keys == unsorted.Keys && forall key :: key in unsorted ==> views[key] == SortBy(unsorted[key], ByEligible)
  {
    hide SortBy;
    views := unsorted;
    var left := views.Keys;
    while left != {}
      invariant left <= views.Keys == unsorted.Keys
      invariant forall key :: key in left ==> views[key] == unsorted[key]
      invariant forall key :: key in unsorted && key !in left ==> views[key] == SortBy(unsorted[key], ByEligible)
    {
      var key :| key in left;
      views := views[key := SortBy(views[key], ByEligible)];
      left := left - {key};
    }
  }

  /** `normalize_events`, then `event_views`: the views of each horse and family, sorted. */
  method EventViews(records: seq<Record>, policy: Policy) returns (ok: bool, views: Views)
    ensures ok <==> C.Resolvable(Events(records)) && NoError(records, |records|, policy)
    ensures ok ==> views == ViewsOf(records, policy)
  {
    hide C.Chain, C.Resolvable, C.Resolved, NoError, KeysOf, ViewsOf;
    var events := new C.Event[|records|](i requires 0 <= i < |records| => records[i].event);
    assert events[..] == Events(records);
    ok := C.Resolve(events);
    views := map[];
    if ok {
      ok, views := CollectViews(records, events, policy);
      if ok {
        ghost var unsorted := views;
        views := SortViews(views);
        SameViews(records, policy, unsorted, views);
      }
    }
  }

  lemma ViewHasHorse(records: seq<Record>, n: nat, policy: Policy)
    requires C.Resolvable(Events(records)) && n < |records|
    ensures ViewAt(records, n, policy).Some? ==> records[n].event.horse.Some?
  {
    hide C.Chain;
  }

  lemma SameViews(records: seq<Record>, policy: Policy, unsorted: Views, views: Views)
    requires C.Resolvable(Events(records))
    requires forall key :: key in unsorted ==> unsorted[key] != []
    requires forall horse, family :: Rows(unsorted, horse, family) == Listed(records, policy, horse, family)
    requires views.Keys == unsorted.Keys && forall key :: key in unsorted ==> views[key] == SortBy(unsorted[key], ByEligible)
    ensures views == ViewsOf(records, policy)
  {
    hide Collected, KeysOf;
    var expected := ViewsOf(records, policy);
    forall key: (string, string) ensures key in views <==> key in expected {
      assert Rows(unsorted, key.0, key.1) == Listed(records, policy, key.0, key.1);
      if key !in KeysOf(records) { OnlyItsKeys(records, |records|, policy, key.0, key.1); }
    }
    forall key | key in views ensures views[key] == expected[key] {
      assert Rows(unsorted, key.0, key.1) == Listed(records, policy, key.0, key.1);
    }
  }

  // ---- features ----

  ghost predicate SameCoverage(coverage: CoverageByHorse, coverage': CoverageByHorse, horse: string, cutoff: int) {
    forall family, r: Coverage | r.available < cutoff ::
      r in EventFeatures.Records(coverage, horse, family) <==> r in EventFeatures.Records(coverage', horse, family)
  }

  /** From raw events to features: later events and coverage statements change nothing for a race, as long as they
      complete no broken chain of an event that was already known. */
  lemma FeaturesPointInTime(records: seq<Record>, later: seq<Record>, policy: Policy, coverage: CoverageByHorse, coverage': CoverageByHorse,
                            horse: string, cutoff: int)
    requires Sound(records) && Sound(later) && Grows(records, later, policy, cutoff)
    requires NothingRepaired(records, later, policy, cutoff) && SameCoverage(coverage, coverage', horse, cutoff)
    ensures RunnerFeatures(ViewsOf(records, policy), coverage, horse, cutoff)
         == RunnerFeatures(ViewsOf(later, policy), coverage', horse, cutoff)
  {
    hide C.Chain, Grows, NothingRepaired, RunnerFeatures, ViewsOf, Collected, Rows, EventFeatures.Records, SortBy;
    PointInTimeExactly(records, later, policy, cutoff);
    var views, views' := ViewsOf(records, policy), ViewsOf(later, policy);
    forall family ensures Eligible(Rows(views, horse, family), cutoff) == Eligible(Rows(views', horse, family), cutoff) {
      RowsOf(records, policy, horse, family);
      RowsOf(later, policy, horse, family);
      BelowSort(Listed(records, policy, horse, family), ByEligible, cutoff);
      BelowSort(Listed(later, policy, horse, family), ByEligible, cutoff);
    }
    PointInTime(views, coverage, views', coverage', horse, cutoff);
  }
}
