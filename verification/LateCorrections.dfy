/** A correction captured after a race that changes the race's features (ima/historical_events.py, `normalize_events`,
    `event_views` and `select_as_of`). */
module LateCorrections {
  import C = CorrectionChains
  import opened StableSort
  import opened AsOfViews
  import opened EventFeatures
  import opened ArchivedEvents


  /** An official trackwork observation of horse "h". */
  function Trackwork(id: string, correctionOf: string, group: string, rank: int, occurred: int, available: int): Record {
    Record(C.Event(id, correctionOf, C.Some("h"), "trackwork", group, []), rank, true, Some(occurred), Some(available), occurred, None, None,
      VerifiedPointInTime, Values(None, None, None, None))
  }

  /** An original, and the correction of a correction that has not been captured yet. */
  function AtRace(): seq<Record> {
    [Trackwork("q", "", "gq", 0, 0, 0), Trackwork("e", "p", "ge", 1, 1, 1)]
  }

  /** The missing link, captured long after the race at instant 10. */
  function Afterwards(): seq<Record> {
    AtRace() + [Trackwork("p", "q", "gp", 2, 0, 100)]
  }

  lemma BeforeChains()
    ensures var xs := Events(AtRace());
            C.Chain(xs, 0) == C.Stop(0, false) && C.Chain(xs, 1) == C.Stop(1, true) && C.Resolvable(xs)
  {
    var xs := Events(AtRace());
    assert xs[..0] == [] && xs[..1] == [xs[0]];
    assert C.ById(xs[..1]) == map["q" := 0];
    assert C.ById(xs) == map["q" := 0, "e" := 1];
    assert "p"[0] == 'p' && "q"[0] == 'q' && "e"[0] == 'e';
    OriginalStops(xs, 0);
    assert C.Parent(xs, 1).None?;
    hide C.ById;
    assert C.Chain(xs, 1) == C.Stop(1, true);
  }

  lemma AfterChains()
    ensures var ys := Events(Afterwards());
            && C.Chain(ys, 0) == C.Stop(0, false) && C.Chain(ys, 1) == C.Stop(0, false) && C.Chain(ys, 2) == C.Stop(0, false)
            && C.Resolvable(ys)
  {
    hide C.Walk, C.ById, C.Parent, C.Chain;
    OriginalStops(Events(Afterwards()), 0);
    ChainOfE();
    ChainOfP();
    assert |Afterwards()| == 3;
  }

  lemma ChainOfE()
    ensures C.Chain(Events(Afterwards()), 1) == C.Stop(0, false)
  {
    hide C.ById, C.Parent;
    var ys := Events(Afterwards());
    AfterParents();
    assert "p"[0] == 'p' && "e"[0] == 'e';
    LinkWalk(ys, 1, 2, {} + {"e"});
    assert ys[1].correctionOf == "p" && ys[1].id == "e";
    assert C.Chain(ys, 1) == C.Walk(ys, 1, 2, {} + {"e"});
  }

  lemma ChainOfP()
    ensures C.Chain(Events(Afterwards()), 2) == C.Stop(0, false)
  {
    hide C.ById, C.Parent;
    var ys := Events(Afterwards());
    AfterParents();
    LinkWalk(ys, 2, 2, {});
  }

  lemma AfterParents()
    ensures var ys := Events(Afterwards()); C.Parent(ys, 1) == C.Some(2) && C.Parent(ys, 2) == C.Some(0)
    ensures var ys := Events(Afterwards()); C.Compatible(ys[1], ys[2]) && C.Compatible(ys[1], ys[0]) && C.Compatible(ys[2], ys[0])
  {
    AfterLookup();
    assert "p"[0] == 'p' && "q"[0] == 'q' && "e"[0] == 'e';
  }

  /** A link to an original. */
  lemma LinkWalk(ys: seq<C.Event>, start: nat, at: nat, visited: set<string>)
    requires start < |ys| && 0 < at < |ys| && ys[0].correctionOf == ""
    requires ys[at].correctionOf != "" && ys[at].id !in visited
    requires C.Parent(ys, at) == C.Some(0) && C.Compatible(ys[start], ys[0])
    ensures C.Walk(ys, start, at, visited) == C.Stop(0, false)
  {
    hide C.ById, C.Parent;
    assert C.Walk(ys, start, 0, visited + {ys[at].id}) == C.Stop(0, false);
  }

  lemma AfterLookup()
    ensures C.ById(Events(Afterwards())) == map["q" := 0, "e" := 1, "p" := 2]
  {
    var ys := Events(Afterwards());
    assert ys[..2][..1][..0] == [] && ys[..2][..1] == [ys[0]];
    assert C.ById(ys[..2][..1]) == map["q" := 0];
    assert C.ById(ys[..2]) == map["q" := 0, "e" := 1];
  }

  function Line(r: Record, group: string): View {
    View(r.rank, group, r.rank, r.rank, r.occurred, None, r.values)
  }

  lemma Unbroken(records: seq<Record>, i: nat, id: string, correctionOf: string, group: string, rank: int, occurred: int, available: int)
    requires i < |records| && records[i] == Trackwork(id, correctionOf, group, rank, occurred, available)
    requires C.Chain(Events(records), i).Stop? && !C.Chain(Events(records), i).broken
    ensures ForKey(records[i], "h", "trackwork")
    ensures var eligible := if occurred >= available then occurred else available;
            KnownAt(records, i, Strict, 10) ==
              if eligible < 10
              then Some(View(rank, Events(records)[C.Chain(Events(records), i).at].group, eligible, available, occurred, None, records[i].values))
              else None
  {
    hide C.Chain;
  }

  lemma KnownThen()
    ensures C.Resolvable(Events(AtRace()))
    ensures Eligible(Listed(AtRace(), Strict, "h", "trackwork"), 10) == [Line(AtRace()[0], "gq")]
  {
    hide Eligible, C.Chain, KnownAt, ForKey;
    BeforeChains();
    Unbroken(AtRace(), 0, "q", "", "gq", 0, 0, 0);
    KnownMeans(AtRace(), 1, Strict, 10);
    KnownIsEligible(AtRace(), 2, Strict, 10, "h", "trackwork");
    assert Known(AtRace(), 1, Strict, 10, "h", "trackwork") == [Line(AtRace()[0], "gq")];
  }

  lemma KnownNow()
    ensures C.Resolvable(Events(Afterwards()))
    ensures Eligible(Listed(Afterwards(), Strict, "h", "trackwork"), 10) == [Line(AtRace()[0], "gq"), Line(AtRace()[1], "gq")]
  {
    hide Eligible, C.Chain, KnownAt, ForKey;
    AfterChains();
    Unbroken(Afterwards(), 0, "q", "", "gq", 0, 0, 0);
    Unbroken(Afterwards(), 1, "e", "p", "ge", 1, 1, 1);
    Unbroken(Afterwards(), 2, "p", "q", "gp", 2, 0, 100);
    KnownIsEligible(Afterwards(), 3, Strict, 10, "h", "trackwork");
    assert Known(Afterwards(), 1, Strict, 10, "h", "trackwork") == [Line(AtRace()[0], "gq")];
    assert Known(Afterwards(), 2, Strict, 10, "h", "trackwork") == [Line(AtRace()[0], "gq"), Line(AtRace()[1], "gq")];
  }

  lemma OneSorted(v: View)
    ensures SortBy([v], ByOccurred) == [v]
  {
    assert [v][..0] == [];
  }

  lemma OneVersion(rows: seq<View>, v: View, cutoff: int)
    requires Eligible(rows, cutoff) == [v] && v.validTo.None?
    ensures AsOf(rows, cutoff) == [v]
  {
    assert [v][..0] == [] && Groups([v]) == [v.group] && Winner([v], v.group) == Some(v);
    assert [v.group][..0] == [];
    assert Kept([v], [v.group], cutoff) == [v];
    OneSorted(v);
  }

  lemma TwoVersions(rows: seq<View>, v: View, w: View, cutoff: int)
    requires Eligible(rows, cutoff) == [v, w] && w.validTo.None? && v.group == w.group && w.available > v.available
    ensures AsOf(rows, cutoff) == [w]
  {
    assert [v, w][..1] == [v] && [v][..0] == [];
    assert Groups([v]) == [v.group] && Winner([v], v.group) == Some(v);
    assert Groups([v, w]) == [v.group] && Winner([v, w], v.group) == Some(w);
    assert [v.group][..0] == [];
    assert Kept([v, w], [v.group], cutoff) == [w];
    OneSorted(w);
  }

  lemma SortedPair(v: View, w: View)
    requires v.eligible < w.eligible
    ensures SortBy([v], ByEligible) == [v] && SortBy([v, w], ByEligible) == [v, w]
  {
    assert [v][..0] == [] && [v, w][..1] == [v];
    assert SortBy([v], ByEligible) == [v];
  }

  /** All ids are distinct and the new event is not early, yet the last observation of the race's runner changes from
      the original, ten seconds old, to its late correction, nine seconds old. */
  lemma LateParentRewrites()
    ensures Sound(AtRace()) && Sound(Afterwards()) && Grows(AtRace(), Afterwards(), Strict, 10)
    ensures AsOf(Rows(ViewsOf(AtRace(), Strict), "h", "trackwork"), 10) == [Line(AtRace()[0], "gq")]
    ensures AsOf(Rows(ViewsOf(Afterwards(), Strict), "h", "trackwork"), 10) == [Line(AtRace()[1], "gq")]
    ensures RunnerFeatures(ViewsOf(AtRace(), Strict), map[], "h", 10) != RunnerFeatures(ViewsOf(Afterwards(), Strict), map[], "h", 10)
  {
    hide C.Chain, ViewsOf, Listed, Eligible, AsOf, SortBy;
    Growth();
    KnownThen();
    KnownNow();
    var v, w := Line(AtRace()[0], "gq"), Line(AtRace()[1], "gq");
    SortedPair(v, w);
    RowsOf(AtRace(), Strict, "h", "trackwork");
    RowsOf(Afterwards(), Strict, "h", "trackwork");
    BelowSort(Listed(AtRace(), Strict, "h", "trackwork"), ByEligible, 10);
    BelowSort(Listed(Afterwards(), Strict, "h", "trackwork"), ByEligible, 10);
    var rows, rows' := Rows(ViewsOf(AtRace(), Strict), "h", "trackwork"), Rows(ViewsOf(Afterwards(), Strict), "h", "trackwork");
    BelowIsEligible(Listed(AtRace(), Strict, "h", "trackwork"), rows);
    BelowIsEligible(Listed(Afterwards(), Strict, "h", "trackwork"), rows');
    OneVersion(rows, v, 10);
    TwoVersions(rows', v, w, 10);
    DaysDiffer(ViewsOf(AtRace(), Strict), ViewsOf(Afterwards(), Strict), v, w);
  }

  lemma BelowIsEligible(listed: seq<View>, rows: seq<View>)
    ensures Eligible(rows, 10) == Below(rows, ByEligible, 10) && Eligible(listed, 10) == Below(listed, ByEligible, 10)
  {}

  lemma Growth()
    ensures Sound(AtRace()) && Sound(Afterwards()) && Grows(AtRace(), Afterwards(), Strict, 10)
  {
    BeforeChains();
    AfterChains();
    hide C.Chain, C.Resolvable;
    IdsDiffer();
    NotEarly();
    hide C.UniqueIds, C.Agreeing, Early, Trackwork;
    GrowsNothing(AtRace(), Strict, 10);
    assert Afterwards()[..2] == AtRace();
  }

  lemma IdsDiffer()
    ensures C.Agreeing(Events(AtRace())) && C.Agreeing(Events(Afterwards()))
    ensures forall i, j :: 0 <= i < j < 3 ==> Afterwards()[i].rank != Afterwards()[j].rank
  {
    IdsUnique(Events(AtRace()));
    IdsUnique(Events(Afterwards()));
    hide C.UniqueIds, C.Agreeing;
    C.UniqueAgree(Events(AtRace()));
    C.UniqueAgree(Events(Afterwards()));
  }

  lemma IdsUnique(events: seq<C.Event>)
    requires |events| <= 3 && (|events| > 0 ==> events[0].id == "q") && (|events| > 1 ==> events[1].id == "e")
    requires |events| > 2 ==> events[2].id == "p"
    ensures C.UniqueIds(events)
  {
    assert "p"[0] == 'p' && "q"[0] == 'q' && "e"[0] == 'e';
  }

  lemma NotEarly()
    ensures !Early(Afterwards()[2], Strict, 10)
  {}

  lemma DaysDiffer(views: Views, views': Views, v: View, w: View)
    requires AsOf(Rows(views, "h", "trackwork"), 10) == [v] && AsOf(Rows(views', "h", "trackwork"), 10) == [w]
    requires v.occurred == 0 && w.occurred == 1
    ensures RunnerFeatures(views, map[], "h", 10) != RunnerFeatures(views', map[], "h", 10)
  {
    hide AsOf, Windows, Rows;
    FirstFamily(views, v);
    FirstFamily(views', w);
    hide RunnerFeatures;
    assert Days(10) != Days(9);
  }

  lemma FirstFamily(views: Views, v: View)
    requires AsOf(Rows(views, "h", "trackwork"), 10) == [v]
    ensures var families := RunnerFeatures(views, map[], "h", 10).families;
            |families| > 0 && families[0].daysSince == Some(Days(10 - v.occurred))
  {
    hide AsOf, Windows, Rows, ConditionOpen, Movement, FamilyList;
    assert FAMILIES[0].0 == "trackwork" && FAMILIES[0..] == FAMILIES;
    FamilyListStep(views, map[], "h", FAMILIES, 0, 10);
  }
}
