/** When pricing refuses, and what one ticket returns in one outcome (ima/betting_ev.py, ima/betting_settlement.py). */
module PricingMeanings {
  import opened Sums
  import opened Enumerations
  import opened PoolKernel
  import opened PoolProbabilities
  import opened Settlement
  import opened JointScenarios
  import opened TicketProbabilities
  import opened PortfolioReturns

  // ---- conditional-choice scenarios ----

  /** The falling factorial counts the orders to enumerate. */
  lemma {:induction false} OrdersCounted(pool: seq<nat>, r: nat)
    requires Distinct(pool)
    ensures |Permutations(pool, r)| == Perm(|pool|, r)
    decreases r, |pool| + 1
  {
    hide Distinct;
    if r > 0 {
      OrdersFrom(pool, pool, r, if pool == [] then 0 else Perm(|pool| - 1, r - 1));
    }
  }

  lemma {:induction false} OrdersFrom(heads: seq<nat>, pool: seq<nat>, r: nat, each: nat)
    requires Distinct(pool) && r > 0 && (forall h :: h in heads ==> h in pool) && (pool != [] ==> each == Perm(|pool| - 1, r - 1))
    ensures |PermutationsFrom(heads, pool, r)| == |heads| * each
    decreases r, |heads|
  {
    hide Permutations, PermutationsFrom, Perm, Distinct, Remove;
    if heads == [] {
      NoHeads(heads, pool, r);
    } else {
      assert heads[0] in pool;
      RemoveMembers(pool, heads[0]);
      OrdersCounted(Remove(pool, heads[0]), r - 1);
      OrdersFrom(heads[1..], pool, r, each);
      FromHead(heads, pool, r);
      OneMore(|heads| - 1, each);
    }
  }

  lemma NoHeads(heads: seq<nat>, pool: seq<nat>, r: nat)
    requires heads == [] && r > 0
    ensures |PermutationsFrom(heads, pool, r)| == 0
  {}

  lemma FromHead(heads: seq<nat>, pool: seq<nat>, r: nat)
    requires heads != [] && r > 0
    ensures |PermutationsFrom(heads, pool, r)| == |Permutations(Remove(pool, heads[0]), r - 1)| + |PermutationsFrom(heads[1..], pool, r)|
  {
    hide Permutations, Remove;
  }

  lemma OneMore(n: nat, x: nat)
    ensures x + n * x == (n + 1) * x
  {}

  /** Distinctly named runners with nonnegative strengths, not all zero. */
  ghost predicate SoundField(ids: seq<Runner>, strengths: seq<real>) {
    && |ids| == |strengths| && (forall i, j :: 0 <= i < j < |ids| ==> ids[i] != ids[j])
    && (forall i :: 0 <= i < |strengths| ==> strengths[i] >= 0.0)
    && exists i :: 0 <= i < |strengths| && strengths[i] > 0.0
  }

  ghost function Strong(strengths: seq<real>, from: nat): set<nat> {
    set i: nat | from <= i < |strengths| && strengths[i] > 0.0
  }

  lemma {:induction false} NonZeroFrom(strengths: seq<real>, from: nat)
    requires from <= |strengths|
    ensures UnitField(strengths).Live(Range(|strengths|)[from..]) == |Strong(strengths, from)|
    decreases |strengths| - from
  {
    var runners := Range(|strengths|)[from..];
    if from < |strengths| {
      NonZeroFrom(strengths, from + 1);
      assert runners[0] == from && runners[1..] == Range(|strengths|)[from + 1..];
      assert Strong(strengths, from) == Strong(strengths, from + 1) + if strengths[from] > 0.0 then {from} else {};
    } else {
      assert Strong(strengths, from) == {};
    }
  }

  /** Scenarios are refused for an unsound field, else for a depth that is no number of places or whose orders are too
      many, else for fewer strong runners than places. */
  lemma RejectionExactly(ids: seq<Runner>, strengths: seq<real>, depth: nat, maxOrders: nat)
    ensures var depthOk := 1 <= depth <= |ids| && |Permutations(Range(|ids|), depth)| <= maxOrders;
            Rejection(ids, strengths, depth, maxOrders) ==
              if !SoundField(ids, strengths) then Err(InvalidStrengths)
              else if !depthOk then Err(InvalidDepth)
              else if |Strong(strengths, 0)| < depth then Err(UnidentifiedRanks)
              else Ok(())
  {
    hide Perm, Permutations, Range;
    RangeFacts(|ids|);
    OrdersCounted(Range(|ids|), depth);
    NonZeroFrom(strengths, 0);
    assert Range(|strengths|)[0..] == Range(|strengths|);
    SoundExactly(ids, strengths);
    hide Distinct, SoundField, Strong;
  }

  lemma SoundExactly(ids: seq<Runner>, strengths: seq<real>)
    ensures SoundField(ids, strengths) <==>
      !(|ids| != |strengths| || !Distinct(ids) || ids == []
        || (exists i :: 0 <= i < |strengths| && strengths[i] < 0.0)
        || (forall i :: 0 <= i < |strengths| ==> strengths[i] <= 0.0))
  {}

  lemma {:induction false} KeptExactly(strengths: seq<real>, orders: seq<seq<nat>>, o: seq<nat>)
    ensures o in KeepPositive(strengths, orders) <==>
              o in orders && forall i :: 0 <= i < |o| ==> o[i] < |strengths| && strengths[o[i]] > 0.0
  {
    if orders != [] {
      KeptExactly(strengths, orders[1..], o);
      PositiveExactly(strengths, o);
      hide AllPositive;
      assert orders == [orders[0]] + orders[1..];
    }
  }

  lemma PositiveExactly(strengths: seq<real>, o: seq<nat>)
    ensures AllPositive(strengths, o) <==> forall i :: 0 <= i < |o| ==> o[i] < |strengths| && strengths[o[i]] > 0.0
  {
    if AllPositive(strengths, o) {
      forall i | 0 <= i < |o| ensures o[i] < |strengths| && strengths[o[i]] > 0.0 { assert o[i] in o; }
    }
    if forall i :: 0 <= i < |o| ==> o[i] < |strengths| && strengths[o[i]] > 0.0 {
      forall x: nat | x in o ensures x < |strengths| && strengths[x] > 0.0 { var i :| 0 <= i < |o| && o[i] == x; }
    }
  }

  /** One scenario for every way to fill the places with different runners of positive strength. */
  lemma ScenarioOrders(strengths: seq<real>, depth: nat, o: seq<nat>)
    ensures o in ExpectedOrders(strengths, depth) <==>
      && |o| == depth && (forall i, j :: 0 <= i < j < |o| ==> o[i] != o[j])
      && forall i :: 0 <= i < |o| ==> o[i] < |strengths| && strengths[o[i]] > 0.0
  {
    hide KeepPositive, Permutations;
    RangeFacts(|strengths|);
    PermutationsAreOrders(Range(|strengths|), depth, o);
    KeptExactly(strengths, Permutations(Range(|strengths|), depth), o);
    hide Range;
    if forall i :: 0 <= i < |o| ==> o[i] < |strengths| {
      forall x | x in o ensures x in Range(|strengths|) { var i :| 0 <= i < |o| && o[i] == x; }
    }
    if Within(o, Range(|strengths|)) {
      forall i | 0 <= i < |o| ensures o[i] < |strengths| { assert o[i] in o; }
    }
  }

  // ---- ticket probabilities ----

  /** No scratched runner on the ticket, and the race was run. */
  ghost predicate Ran(t: Ticket, f: Finish) {
    f.abandoned == false && forall i, j :: 0 <= i < |t.runners| && 0 <= j < |f.scratches| ==> t.runners[i] != f.scratches[j]
  }

  lemma RanExactly(t: Ticket, f: Finish)
    ensures Unscratched(t, f) <==> Ran(t, f)
  {
    if Ran(t, f) {
      forall r | r in t.runners ensures r !in f.scratches { var i :| 0 <= i < |t.runners| && t.runners[i] == r; }
    }
    if Unscratched(t, f) {
      forall i, j | 0 <= i < |t.runners| && 0 <= j < |f.scratches| ensures t.runners[i] != f.scratches[j] {
        assert t.runners[i] in t.runners && f.scratches[j] in f.scratches;
      }
    }
  }

  /** Every runner of the ticket is named with the scenarios, finishes in one or is scratched in one. */
  ghost predicate Named(t: Ticket, s: Scenarios) {
    forall i :: 0 <= i < |t.runners| ==>
      || t.runners[i] in s.runnerIds
      || (exists k :: 0 <= k < |s.finishes| && t.runners[i] in Flatten(s.finishes[k].groups))
      || (exists k :: 0 <= k < |s.finishes| && t.runners[i] in s.finishes[k].scratches)
  }

  lemma NamedExactly(t: Ticket, s: Scenarios)
    ensures Known(t, s) <==> Named(t, s)
  {
    hide Flatten;
    if Named(t, s) {
      forall r | r in t.runners
        ensures r in s.runnerIds || exists f :: f in s.finishes && (r in Flatten(f.groups) || r in f.scratches)
      {
        var i :| 0 <= i < |t.runners| && t.runners[i] == r;
        if k :| 0 <= k < |s.finishes| && (r in Flatten(s.finishes[k].groups) || r in s.finishes[k].scratches) {
          assert s.finishes[k] in s.finishes;
        }
      }
    }
    if Known(t, s) {
      forall i | 0 <= i < |t.runners| && t.runners[i] !in s.runnerIds
        ensures exists k :: 0 <= k < |s.finishes| && (t.runners[i] in Flatten(s.finishes[k].groups) || t.runners[i] in s.finishes[k].scratches)
      {
        assert t.runners[i] in t.runners;
        var f :| f in s.finishes && (t.runners[i] in Flatten(f.groups) || t.runners[i] in f.scratches);
        var k :| 0 <= k < |s.finishes| && s.finishes[k] == f;
      }
    }
  }

  ghost predicate OneRace(tickets: seq<Ticket>) {
    forall i, j :: 0 <= i < |tickets| && 0 <= j < |tickets| ==> tickets[i].race == tickets[j].race
  }

  /** Where the ticket's runners all ran, the places its pool looks at are known. */
  ghost predicate LongEnough(tickets: seq<Ticket>, s: Scenarios, rules: Rules) {
    forall t, f :: t in tickets && f in s.finishes && Ran(t, f) ==>
      |Flatten(f.groups)| >= if t.pool.Place? then rules.paidPlaces else if t.pool.Qpl? then rules.qplPlaces else t.pool.Count()
  }

  ghost predicate AllNamed(tickets: seq<Ticket>, s: Scenarios) {
    forall t, f :: t in tickets && f in s.finishes && Ran(t, f) ==> Named(t, s)
  }

  /** Tickets are priced exactly when they are on one race, the prefixes are long enough and the runners are known. */
  lemma PricedExactly(tickets: seq<Ticket>, s: Scenarios, rules: Rules)
    requires |s.finishes| == |s.probabilities|
    ensures var r := TicketProbability(tickets, s, rules);
            && (tickets == [] ==> r == Ok([]))
            && (r == Err(SeveralRaces) <==> !OneRace(tickets))
            && (r == Err(PrefixesTooShort) <==> OneRace(tickets) && !LongEnough(tickets, s, rules))
            && (r == Err(AbsentRunners) <==> OneRace(tickets) && LongEnough(tickets, s, rules) && !AllNamed(tickets, s))
            && (r.Ok? <==> OneRace(tickets) && LongEnough(tickets, s, rules) && AllNamed(tickets, s))
  {
    hide Unscratched, Ran, Named, Known, WinningMass, Flatten, Pool.Count;
    forall t, f ensures Unscratched(t, f) <==> Ran(t, f) { RanExactly(t, f); }
    forall t ensures Known(t, s) <==> Named(t, s) { NamedExactly(t, s); }
    if tickets != [] {
      RacesExactly(tickets);
      hide OneRace;
      assert (exists f, t :: f in s.finishes && t in tickets && Unscratched(t, f) && |Flatten(f.groups)| < RequiredDepthOf(t, rules))
        <==> !LongEnough(tickets, s, rules);
      assert (exists t :: t in tickets && !Known(t, s) && exists f :: f in s.finishes && Unscratched(t, f)) <==> !AllNamed(tickets, s);
    }
  }

  lemma RacesExactly(tickets: seq<Ticket>)
    requires tickets != []
    ensures (exists t :: t in tickets && t.race != tickets[0].race) <==> !OneRace(tickets)
  {
    if t :| t in tickets && t.race != tickets[0].race {
      var i :| 0 <= i < |tickets| && tickets[i] == t;
    }
    if forall t :: t in tickets ==> t.race == tickets[0].race {
      forall i, j | 0 <= i < |tickets| && 0 <= j < |tickets| ensures tickets[i].race == tickets[j].race {
        assert tickets[i] in tickets && tickets[j] in tickets;
      }
    }
  }

  // ---- one ticket in one outcome ----

  /** The quote is for this ticket under these rules. */
  ghost predicate QuoteFor(q: Quote, t: Ticket, terms: Terms) {
    q.ticket == t && q.currency == terms.currency && q.ruleVersion == terms.version && q.unitStake > 0.0
  }

  /** So much is paid per unit staked. */
  ghost predicate Pays(q: Quote, multiple: real) {
    match q.convention
    case Dividend => multiple * q.unitStake == q.value
    case NetOdds => multiple - 1.0 == q.value
    case AsReturn => multiple == q.value
  }

  ghost predicate DeadHeat(f: Finish) {
    exists k :: 0 <= k < |f.groups| && |f.groups[k]| >= 2
  }

  lemma DeadHeatExactly(f: Finish)
    ensures Tied(f) <==> DeadHeat(f)
  {
    if Tied(f) {
      var g :| g in f.groups && |g| > 1;
      var k :| 0 <= k < |f.groups| && f.groups[k] == g;
    }
    if k :| 0 <= k < |f.groups| && |f.groups[k]| >= 2 { assert f.groups[k] in f.groups; }
  }

  lemma PaysExactly(q: Quote, multiple: real)
    requires q.unitStake > 0.0
    ensures q.DecimalReturn() == multiple <==> Pays(q, multiple)
  {
    if q.convention.Dividend? { DividesBack(q.value, q.unitStake, multiple); }
  }

  lemma DividesBack(x: real, c: real, y: real)
    requires c > 0.0
    ensures x / c == y <==> y * c == x
  {
    var q := x / c;
    assert q * c == x;
    if y * c == x { assert (q - y) * c == 0.0; assert q == y; }
  }

  /** What a matrix entry says: a refund where the rules verify one, nothing for a loser, a winner's own scenario dividend
      if one is supplied, and the quoted multiple otherwise unless there was a dead heat. */
  lemma EntryExactly(t: Ticket, f: Finish, terms: Terms, multiple: real, dividends: Option<Dividends>, x: real)
    ensures Entry(t, f, terms, multiple, dividends) == Some(x) <==>
              if !Ran(t, f) then terms.refunds && x == 1.0
              else if !Wins(t, f, terms.rules) then x == 0.0
              else if dividends.Some? && t in dividends.value then
                QuoteFor(dividends.value[t], t, terms) && dividends.value[t].status == Scenario && Pays(dividends.value[t], x)
              else !DeadHeat(f) && x == multiple
  {
    hide Wins, Unscratched, Ran, Tied, DeadHeat, Pays, Quote.DecimalReturn;
    RanExactly(t, f);
    DeadHeatExactly(f);
    if dividends.Some? && t in dividends.value && dividends.value[t].unitStake > 0.0 { PaysExactly(dividends.value[t], x); }
  }

  /** The checks before any entry: priced tickets, one nonnegative multiple a ticket, one dividend table a scenario, and
      no dead heat without tables. */
  lemma ComputableExactly(tickets: seq<Ticket>, s: Scenarios, terms: Terms, multiples: seq<real>, dividends: Option<seq<Dividends>>)
    requires |s.finishes| == |s.probabilities|
    ensures Computable(tickets, s, terms, multiples, dividends) <==>
      && OneRace(tickets) && LongEnough(tickets, s, terms.rules) && AllNamed(tickets, s)
      && |multiples| == |tickets| && (forall j :: 0 <= j < |multiples| ==> multiples[j] >= 0.0)
      && (match dividends
          case Some(tables) => |tables| == |s.finishes|
          case None => forall k :: 0 <= k < |s.finishes| ==> !DeadHeat(s.finishes[k]))
  {
    hide TicketProbability, OneRace, LongEnough, AllNamed, Tied, DeadHeat;
    PricedExactly(tickets, s, terms.rules);
    forall f ensures Tied(f) <==> DeadHeat(f) { DeadHeatExactly(f); }
  }

  ghost predicate PaidOut(q: Quote, stake: real, gross: real) {
    exists multiple :: Pays(q, multiple) && gross == stake * multiple
  }

  lemma GrossIsPaidOut(stake: real, q: Quote)
    requires q.unitStake > 0.0
    ensures PaidOut(q, stake, GrossReturn(stake, q))
  {
    hide Pays, Quote.DecimalReturn, GrossReturn;
    PaysExactly(q, q.DecimalReturn());
    GrossIsMultiple(stake, q);
  }

  /** What settlement pays: nothing at stake, the stake back where refunds are verified, nothing for a loser, and a winner
      by its own final dividend, quoted no earlier than the start of the race. It raises only for a late selection or
      wrong final evidence. */
  lemma SettledExactly(t: Ticket, stake: real, f: Finish, terms: Terms, dividends: Dividends, selectedAt: int, raceStart: int)
    requires stake >= 0.0
    ensures var r := SettleTicket(t, stake, f, terms, dividends, selectedAt, raceStart);
            var finalEvidence := t in dividends && QuoteFor(dividends[t], t, terms) && dividends[t].status == Final && dividends[t].quotedAt >= raceStart;
            var won := Ran(t, f) && Wins(t, f, terms.rules);
            && (r.Some? <==> selectedAt < raceStart && (stake > 0.0 && won && t in dividends ==> finalEvidence))
            && (r.Some? ==>
                  && (r.value.outcome == NoBet <==> stake == 0.0)
                  && (r.value.outcome == Refund <==> stake > 0.0 && !Ran(t, f) && terms.refunds)
                  && (r.value.outcome == UnsupportedRefund <==> stake > 0.0 && !Ran(t, f) && !terms.refunds)
                  && (r.value.outcome == Lost <==> stake > 0.0 && Ran(t, f) && !Wins(t, f, terms.rules))
                  && (r.value.outcome == Won <==> stake > 0.0 && won && finalEvidence)
                  && (r.value.gross.None? <==> r.value.outcome in {UnsupportedRefund, MissingDividend})
                  && (r.value.outcome in {NoBet, Lost} ==> r.value.gross == Some(0.0))
                  && (r.value.outcome == Refund ==> r.value.gross == Some(stake))
                  && (r.value.outcome == Won ==> r.value.gross.Some? && PaidOut(dividends[t], stake, r.value.gross.value)))
  {
    hide Wins, Unscratched, Ran, PaidOut, GrossReturn;
    RanExactly(t, f);
    if t in dividends && dividends[t].unitStake > 0.0 { GrossIsPaidOut(stake, dividends[t]); }
  }
}
