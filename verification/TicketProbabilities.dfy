/** Ticket probabilities read off joint scenarios agree with the pool kernel (ima/betting_ev.py). */
module TicketProbabilities {
  import opened Sums
  import opened Enumerations
  import opened PoolKernel
  import opened PoolProbabilities
  import opened Settlement
  import opened JointScenarios

  function RequiredDepthOf(t: Ticket, rules: Rules): nat {
    if t.pool.Place? then rules.paidPlaces else if t.pool.Qpl? then rules.qplPlaces else t.pool.Count()
  }

  function RequiredDepth(tickets: seq<Ticket>, rules: Rules): nat {
    if tickets == [] then 0
    else
      var rest := RequiredDepth(tickets[1..], rules);
      var first := RequiredDepthOf(tickets[0], rules);
      if first >= rest then first else rest
  }

  predicate Unscratched(t: Ticket, f: Finish) {
    !f.abandoned && forall r :: r in t.runners ==> r !in f.scratches
  }

  predicate Known(t: Ticket, s: Scenarios) {
    forall r :: r in t.runners ==>
      r in s.runnerIds || exists f :: f in s.finishes && (r in Flatten(f.groups) || r in f.scratches)
  }

  function WinningMass(finishes: seq<Finish>, probabilities: seq<real>, t: Ticket, rules: Rules): real
    requires |finishes| == |probabilities|
  {
    if finishes == [] then 0.0
    else (if Wins(t, finishes[0], rules) then probabilities[0] else 0.0)
         + WinningMass(finishes[1..], probabilities[1..], t, rules)
  }

  function AtMostOne(p: real): real {
    if p < 1.0 then p else 1.0
  }

  /** `ticket_probabilities`, with its three refusals. */
  function TicketProbability(tickets: seq<Ticket>, s: Scenarios, rules: Rules): Result<seq<real>>
    requires |s.finishes| == |s.probabilities|
  {
    if tickets == [] then Ok([])
    else if exists t :: t in tickets && t.race != tickets[0].race then Err(SeveralRaces)
    else if exists f, t :: f in s.finishes && t in tickets && Unscratched(t, f)
                           && |Flatten(f.groups)| < RequiredDepthOf(t, rules) then Err(PrefixesTooShort)
    else if exists t :: t in tickets && !Known(t, s) && exists f :: f in s.finishes && Unscratched(t, f)
    then Err(AbsentRunners)
    else Ok(seq(|tickets|, k requires 0 <= k < |tickets| =>
              AtMostOne(WinningMass(s.finishes, s.probabilities, tickets[k], rules))))
  }

  /** The pool kernel's probability of the same ticket, by runner index. */
  function KernelProbability(fd: Field, pool: Pool, idx: seq<nat>, rules: Rules): real
    requires |idx| == pool.Count()
  {
    match pool
    case Place => PlaceProbability(fd, idx[0], rules.paidPlaces)
    case Qpl => QplProbability(fd, idx[0], idx[1], rules.qplPlaces)
    case Qin | Tri | First4 => UnorderedProbability(fd, idx)
    case Win | Forecast | Tierce | Quartet => Ordered(fd)(idx)
  }

  predicate Bettable(t: Ticket, ids: seq<Runner>) {
    t.Valid() && forall r :: r in t.runners ==> r in ids
  }

  /** The kernel's price of a ticket on named runners. */
  function KernelOf(ids: seq<Runner>, strengths: seq<real>, t: Ticket, rules: Rules): real
    requires Bettable(t, ids)
  {
    KernelProbability(UnitField(strengths), t.pool, Indices(ids, t.runners), rules)
  }

  function PoolEvent(pool: Pool, idx: seq<nat>): seq<nat> -> real
    requires |idx| == pool.Count()
  {
    match pool
    case Place => Holds(idx[0])
    case Qpl => HoldsBoth(idx[0], idx[1])
    case Qin | Tri | First4 => Fills(idx)
    case Win | Forecast | Tierce | Quartet => Exactly(idx)
  }

  predicate ValidRules(rules: Rules) {
    1 <= rules.paidPlaces <= 3 && 2 <= rules.qplPlaces <= 3
  }

  function Indices(ids: seq<Runner>, runners: seq<Runner>): (idx: seq<nat>)
    requires forall r :: r in runners ==> r in ids
    ensures |idx| == |runners| && (forall k :: 0 <= k < |idx| ==> idx[k] < |ids| && ids[idx[k]] == runners[k])
  {
    seq(|runners|, k requires 0 <= k < |runners| => assert runners[k] in runners; Index(ids, runners[k]))
  }

  // ---- each kernel formula is the chance of its event ----

  lemma KernelIsChance(fd: Field, pool: Pool, idx: seq<nat>, rules: Rules)
    requires fd.Valid() && ValidRules(rules)
    requires |idx| == pool.Count() && Distinct(idx) && forall x: nat :: x in idx ==> x < fd.Size()
    requires pool.Place? ==> rules.paidPlaces <= fd.Live(Range(fd.Size()))
    ensures var depth := RequiredDepthOf(Ticket("", pool, []), rules);
            KernelProbability(fd, pool, idx, rules) == Chance(fd, depth, PoolEvent(pool, idx))
  {
    RangeFacts(fd.Size());
    assert idx[0] in idx;
    match pool
    case Place => PlaceIsChance(fd, idx[0], rules.paidPlaces);
    case Qpl =>
      assert idx[1] in idx;
      QplIsChance(fd, idx[0], idx[1], rules.qplPlaces);
    case Qin | Tri | First4 => UnorderedIsChance(fd, idx);
    case Win | Forecast | Tierce | Quartet => OrderedIsChance(fd, idx);
  }

  // ---- settling a strict order of runners reads the same event ----

  lemma NamesFacts(ids: seq<Runner>, o: seq<nat>)
    requires Distinct(ids) && Distinct(o) && forall x: nat :: x in o ==> x < |ids|
    ensures Distinct(Names(ids, o))
    ensures forall x: nat :: x < |ids| ==> (ids[x] in Names(ids, o) <==> x in o)
  {
    var names := Names(ids, o);
    forall i, j | 0 <= i < j < |o| ensures names[i] != names[j] {
      assert o[i] in o && o[j] in o;
    }
    forall x: nat | x < |ids| ensures ids[x] in names <==> x in o {
      if x in o {
        var i :| 0 <= i < |o| && o[i] == x;
        assert names[i] == ids[x];
      }
      if ids[x] in names {
        var i :| 0 <= i < |o| && names[i] == ids[x];
        assert o[i] in o && o[i] == x;
      }
    }
  }

  lemma NamesPrefix(ids: seq<Runner>, o: seq<nat>, k: nat)
    requires k <= |o| && forall x: nat :: x in o ==> x < |ids|
    ensures (forall x: nat :: x in o[..k] ==> x < |ids|) && Names(ids, o)[..k] == Names(ids, o[..k])
  {
    assert forall x: nat :: x in o[..k] ==> x in o;
  }

  /** Named orders contain each other exactly when the index orders do. */
  lemma NamesWithin(ids: seq<Runner>, a: seq<nat>, b: seq<nat>)
    requires Distinct(ids) && Distinct(a) && Distinct(b)
    requires (forall x: nat :: x in a ==> x < |ids|) && (forall x: nat :: x in b ==> x < |ids|)
    ensures Within(Names(ids, a), Names(ids, b)) <==> Within(a, b)
  {
    NamesFacts(ids, a);
    NamesFacts(ids, b);
    if Within(a, b) {
      forall r | r in Names(ids, a) ensures r in Names(ids, b) {
        var i :| 0 <= i < |a| && Names(ids, a)[i] == r;
        assert a[i] in a;
      }
    }
    if Within(Names(ids, a), Names(ids, b)) {
      forall x | x in a ensures x in b {
        assert ids[x] in Names(ids, a);
      }
    }
  }

  ghost predicate Names?(ids: seq<Runner>, runners: seq<Runner>, idx: seq<nat>) {
    && |idx| == |runners|
    && (forall x: nat :: x in idx ==> x < |ids|)
    && runners == Names(ids, idx)
  }

  lemma OrderedEvent(ids: seq<Runner>, o: seq<nat>, runners: seq<Runner>, idx: seq<nat>)
    requires Distinct(ids) && Distinct(o) && (forall x: nat :: x in o ==> x < |ids|) && Names?(ids, runners, idx)
    requires |idx| <= |o|
    ensures runners <= Names(ids, o) <==> Prefix(o, |idx|) == idx
  {
    var k := |idx|;
    if runners <= Names(ids, o) {
      forall i | 0 <= i < k ensures o[i] == idx[i] {
        assert o[i] in o && idx[i] in idx;
        assert Names(ids, o)[i] == runners[i];
      }
      assert o[..k] == idx;
    }
    if Prefix(o, k) == idx {
      NamesPrefix(ids, o, k);
    }
  }

  lemma UnorderedEvent(ids: seq<Runner>, o: seq<nat>, runners: seq<Runner>, idx: seq<nat>)
    requires Distinct(ids) && Distinct(o) && (forall x: nat :: x in o ==> x < |ids|) && Names?(ids, runners, idx)
    requires |idx| <= |o| && Distinct(idx)
    ensures TopSet(runners, Names(ids, o)) <==> SameSet(Prefix(o, |idx|), idx)
  {
    var head := o[..|idx|];
    NamesPrefix(ids, o, |idx|);
    NamesWithin(ids, head, idx);
    NamesWithin(ids, idx, head);
  }

  lemma PaidEvent(ids: seq<Runner>, o: seq<nat>, x: nat, count: nat)
    requires Distinct(ids) && Distinct(o) && (forall y: nat :: y in o ==> y < |ids|) && x < |ids| && count <= |o|
    ensures AmongFirst(ids[x], Names(ids, o), count) <==> x in Prefix(o, count)
  {
    if AmongFirst(ids[x], Names(ids, o), count) {
      var i :| 0 <= i < count && i < |o| && Names(ids, o)[i] == ids[x];
      assert o[i] in o && o[i] == x && o[..count][i] == x;
    }
    if x in Prefix(o, count) {
      var i :| 0 <= i < count && o[..count][i] == x;
      assert Names(ids, o)[i] == ids[x];
    }
  }

  /** Settlement of an enumerated order depends only on the first `RequiredDepthOf` places. */
  lemma SettledEvent(ids: seq<Runner>, o: seq<nat>, t: Ticket, idx: seq<nat>, rules: Rules)
    requires Distinct(ids) && t.Valid() && Names?(ids, t.runners, idx) && Distinct(idx)
    requires Distinct(o) && (forall x: nat :: x in o ==> x < |ids|) && RequiredDepthOf(t, rules) <= |o|
    ensures Ind(Wins(t, StrictFinish(ids, o), rules)) == PoolEvent(t.pool, idx)(Prefix(o, RequiredDepthOf(t, rules)))
  {
    hide Wins, Fills, Holds, HoldsBoth, Exactly;
    NamesFacts(ids, o);
    StrictMeaning(t, Names(ids, o), rules);
    if t.pool.Paid() {
      PaidTicketEvent(ids, o, t, idx, rules);
    } else if t.pool.Unordered() {
      UnorderedEvent(ids, o, t.runners, idx);
      EventReadings(t.pool, idx, Prefix(o, RequiredDepthOf(t, rules)));
    } else {
      OrderedEvent(ids, o, t.runners, idx);
      EventReadings(t.pool, idx, Prefix(o, RequiredDepthOf(t, rules)));
    }
  }

  lemma EventReadings(pool: Pool, idx: seq<nat>, o: seq<nat>)
    requires |idx| == pool.Count()
    ensures !pool.Paid() && pool.Unordered() ==> PoolEvent(pool, idx)(o) == Ind(SameSet(o, idx))
    ensures !pool.Paid() && !pool.Unordered() ==> PoolEvent(pool, idx)(o) == Ind(o == idx)
    ensures pool.Paid() ==> PoolEvent(pool, idx)(o) == Ind(forall x: nat :: x in idx ==> x in o)
  {
    if pool.Paid() {
      assert idx == if pool.Place? then [idx[0]] else [idx[0], idx[1]];
      assert idx[0] in idx;
      if pool.Qpl? { assert idx[1] in idx; }
    }
  }

  lemma PaidTicketEvent(ids: seq<Runner>, o: seq<nat>, t: Ticket, idx: seq<nat>, rules: Rules)
    requires Distinct(ids) && t.Valid() && Names?(ids, t.runners, idx) && Distinct(idx) && t.pool.Paid()
    requires Distinct(o) && (forall x: nat :: x in o ==> x < |ids|) && RequiredDepthOf(t, rules) <= |o|
    ensures Ind(forall r :: r in t.runners ==> AmongFirst(r, Names(ids, o), PaidCount(t.pool, rules)))
         == PoolEvent(t.pool, idx)(Prefix(o, RequiredDepthOf(t, rules)))
  {
    hide Fills, Holds, HoldsBoth, Exactly, AmongFirst;
    var count := RequiredDepthOf(t, rules);
    EventReadings(t.pool, idx, Prefix(o, count));
    forall x: nat | x < |ids| ensures AmongFirst(ids[x], Names(ids, o), count) <==> x in Prefix(o, count) {
      PaidEvent(ids, o, x, count);
    }
    if forall r :: r in t.runners ==> AmongFirst(r, Names(ids, o), count) {
      forall x: nat | x in idx ensures x in Prefix(o, count) {
        var i :| 0 <= i < |idx| && idx[i] == x;
        assert t.runners[i] == ids[x] && t.runners[i] in t.runners;
      }
    }
    if forall x: nat :: x in idx ==> x in Prefix(o, count) {
      forall r | r in t.runners ensures AmongFirst(r, Names(ids, o), count) {
        var i :| 0 <= i < |idx| && t.runners[i] == r;
        assert idx[i] in idx && r == ids[idx[i]];
      }
    }
  }

  // ---- the main result ----

  function SettledBy(ids: seq<Runner>, t: Ticket, rules: Rules): seq<nat> -> real {
    (o: seq<nat>) => Ind((forall x: nat :: x in o ==> x < |ids|) && Wins(t, StrictFinish(ids, o), rules))
  }

  function MassTerm(fd: Field, event: seq<nat> -> real): seq<nat> -> real {
    (o: seq<nat>) => Ordered(fd)(o) * event(o)
  }

  lemma {:induction false} WinningMassIsSum(finishes: seq<Finish>, mass: seq<real>, ids: seq<Runner>, strengths: seq<real>,
                                            orders: seq<seq<nat>>, t: Ticket, rules: Rules)
    requires Describes'(finishes, mass, ids, strengths, orders)
    ensures WinningMass(finishes, mass, t, rules) == Sum(orders, MassTerm(UnitField(strengths), SettledBy(ids, t, rules)))
  {
    hide Wins, Ordered;
    if orders != [] {
      forall k | 0 <= k < |orders[1..]|
        ensures (forall x: nat :: x in orders[1..][k] ==> x < |ids|)
             && finishes[1..][k] == StrictFinish(ids, orders[1..][k])
             && mass[1..][k] == Ordered(UnitField(strengths))(orders[1..][k])
      {
        assert orders[1..][k] == orders[k+1];
      }
      WinningMassIsSum(finishes[1..], mass[1..], ids, strengths, orders[1..], t, rules);
    }
  }

  /** One ticket: the settled mass of the scenarios is the kernel probability, at any sufficient depth. */
  lemma SettledMassIsKernel(ids: seq<Runner>, strengths: seq<real>, depth: nat, maxOrders: nat, s: Scenarios,
                            t: Ticket, rules: Rules)
    requires Rejection(ids, strengths, depth, maxOrders).Ok? && Describes(s, ids, strengths, depth)
    requires Bettable(t, ids) && ValidRules(rules) && RequiredDepthOf(t, rules) <= depth
    ensures WinningMass(s.finishes, s.probabilities, t, rules) == KernelOf(ids, strengths, t, rules)
  {
    hide Sum, Wins, Expect, KeepPositive, Permutations, KernelProbability, Ordered;
    var fd, n, idx, d := UnitField(strengths), |strengths|, Indices(ids, t.runners), RequiredDepthOf(t, rules);
    var event := SettledBy(ids, t, rules);
    WinningMassIsSum(s.finishes, s.probabilities, ids, strengths, ExpectedOrders(strengths, depth), t, rules);
    KeptChance(strengths, depth, event, MassTerm(fd, event));
    var deep := (o: seq<nat>) => PoolEvent(t.pool, idx)(Prefix(o, d));
    RangeFacts(n);
    forall o: seq<nat> | IsOrder(Range(n), depth, o) ensures event(o) == deep(o) {
      SettledEvent(ids, o, t, idx, rules);
    }
    ExpectCongruent(fd, 0, Range(n), depth, event, deep);
    DepthIndependent(fd, 0, Range(n), d, depth, PoolEvent(t.pool, idx), deep);
    KernelIsChance(fd, t.pool, idx, rules);
  }

  lemma {:induction false} RequiredDepthBound(tickets: seq<Ticket>, rules: Rules, t: Ticket)
    requires t in tickets
    ensures RequiredDepthOf(t, rules) <= RequiredDepth(tickets, rules)
  {
    if tickets[0] != t {
      RequiredDepthBound(tickets[1..], rules, t);
    }
  }

  /** Main result: settling the enumerated orders prices every ticket exactly as the pool kernel does.
      Neither the depth nor the scale of the strengths appears on the right-hand side. */
  lemma ScenariosAgreeWithKernel(ids: seq<Runner>, strengths: seq<real>, depth: nat, maxOrders: nat, s: Scenarios,
                                 tickets: seq<Ticket>, rules: Rules)
    requires Rejection(ids, strengths, depth, maxOrders).Ok? && Describes(s, ids, strengths, depth)
    requires ValidRules(rules) && RequiredDepth(tickets, rules) <= depth
    requires forall k :: 0 <= k < |tickets| ==> Bettable(tickets[k], ids) && tickets[k].race == tickets[0].race
    ensures var r := TicketProbability(tickets, s, rules);
            r.Ok? && |r.value| == |tickets|
            && forall k :: 0 <= k < |tickets| ==>
                 r.value[k] == KernelOf(ids, strengths, tickets[k], rules)
  {
    hide Wins, KernelProbability, WinningMass, Ordered, ExpectedOrders;
    forall f, t | f in s.finishes && t in tickets
      ensures |Flatten(f.groups)| >= RequiredDepthOf(t, rules)
    {
      RequiredDepthBound(tickets, rules, t);
      FinishLength(ids, strengths, depth, s, f);
    }
    forall t | t in tickets
      ensures AtMostOne(WinningMass(s.finishes, s.probabilities, t, rules))
           == KernelOf(ids, strengths, t, rules)
    {
      RequiredDepthBound(tickets, rules, t);
      SettledMassIsKernel(ids, strengths, depth, maxOrders, s, t, rules);
      MassAtMostTotal(s.finishes, s.probabilities, t, rules, ids, strengths, depth, maxOrders, s);
    }
  }

  lemma FinishLength(ids: seq<Runner>, strengths: seq<real>, depth: nat, s: Scenarios, f: Finish)
    requires |ids| == |strengths| && Describes(s, ids, strengths, depth) && f in s.finishes
    ensures |Flatten(f.groups)| == depth
  {
    hide Permutations, KeepPositive, Ordered;
    var orders := ExpectedOrders(strengths, depth);
    var k :| 0 <= k < |s.finishes| && s.finishes[k] == f;
    SlotsOfSingletons(Names(ids, orders[k]));
    KeptMembers(strengths, Permutations(Range(|strengths|), depth), orders[k]);
    RangeFacts(|strengths|);
    PermutationsAreOrders(Range(|strengths|), depth, orders[k]);
  }

  lemma {:induction false} MassBounded(finishes: seq<Finish>, probabilities: seq<real>, t: Ticket, rules: Rules)
    requires |finishes| == |probabilities| && forall k :: 0 <= k < |probabilities| ==> probabilities[k] >= 0.0
    ensures WinningMass(finishes, probabilities, t, rules) <= Total(probabilities)
  {
    if finishes != [] {
      forall k | 0 <= k < |probabilities[1..]| ensures probabilities[1..][k] >= 0.0 {
        assert probabilities[1..][k] == probabilities[k+1];
      }
      MassBounded(finishes[1..], probabilities[1..], t, rules);
    }
  }

  /** The cap at one is never reached from above. */
  lemma MassAtMostTotal(finishes: seq<Finish>, probabilities: seq<real>, t: Ticket, rules: Rules,
                        ids: seq<Runner>, strengths: seq<real>, depth: nat, maxOrders: nat, s: Scenarios)
    requires Rejection(ids, strengths, depth, maxOrders).Ok? && Describes(s, ids, strengths, depth)
    requires finishes == s.finishes && probabilities == s.probabilities
    ensures WinningMass(finishes, probabilities, t, rules) <= 1.0
  {
    hide Sum, KeepPositive;
    DescribedMass(s, ids, strengths, depth);
    MassBounded(finishes, probabilities, t, rules);
  }

  /** Rescaled strengths describe the same probabilities. */
  lemma RescaledScenarios(ids: seq<Runner>, strengths: seq<real>, c: real, depth: nat, s: Scenarios)
    requires c > 0.0 && |ids| == |strengths|
    ensures Describes(s, ids, Scaled(strengths, c), depth) <==> Describes(s, ids, strengths, depth)
  {
    hide Permutations, OrderProbability;
    var orders := Permutations(Range(|strengths|), depth);
    KeptScaled(strengths, c, orders);
    forall o: seq<nat> ensures Ordered(UnitField(Scaled(strengths, c)))(o) == Ordered(UnitField(strengths))(o) {
      ScaleInvariant(strengths, c, 0, Range(|strengths|), o);
    }
  }

  lemma {:induction false} KeptScaled(strengths: seq<real>, c: real, orders: seq<seq<nat>>)
    requires c > 0.0
    ensures KeepPositive(Scaled(strengths, c), orders) == KeepPositive(strengths, orders)
  {
    if orders != [] {
      PositiveScaled(strengths, c, orders[0]);
      KeptScaled(strengths, c, orders[1..]);
    }
  }

  lemma RejectionScaled(ids: seq<Runner>, strengths: seq<real>, c: real, depth: nat, maxOrders: nat)
    requires c > 0.0
    ensures Rejection(ids, Scaled(strengths, c), depth, maxOrders) == Rejection(ids, strengths, depth, maxOrders)
  {
    hide Perm;
    RangeFacts(|strengths|);
    ScaledLive(strengths, c, Range(|strengths|));
    forall i | 0 <= i < |strengths|
      ensures (Scaled(strengths, c)[i] < 0.0 <==> strengths[i] < 0.0) && (Scaled(strengths, c)[i] <= 0.0 <==> strengths[i] <= 0.0) {}
  }

  /** Two enumerations of the same race, to different sufficient depths and from differently scaled strengths,
      price every ticket alike. */
  lemma DepthAndScaleIrrelevant(ids: seq<Runner>, strengths: seq<real>, c: real, depth: nat, other: nat, maxOrders: nat,
                                s: Scenarios, s': Scenarios, tickets: seq<Ticket>, rules: Rules)
    requires c > 0.0
    requires Rejection(ids, strengths, depth, maxOrders).Ok? && Describes(s, ids, strengths, depth)
    requires Rejection(ids, Scaled(strengths, c), other, maxOrders).Ok? && Describes(s', ids, Scaled(strengths, c), other)
    requires ValidRules(rules) && RequiredDepth(tickets, rules) <= depth && RequiredDepth(tickets, rules) <= other
    requires forall k :: 0 <= k < |tickets| ==> Bettable(tickets[k], ids) && tickets[k].race == tickets[0].race
    ensures TicketProbability(tickets, s, rules).Ok? && TicketProbability(tickets, s', rules) == TicketProbability(tickets, s, rules)
  {
    hide KernelOf, TicketProbability, Rejection, Ordered, ExpectedOrders;
    RejectionScaled(ids, strengths, c, other, maxOrders);
    assert |ids| == |strengths| by { AcceptedSizes(ids, strengths, depth, maxOrders); }
    RescaledScenarios(ids, strengths, c, other, s');
    ScenariosAgreeWithKernel(ids, strengths, depth, maxOrders, s, tickets, rules);
    ScenariosAgreeWithKernel(ids, strengths, other, maxOrders, s', tickets, rules);
    assert TicketProbability(tickets, s, rules).value == TicketProbability(tickets, s', rules).value;
  }

  lemma AcceptedSizes(ids: seq<Runner>, strengths: seq<real>, depth: nat, maxOrders: nat)
    requires Rejection(ids, strengths, depth, maxOrders).Ok?
    ensures |ids| == |strengths|
  {}
}
