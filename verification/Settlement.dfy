/** Ticket settlement under ties, scratches and abandonment (ima/betting_settlement.py). */
module Settlement {
  import opened Sums
  import opened Enumerations

  type Runner = string

  datatype Pool = Win | Place | Qin | Qpl | Forecast | Tri | Tierce | First4 | Quartet {
    function Count(): nat {
      match this
      case Win | Place => 1
      case Qin | Qpl | Forecast => 2
      case Tri | Tierce => 3
      case First4 | Quartet => 4
    }

    predicate Unordered() {
      Qin? || Qpl? || Tri? || First4?
    }

    /** PLACE and QPL pay on membership of the paid slots. */
    predicate Paid() {
      Place? || Qpl?
    }
  }

  datatype Ticket = Ticket(race: string, pool: Pool, runners: seq<Runner>) {
    predicate Valid() {
      |runners| == pool.Count() && Distinct(runners)
    }
  }

  /** Tied groups occupy consecutive physical slots; nonfinishers are omitted. */
  datatype Finish = Finish(groups: seq<seq<Runner>>, scratches: seq<Runner>, abandoned: bool) {
    ghost predicate Valid() {
      && (forall g :: g in groups ==> g != [])
      && Distinct(Flatten(groups))
      && Distinct(scratches)
      && (forall r :: r in scratches ==> r !in Flatten(groups))
    }
  }

  datatype Rules = Rules(paidPlaces: nat, qplPlaces: nat)

  function Flatten(groups: seq<seq<Runner>>): seq<Runner> {
    if groups == [] then [] else groups[0] + Flatten(groups[1..])
  }

  /** Each tied group fills as many slots as it has members. */
  function Slots(groups: seq<seq<Runner>>): seq<seq<Runner>> {
    if groups == [] then [] else seq(|groups[0]|, _ => groups[0]) + Slots(groups[1..])
  }

  /** Runner by runner, the order sits in the slots. */
  predicate Fits(order: seq<Runner>, slots: seq<seq<Runner>>) {
    |order| <= |slots| && forall i :: 0 <= i < |order| ==> order[i] in slots[i]
  }

  function PaidCount(pool: Pool, rules: Rules): nat {
    if pool.Place? then rules.paidPlaces else rules.qplPlaces
  }

  predicate InTop(r: Runner, slots: seq<seq<Runner>>, count: nat) {
    exists i :: 0 <= i < count && i < |slots| && r in slots[i]
  }

  predicate Wins(ticket: Ticket, finish: Finish, rules: Rules) {
    var slots := Slots(finish.groups);
    && !finish.abandoned
    && (forall r :: r in ticket.runners ==> r !in finish.scratches)
    && (if ticket.pool.Paid() then
          forall r :: r in ticket.runners ==> InTop(r, slots, PaidCount(ticket.pool, rules))
        else if ticket.pool.Unordered() then
          exists order :: order in Permutations(ticket.runners, |ticket.runners|) && Fits(order, slots)
        else
          Fits(ticket.runners, slots))
  }

  /** `ticket_wins`: the slots are laid out in a loop, then each kind of pool reads them. */
  method TicketWins(ticket: Ticket, finish: Finish, rules: Rules) returns (wins: bool)
    requires ticket.Valid()
    ensures wins == Wins(ticket, finish, rules)
  {
    if finish.abandoned || exists r :: r in ticket.runners && r in finish.scratches {
      return false;
    }
    var slots: seq<seq<Runner>> := [];
    for k := 0 to |finish.groups|
      invariant slots + Slots(finish.groups[k..]) == Slots(finish.groups)
    {
      assert finish.groups[k..][1..] == finish.groups[k+1..];
      slots := slots + seq(|finish.groups[k]|, _ => finish.groups[k]);
    }
    assert slots == Slots(finish.groups);
    if ticket.pool.Paid() {
      var count := PaidCount(ticket.pool, rules);
      var top := if count < |slots| then slots[..count] else slots;
      wins := forall r :: r in ticket.runners ==> exists s :: s in top && r in s;
      PaidReading(ticket.runners, slots, count, top);
    } else if |slots| < ticket.pool.Count() {
      wins := false;
      TooShort(ticket, slots);
    } else if ticket.pool.Unordered() {
      wins := exists order :: order in Permutations(ticket.runners, |ticket.runners|) && Fits(order, slots);
    } else {
      wins := Fits(ticket.runners, slots);
    }
  }

  lemma PaidReading(runners: seq<Runner>, slots: seq<seq<Runner>>, count: nat, top: seq<seq<Runner>>)
    requires top == if count < |slots| then slots[..count] else slots
    ensures (forall r :: r in runners ==> exists s :: s in top && r in s)
       <==> (forall r :: r in runners ==> InTop(r, slots, count))
  {
    forall r ensures (exists s :: s in top && r in s) <==> InTop(r, slots, count) {
      if InTop(r, slots, count) {
        var i :| 0 <= i < count && i < |slots| && r in slots[i];
        assert top[i] == slots[i] && top[i] in top;
      }
      if s :| s in top && r in s {
        var i :| 0 <= i < |top| && top[i] == s;
        assert slots[i] == s;
      }
    }
  }

  lemma TooShort(ticket: Ticket, slots: seq<seq<Runner>>)
    requires ticket.Valid() && |slots| < ticket.pool.Count()
    ensures !Fits(ticket.runners, slots)
    ensures !exists order :: order in Permutations(ticket.runners, |ticket.runners|) && Fits(order, slots)
  {
    forall order | order in Permutations(ticket.runners, |ticket.runners|) ensures !Fits(order, slots) {
      PermutationsAreOrders(ticket.runners, |ticket.runners|, order);
    }
  }

  // ---- what the slots mean: strict orders that break every tie ----

  /** `o` finishes the groups in turn, each in some strict order. */
  predicate TieBreak(groups: seq<seq<Runner>>, o: seq<Runner>) {
    if groups == [] then o == [] else
      && |o| >= |groups[0]|
      && IsOrder(groups[0], |groups[0]|, o[..|groups[0]|])
      && TieBreak(groups[1..], o[|groups[0]|..])
  }

  lemma {:induction false} FlattenSplit(groups: seq<seq<Runner>>)
    requires groups != [] && Distinct(Flatten(groups))
    ensures Distinct(groups[0]) && Distinct(Flatten(groups[1..]))
    ensures forall r :: r in groups[0] ==> r !in Flatten(groups[1..])
  {
    var all, g, rest := Flatten(groups), groups[0], Flatten(groups[1..]);
    forall i, j | 0 <= i < j < |g| ensures g[i] != g[j] { assert all[i] != all[j]; }
    forall i, j | 0 <= i < j < |rest| ensures rest[i] != rest[j] { assert all[|g| + i] != all[|g| + j]; }
    forall i, j | 0 <= i < |g| && 0 <= j < |rest| ensures g[i] != rest[j] { assert all[i] != all[|g| + j]; }
  }

  /** A tie-break reads every slot consistently and lists every finisher once. */
  lemma {:induction false} TieBreakFits(groups: seq<seq<Runner>>, o: seq<Runner>)
    requires TieBreak(groups, o)
    ensures |o| == |Slots(groups)| && Fits(o, Slots(groups))
  {
    if groups != [] {
      var g := groups[0];
      TieBreakFits(groups[1..], o[|g|..]);
      forall i | 0 <= i < |o| ensures o[i] in Slots(groups)[i] {
        if i < |g| {
          assert o[..|g|][i] in g;
        } else {
          assert o[|g|..][i - |g|] == o[i];
        }
      }
    }
  }

  /** A fitting order starts within the first group, and its rest fits the others. */
  lemma FitsSplit(groups: seq<seq<Runner>>, t: seq<Runner>, k: nat)
    requires groups != [] && Fits(t, Slots(groups)) && k == if |t| < |groups[0]| then |t| else |groups[0]|
    ensures Within(t[..k], groups[0]) && Fits(t[k..], Slots(groups[1..]))
  {
    var g, tail, slots, rest := groups[0], t[k..], Slots(groups), Slots(groups[1..]);
    SlotsCons(groups);
    hide Slots;
    forall r | r in t[..k] ensures r in g {
      var i :| 0 <= i < k && t[..k][i] == r;
      assert t[i] in slots[i];
    }
    forall i | 0 <= i < |tail| ensures tail[i] in rest[i] {
      assert t[k + i] in slots[k + i];
    }
  }

  lemma SlotsCons(groups: seq<seq<Runner>>)
    requires groups != []
    ensures |Slots(groups)| == |groups[0]| + |Slots(groups[1..])|
    ensures forall i :: 0 <= i < |groups[0]| ==> Slots(groups)[i] == groups[0]
    ensures forall i :: 0 <= i < |Slots(groups[1..])| ==> Slots(groups)[|groups[0]| + i] == Slots(groups[1..])[i]
  {}

  lemma DistinctParts(t: seq<Runner>, k: nat)
    requires Distinct(t) && k <= |t|
    ensures Distinct(t[..k]) && Distinct(t[k..])
  {}

  /** Any repetition-free partial order that fits the slots extends to a tie-break. */
  lemma {:induction false} ExtendToTieBreak(groups: seq<seq<Runner>>, t: seq<Runner>) returns (o: seq<Runner>)
    requires Distinct(Flatten(groups)) && Distinct(t) && Fits(t, Slots(groups))
    ensures TieBreak(groups, o) && t <= o
  {
    if groups == [] {
      o := [];
    } else {
      var g := groups[0];
      FlattenSplit(groups);
      var k := if |t| < |g| then |t| else |g|;
      var tail := t[k..];
      FitsSplit(groups, t, k);
      DistinctParts(t, k);
      var head := CompleteGroup(g, t[..k]);
      var rest := ExtendToTieBreak(groups[1..], tail);
      o := head + rest;
      assert o[..|g|] == head && o[|g|..] == rest;
      assert t == t[..k] + tail;
      if |t| < |g| {
        assert tail == [];
      } else {
        assert head == t[..k];
      }
    }
  }

  lemma {:induction false} CompleteGroup(g: seq<Runner>, t: seq<Runner>) returns (o: seq<Runner>)
    requires Distinct(g) && Distinct(t) && Within(t, g)
    ensures IsOrder(g, |g|, o) && t <= o
    decreases |t|
  {
    if t == [] {
      o := g;
    } else {
      var x, t' := t[0], t[1..];
      assert t == [x] + t';
      DistinctCons(x, t');
      RemoveMembers(g, x);
      var o' := CompleteGroup(Remove(g, x), t');
      o := [x] + o';
      DistinctCons(x, o');
    }
  }

  predicate Settles(ticket: Ticket, finish: Finish) {
    !finish.abandoned && forall r :: r in ticket.runners ==> r !in finish.scratches
  }

  predicate StartsWith(runners: seq<Runner>, o: seq<Runner>) {
    |runners| <= |o| && o[..|runners|] == runners
  }

  /** An ordered ticket wins exactly when it is the start of some strict tie-break. */
  lemma OrderedMeaning(ticket: Ticket, finish: Finish, rules: Rules)
    requires ticket.Valid() && finish.Valid() && Settles(ticket, finish)
    requires !ticket.pool.Paid() && !ticket.pool.Unordered()
    ensures Wins(ticket, finish, rules) <==> exists o :: TieBreak(finish.groups, o) && StartsWith(ticket.runners, o)
  {
    if Wins(ticket, finish, rules) {
      var o := ExtendToTieBreak(finish.groups, ticket.runners);
      assert StartsWith(ticket.runners, o);
    }
    if o :| TieBreak(finish.groups, o) && StartsWith(ticket.runners, o) {
      TieBreakFits(finish.groups, o);
      forall i | 0 <= i < |ticket.runners| ensures ticket.runners[i] in Slots(finish.groups)[i] {
        assert o[i] == o[..|ticket.runners|][i];
      }
    }
  }

  predicate TopSet(runners: seq<Runner>, o: seq<Runner>) {
    |runners| <= |o| && SameSet(o[..|runners|], runners)
  }

  /** An unordered ticket wins exactly when it is the whole top set of some strict tie-break. */
  lemma UnorderedMeaning(ticket: Ticket, finish: Finish, rules: Rules)
    requires ticket.Valid() && finish.Valid() && Settles(ticket, finish)
    requires !ticket.pool.Paid() && ticket.pool.Unordered()
    ensures Wins(ticket, finish, rules) <==> exists o :: TieBreak(finish.groups, o) && TopSet(ticket.runners, o)
  {
    var t, k := ticket.runners, |ticket.runners|;
    if Wins(ticket, finish, rules) {
      var order :| order in Permutations(t, k) && Fits(order, Slots(finish.groups));
      PermutationsAreOrders(t, k, order);
      SameSetOfOrder(t, order);
      var o := ExtendToTieBreak(finish.groups, order);
      assert o[..k] == order;
      assert TopSet(t, o);
    }
    if o :| TieBreak(finish.groups, o) && TopSet(t, o) {
      TieBreakFits(finish.groups, o);
      TieBreakDistinct(finish.groups, o);
      var order := o[..k];
      assert IsOrder(t, k, order);
      PermutationsAreOrders(t, k, order);
    }
  }

  lemma {:induction false} SameSetOfOrder(t: seq<Runner>, order: seq<Runner>)
    requires Distinct(t) && IsOrder(t, |t|, order)
    ensures SameSet(order, t)
    decreases |order|
  {
    if order != [] {
      var x, rest := order[0], order[1..];
      assert order == [x] + rest;
      DistinctCons(x, rest);
      RemoveMembers(t, x);
      SameSetOfOrder(Remove(t, x), rest);
      forall y | y in t ensures y in order {
        assert y == x || y in Remove(t, x);
      }
    }
  }

  lemma {:induction false} TieBreakDistinct(groups: seq<seq<Runner>>, o: seq<Runner>)
    requires Distinct(Flatten(groups)) && TieBreak(groups, o)
    ensures Distinct(o) && forall r :: r in o <==> r in Flatten(groups)
  {
    if groups != [] {
      var g := groups[0];
      var head, tail := o[..|g|], o[|g|..];
      assert o == head + tail;
      FlattenSplit(groups);
      TieBreakDistinct(groups[1..], tail);
      SameSetOfOrder(g, head);
      assert forall r :: r in head <==> r in g;
      DistinctAppend(head, tail);
    }
  }

  /** A PLACE or QPL ticket wins exactly when each runner separately can fall in the paid slots. */
  lemma PaidMeaning(ticket: Ticket, finish: Finish, rules: Rules)
    requires ticket.Valid() && finish.Valid() && Settles(ticket, finish) && ticket.pool.Paid()
    ensures Wins(ticket, finish, rules)
       <==> forall r :: r in ticket.runners ==> CanPlace(r, finish.groups, PaidCount(ticket.pool, rules))
  {
    forall r ensures InTop(r, Slots(finish.groups), PaidCount(ticket.pool, rules))
                <==> CanPlace(r, finish.groups, PaidCount(ticket.pool, rules)) {
      InTopMeaning(r, finish.groups, PaidCount(ticket.pool, rules));
    }
  }

  predicate AmongFirst(r: Runner, o: seq<Runner>, count: nat) {
    exists i :: 0 <= i < count && i < |o| && o[i] == r
  }

  ghost predicate CanPlace(r: Runner, groups: seq<seq<Runner>>, count: nat) {
    exists o :: TieBreak(groups, o) && AmongFirst(r, o, count)
  }

  lemma InTopMeaning(r: Runner, groups: seq<seq<Runner>>, count: nat)
    requires Distinct(Flatten(groups))
    ensures InTop(r, Slots(groups), count) <==> CanPlace(r, groups, count)
  {
    if InTop(r, Slots(groups), count) {
      var i :| 0 <= i < count && i < |Slots(groups)| && r in Slots(groups)[i];
      var o := RunnerEarly(groups, r, i);
      assert AmongFirst(r, o, count);
    }
    if o :| TieBreak(groups, o) && AmongFirst(r, o, count) {
      TieBreakFits(groups, o);
      var i :| 0 <= i < count && i < |o| && o[i] == r;
      assert r in Slots(groups)[i];
    }
  }

  /** A runner of slot `i` comes no later than `i` in some tie-break. */
  lemma {:induction false} RunnerEarly(groups: seq<seq<Runner>>, r: Runner, i: nat) returns (o: seq<Runner>)
    requires Distinct(Flatten(groups)) && i < |Slots(groups)| && r in Slots(groups)[i]
    ensures TieBreak(groups, o) && AmongFirst(r, o, i + 1)
  {
    var g := groups[0];
    FlattenSplit(groups);
    if i < |g| {
      var head := CompleteGroup(g, [r]);
      var rest := ExtendToTieBreak(groups[1..], []);
      o := head + rest;
      assert o[..|g|] == head && o[|g|..] == rest && o[0] == r;
    } else {
      assert Slots(groups)[i] == Slots(groups[1..])[i - |g|];
      var rest := RunnerEarly(groups[1..], r, i - |g|);
      o := g + rest;
      assert o[..|g|] == g && o[|g|..] == rest;
      var j :| 0 <= j < i - |g| + 1 && j < |rest| && rest[j] == r;
      assert o[|g| + j] == r;
    }
  }

  // ---- no ties ----

  /** The groups of a strict order. */
  function Singletons(o: seq<Runner>): seq<seq<Runner>> {
    seq(|o|, i requires 0 <= i < |o| => [o[i]])
  }

  lemma {:induction false} SlotsOfSingletons(o: seq<Runner>)
    ensures Slots(Singletons(o)) == Singletons(o)
    ensures Flatten(Singletons(o)) == o
  {
    if o != [] {
      assert Singletons(o)[1..] == Singletons(o[1..]);
      SlotsOfSingletons(o[1..]);
      assert seq(|[o[0]]|, _ => [o[0]]) == [[o[0]]];
      assert Singletons(o) == [[o[0]]] + Singletons(o[1..]);
    }
  }

  /** Fitting a strict order means being its prefix. */
  lemma FitsSingletons(t: seq<Runner>, o: seq<Runner>)
    ensures Fits(t, Singletons(o)) <==> t <= o
  {
    if Fits(t, Singletons(o)) {
      forall i | 0 <= i < |t| ensures t[i] == o[i] {
        assert t[i] in Singletons(o)[i];
      }
    }
    if t <= o {
      forall i | 0 <= i < |t| ensures t[i] in Singletons(o)[i] {}
    }
  }

  /** Without ties every pool reads the finishing order directly: the first runners win, in order or as a set. */
  lemma StrictMeaning(ticket: Ticket, o: seq<Runner>, rules: Rules)
    requires ticket.Valid() && Distinct(o)
    ensures var finish := Finish(Singletons(o), [], false);
            finish.Valid() &&
            (Wins(ticket, finish, rules) <==>
              if ticket.pool.Paid() then
                forall r :: r in ticket.runners ==> AmongFirst(r, o, PaidCount(ticket.pool, rules))
              else if ticket.pool.Unordered() then TopSet(ticket.runners, o)
              else ticket.runners <= o)
  {
    var groups := Singletons(o);
    var finish := Finish(groups, [], false);
    SlotsOfSingletons(o);
    if ticket.pool.Paid() {
      forall r ensures InTop(r, groups, PaidCount(ticket.pool, rules)) <==> AmongFirst(r, o, PaidCount(ticket.pool, rules)) {
        StrictTop(r, o, PaidCount(ticket.pool, rules));
      }
    } else if ticket.pool.Unordered() {
      UnorderedMeaning(ticket, finish, rules);
      StrictTieBreak(o);
    } else {
      FitsSingletons(ticket.runners, o);
    }
  }

  /** Who wins what, pool by pool, in a race that ended without ties. */
  lemma PoolWinners(t: Ticket, a: Runner, b: Runner, c: Runner, d: Runner, others: seq<Runner>, rules: Rules)
    requires t.Valid() && Distinct([a, b, c, d] + others)
    ensures var order := [a, b, c, d] + others;
            Wins(t, Finish(Singletons(order), [], false), rules) <==>
              match t.pool
              case Win => t.runners == [a]
              case Forecast => t.runners == [a, b]
              case Tierce => t.runners == [a, b, c]
              case Quartet => t.runners == [a, b, c, d]
              case Qin => SameSet(t.runners, [a, b])
              case Tri => SameSet(t.runners, [a, b, c])
              case First4 => SameSet(t.runners, [a, b, c, d])
              case Place => AmongFirst(t.runners[0], order, rules.paidPlaces)
              case Qpl => AmongFirst(t.runners[0], order, rules.qplPlaces) && AmongFirst(t.runners[1], order, rules.qplPlaces)
  {
    hide Wins, Distinct, AmongFirst, SameSet;
    var order := [a, b, c, d] + others;
    StrictMeaning(t, order, rules);
    assert order[..1] == [a] && order[..2] == [a, b] && order[..3] == [a, b, c] && order[..4] == [a, b, c, d];
    assert t.runners <= order <==> t.runners == order[..t.pool.Count()];
    if t.pool.Paid() {
      assert t.runners[0] in t.runners && (t.pool.Qpl? ==> t.runners[1] in t.runners);
      assert (forall r :: r in t.runners ==> AmongFirst(r, order, PaidCount(t.pool, rules))) <==>
        AmongFirst(t.runners[0], order, PaidCount(t.pool, rules)) && (t.pool.Qpl? ==> AmongFirst(t.runners[1], order, PaidCount(t.pool, rules)));
    } else if t.pool.Unordered() {
      SameSetSymmetric(t.runners, order[..t.pool.Count()]);
    }
  }

  /** The tickets of a pool over a field: orders, or combinations where order does not matter. */
  function ListedTickets(pool: Pool, field: seq<Runner>): seq<seq<Runner>> {
    if pool.Unordered() then Combinations(field, pool.Count()) else Permutations(field, pool.Count())
  }

  function WinMark(race: string, pool: Pool, finish: Finish, rules: Rules): seq<Runner> -> real {
    runners => if Wins(Ticket(race, pool, runners), finish, rules) then 1.0 else 0.0
  }

  /** In a strict finish with enough runners exactly one listed ticket of a fixed-size pool wins. */
  lemma ExactlyOneWins(race: string, pool: Pool, field: seq<Runner>, o: seq<Runner>, rules: Rules)
    requires !pool.Paid() && Distinct(field) && Distinct(o) && Within(o, field) && |o| >= pool.Count()
    ensures Sum(ListedTickets(pool, field), WinMark(race, pool, Finish(Singletons(o), [], false), rules)) == 1.0
  {
    hide Wins, Singletons, Distinct, Within;
    var k, finish := pool.Count(), Finish(Singletons(o), [], false);
    var first, mark := o[..k], WinMark(race, pool, finish, rules);
    FirstIsOrder(field, o, k);
    if pool.Unordered() {
      forall c | c in Combinations(field, k) ensures mark(c) == SetMatch(first)(c) {
        CombinationsAreOrders(field, k, c);
        StrictMeaning(Ticket(race, pool, c), o, rules);
        SameSetSymmetric(c, first);
      }
      SumCongruent(Combinations(field, k), mark, SetMatch(first));
      ExactlyOneCombination(field, k, first);
    } else {
      forall c | c in Permutations(field, k) ensures mark(c) == Match(first)(c) {
        PermutationsAreOrders(field, k, c);
        StrictMeaning(Ticket(race, pool, c), o, rules);
        assert c <= o <==> c == first;
      }
      SumCongruent(Permutations(field, k), mark, Match(first));
      ExactlyOnePermutation(field, k, first);
    }
  }

  lemma FirstIsOrder(field: seq<Runner>, o: seq<Runner>, k: nat)
    requires Distinct(o) && Within(o, field) && k <= |o|
    ensures IsOrder(field, k, o[..k])
  {
    DistinctParts(o, k);
    forall r | r in o[..k] ensures r in field {
      assert r in o;
    }
  }

  lemma SameSetSymmetric(a: seq<Runner>, b: seq<Runner>)
    ensures SameSet(a, b) <==> SameSet(b, a)
  {}

  lemma StrictTop(r: Runner, o: seq<Runner>, count: nat)
    ensures InTop(r, Singletons(o), count) <==> AmongFirst(r, o, count)
  {
    if InTop(r, Singletons(o), count) {
      var i :| 0 <= i < count && i < |o| && r in Singletons(o)[i];
      assert o[i] == r;
    }
    if AmongFirst(r, o, count) {
      var i :| 0 <= i < count && i < |o| && o[i] == r;
      assert r in Singletons(o)[i];
    }
  }

  lemma StrictTieBreak(o: seq<Runner>)
    ensures forall b :: TieBreak(Singletons(o), b) <==> b == o
  {
    forall b ensures TieBreak(Singletons(o), b) <==> b == o {
      StrictTieBreakIs(o, b);
    }
  }

  lemma {:induction false} StrictTieBreakIs(o: seq<Runner>, b: seq<Runner>)
    ensures TieBreak(Singletons(o), b) <==> b == o
  {
    if o != [] {
      assert Singletons(o)[1..] == Singletons(o[1..]);
      if |b| > 0 {
        StrictTieBreakIs(o[1..], b[1..]);
        assert b[..1] == [b[0]];
        assert b[0] in b[..1];
        assert b == [b[0]] + b[1..] && o == [o[0]] + o[1..];
      }
    }
  }
}
