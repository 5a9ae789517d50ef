/** Resolving event corrections to the physical event they describe (ima/historical_events.py, `normalize_events`). */
module CorrectionChains {
  import opened Sums

  datatype Option<+T> = None | Some(value: T)

  /** `correctionOf` is empty for an original observation. */
  datatype Event = Event(id: string, correctionOf: string, horse: Option<string>, family: string, group: string,
                         reasons: seq<string>)

  const BROKEN := "correction_parent_missing_or_incompatible"

  /** The lookup table: the last event with an id stands for it. */
  function ById(events: seq<Event>): (m: map<string, nat>)
    ensures forall id :: id in m ==> m[id] < |events| && events[m[id]].id == id
    ensures forall i :: 0 <= i < |events| ==> events[i].id in m
  {
    if events == [] then map[]
    else
      var n := |events| - 1;
      assert events == events[..n] + [events[n]];
      ById(events[..n])[events[n].id := n]
  }

  function Parent(events: seq<Event>, at: nat): (p: Option<nat>)
    requires at < |events|
    ensures p.Some? ==> p.value < |events| && events[p.value].id == events[at].correctionOf
  {
    if events[at].correctionOf in ById(events) then Some(ById(events)[events[at].correctionOf]) else None
  }

  predicate Compatible(e: Event, parent: Event) {
    parent.horse == e.horse && parent.family == e.family
  }

  /** Where a chain ends: an original, or (broken) an event whose parent is missing or of another horse or family. */
  datatype Walked = Cycle | Stop(at: nat, broken: bool)

  function Walk(events: seq<Event>, start: nat, at: nat, visited: set<string>): (w: Walked)
    requires start < |events| && at < |events|
    ensures w.Stop? ==> w.at < |events|
    decreases ById(events).Keys - visited
  {
    if events[at].correctionOf == "" then Stop(at, false)
    else if events[at].id in visited then Cycle
    else
      var p := Parent(events, at);
      if p.None? || !Compatible(events[start], events[p.value]) then Stop(at, true)
      else Walk(events, start, p.value, visited + {events[at].id})
  }

  function Chain(events: seq<Event>, i: nat): (w: Walked)
    requires i < |events|
    ensures w.Stop? ==> w.at < |events|
  {
    Walk(events, i, i, {})
  }

  ghost predicate Resolvable(events: seq<Event>) {
    forall i :: 0 <= i < |events| ==> Chain(events, i).Stop?
  }

  function ResolvedEvent(events: seq<Event>, i: nat): Event
    requires i < |events| && Chain(events, i).Stop?
  {
    events[i].(group := events[Chain(events, i).at].group,
               reasons := events[i].reasons + if Chain(events, i).broken then [BROKEN] else [])
  }

  ghost function Resolved(events: seq<Event>): (r: seq<Event>)
    requires Resolvable(events)
    ensures |r| == |events| && forall i :: 0 <= i < |r| ==> r[i] == ResolvedEvent(events, i)
  {
    seq(|events|, i requires 0 <= i < |events| => ResolvedEvent(events, i))
  }

  // ---- updating in place is safe ----

  /** A chain started later on the way is the rest of the chain. */
  lemma {:induction false} ShorterWalk(events: seq<Event>, start: nat, other: nat, at: nat, visited: set<string>, fewer: set<string>)
    requires start < |events| && other < |events| && at < |events| && fewer <= visited
    requires Compatible(events[start], events[other]) && Walk(events, start, at, visited).Stop?
    ensures Walk(events, other, at, fewer) == Walk(events, start, at, visited)
    decreases ById(events).Keys - visited
  {
    if events[at].correctionOf != "" {
      var p := Parent(events, at);
      if p.Some? && Compatible(events[start], events[p.value]) {
        ShorterWalk(events, start, other, p.value, visited + {events[at].id}, fewer + {events[at].id});
      }
    }
  }

  lemma {:induction false} WalkEnds(events: seq<Event>, start: nat, at: nat, visited: set<string>)
    requires start < |events| && at < |events| && Compatible(events[start], events[at])
    requires Walk(events, start, at, visited).Stop?
    ensures var t := Walk(events, start, at, visited);
            Compatible(events[start], events[t.at]) && Chain(events, t.at) == t
    decreases ById(events).Keys - visited
  {
    var t := Walk(events, start, at, visited);
    if events[at].correctionOf != "" {
      var p := Parent(events, at);
      if p.Some? && Compatible(events[start], events[p.value]) {
        WalkEnds(events, start, p.value, visited + {events[at].id});
      } else {
        assert t == Stop(at, true) && (p.None? || !Compatible(events[at], events[p.value]));
      }
    }
  }

  /** The event a chain ends at keeps its own group: nothing resolved earlier can disturb a later lookup. */
  lemma EndKeepsGroup(events: seq<Event>, i: nat)
    requires i < |events| && Chain(events, i).Stop?
    ensures var t := Chain(events, i).at; Chain(events, t).Stop? && ResolvedEvent(events, t).group == events[t].group
  {
    hide Walk;
    WalkEnds(events, i, i, {});
  }

  /** A correction belongs to the same physical event as the observation it corrects. */
  lemma CorrectionSharesGroup(events: seq<Event>, i: nat)
    requires i < |events| && events[i].correctionOf != "" && Parent(events, i).Some?
    requires Compatible(events[i], events[Parent(events, i).value]) && Chain(events, i).Stop?
    ensures Chain(events, Parent(events, i).value).Stop?
    ensures ResolvedEvent(events, i).group == ResolvedEvent(events, Parent(events, i).value).group
  {
    var p := Parent(events, i).value;
    hide ById, Parent;
    assert {} + {events[i].id} == {events[i].id};
    assert Chain(events, i) == Walk(events, i, p, {events[i].id});
    ShorterWalk(events, i, p, p, {events[i].id}, {});
  }

  // ---- the loop ----

  /** Equal but for the two fields the loop writes. */
  ghost predicate SameLinks(xs: seq<Event>, ys: seq<Event>) {
    |xs| == |ys| && forall i :: 0 <= i < |xs| ==> ys[i] == xs[i].(group := ys[i].group, reasons := ys[i].reasons)
  }

  ghost predicate ResolvedUpTo(before: seq<Event>, now: seq<Event>, k: nat)
    requires k <= |before|
  {
    && |now| == |before|
    && (forall i :: 0 <= i < k ==> Chain(before, i).Stop? && now[i] == ResolvedEvent(before, i))
    && (forall i :: k <= i < |before| ==> now[i] == before[i])
  }

  lemma GroupAtEnd(before: seq<Event>, now: seq<Event>, k: nat, i: nat)
    requires k <= |before| && ResolvedUpTo(before, now, k) && i < |before| && Chain(before, i).Stop?
    ensures now[Chain(before, i).at].group == before[Chain(before, i).at].group
  {
    hide Chain;
    EndKeepsGroup(before, i);
  }

  /** One event's walk over the array, exactly as the loop takes it. */
  method Follow(events: array<Event>, k: nat, byId: map<string, nat>, ghost before: seq<Event>) returns (w: Walked)
    requires k < events.Length && SameLinks(before, events[..]) && byId == ById(before)
    ensures w == Chain(before, k)
  {
    hide ById;
    var current: nat, visited: set<string> := k, {};
    while events[current].correctionOf != ""
      invariant current < events.Length
      invariant Walk(before, k, current, visited) == Chain(before, k)
      decreases ById(before).Keys - visited
    {
      assert forall i :: 0 <= i < events.Length ==> events[..][i] == events[i];
      if events[current].id in visited { return Cycle; }
      visited := visited + {events[current].id};
      if events[current].correctionOf !in byId { return Stop(current, true); }
      var parent := byId[events[current].correctionOf];
      if events[parent].horse != events[k].horse || events[parent].family != events[k].family { return Stop(current, true); }
      current := parent;
    }
    return Stop(current, false);
  }

  /** The in-place loop gives every event the group its chain ends at in the original list, and succeeds exactly
      when no chain runs into itself. */
  method Resolve(events: array<Event>) returns (ok: bool)
    modifies events
    ensures ok <==> Resolvable(old(events[..]))
    ensures ok ==> events[..] == Resolved(old(events[..]))
  {
    hide Walk, ById, Chain, ResolvedUpTo, SameLinks, Resolvable;
    ghost var before := events[..];
    NothingYet(before);
    var byId := ById(events[..]);
    for k := 0 to events.Length
      invariant |before| == events.Length && ResolvedUpTo(before, events[..], k)
    {
      ghost var now := events[..];
      LinksKept(before, now, k);
      var w := Follow(events, k, byId, before);
      if w.Cycle? {
        NotResolvable(before, k);
        return false;
      }
      var reasons := events[k].reasons + if w.broken then [BROKEN] else [];
      events[k] := events[k].(group := events[w.at].group, reasons := reasons);
      assert events[..] == now[k := events[k]];
      OneMore(before, now, k);
    }
    AllDone(before, events[..]);
    return true;
  }

  lemma NothingYet(before: seq<Event>)
    ensures ResolvedUpTo(before, before, 0)
  {}

  lemma NotResolvable(before: seq<Event>, k: nat)
    requires k < |before| && Chain(before, k).Cycle?
    ensures !Resolvable(before)
  {}

  lemma LinksKept(before: seq<Event>, now: seq<Event>, k: nat)
    requires k <= |before| && ResolvedUpTo(before, now, k)
    ensures SameLinks(before, now)
  {
    hide Chain;
  }

  lemma OneMore(before: seq<Event>, now: seq<Event>, k: nat)
    requires k < |before| && ResolvedUpTo(before, now, k) && Chain(before, k).Stop?
    ensures |now| == |before| && var w := Chain(before, k);
            ResolvedUpTo(before, now[k := now[k].(group := now[w.at].group,
              reasons := now[k].reasons + if w.broken then [BROKEN] else [])], k + 1)
  {
    hide Chain;
    GroupAtEnd(before, now, k, k);
  }

  lemma AllDone(before: seq<Event>, now: seq<Event>)
    requires ResolvedUpTo(before, now, |before|)
    ensures Resolvable(before) && now == Resolved(before)
  {
    hide Chain, ResolvedEvent;
  }

  // ---- what a refused chain is ----

  /** `n` corrections back from `start`, as long as parents exist and are of the same horse and family. */
  function Steps(events: seq<Event>, start: nat, n: nat): (at: Option<nat>)
    requires start < |events|
    ensures at.Some? ==> at.value < |events|
  {
    if n == 0 then Some(start)
    else
      var before := Steps(events, start, n - 1);
      if before.None? || events[before.value].correctionOf == "" then None
      else
        var p := Parent(events, before.value);
        if p.None? || !Compatible(events[start], events[p.value]) then None else p
  }

  lemma {:induction false} StopEnds(events: seq<Event>, start: nat, at: nat, visited: set<string>, n: nat) returns (m: nat)
    requires start < |events| && Steps(events, start, n) == Some(at) && Walk(events, start, at, visited).Stop?
    ensures Steps(events, start, m).None?
    decreases ById(events).Keys - visited
  {
    hide ById, Parent;
    var p := Parent(events, at);
    if events[at].correctionOf == "" || p.None? || !Compatible(events[start], events[p.value]) {
      m := n + 1;
    } else {
      m := StopEnds(events, start, p.value, visited + {events[at].id}, n + 1);
    }
  }

  lemma {:induction false} SameTail(events: seq<Event>, start: nat, k: nat, n: nat, j: nat)
    requires start < |events| && Steps(events, start, k) == Steps(events, start, n)
    ensures Steps(events, start, k + j) == Steps(events, start, n + j)
  {
    hide Parent;
    if j > 0 {
      SameTail(events, start, k, n, j - 1);
      assert k + j - 1 == k + (j - 1) && n + j - 1 == n + (j - 1);
    }
  }

  lemma {:induction false} StaysEnded(events: seq<Event>, start: nat, n: nat, m: nat)
    requires start < |events| && n <= m && Steps(events, start, n).None?
    ensures Steps(events, start, m).None?
    decreases m - n
  {
    if n < m { StaysEnded(events, start, n + 1, m); }
  }

  /** A place met twice is met forever. */
  lemma {:induction false} Endless(events: seq<Event>, start: nat, k: nat, n: nat, m: nat)
    requires start < |events| && k < n && Steps(events, start, k) == Steps(events, start, n) && Steps(events, start, n).Some?
    ensures Steps(events, start, m).Some?
    decreases m
  {
    hide Steps;
    if Steps(events, start, m).None? {
      if m <= n {
        StaysEnded(events, start, m, n);
      } else {
        SameTail(events, start, k, n, m - n);
        Endless(events, start, k, n, k + (m - n));
      }
    }
  }

  ghost predicate At(events: seq<Event>, start: nat, n: nat, id: string)
    requires start < |events|
  {
    Steps(events, start, n).Some? && events[Steps(events, start, n).value].id == id
  }

  ghost predicate MetBefore(events: seq<Event>, start: nat, n: nat, id: string)
    requires start < |events|
  {
    exists j: nat :: j < n && At(events, start, j, id)
  }

  lemma CycleGoesOn(events: seq<Event>, start: nat, at: nat, visited: set<string>, n: nat)
    requires start < |events| && at < |events| && events[at].id !in visited && Walk(events, start, at, visited).Cycle?
    requires Steps(events, start, n) == Some(at)
    ensures Parent(events, at).Some? && Walk(events, start, Parent(events, at).value, visited + {events[at].id}).Cycle?
    ensures Steps(events, start, n + 1) == Parent(events, at)
  {
    hide ById, Parent;
  }

  lemma MetSoFar(events: seq<Event>, start: nat, n: nat, visited: set<string>, id: string)
    requires start < |events| && At(events, start, n, id)
    requires forall v :: v in visited ==> MetBefore(events, start, n, v)
    ensures forall v :: v in visited + {id} ==> MetBefore(events, start, n + 1, v)
  {
    hide At;
    forall v | v in visited + {id} ensures MetBefore(events, start, n + 1, v) {
      if v in visited {
        var j: nat :| j < n && At(events, start, j, v);
      }
    }
  }

  lemma {:induction false} CycleRepeats(events: seq<Event>, start: nat, at: nat, visited: set<string>, n: nat) returns (k: nat, m: nat)
    requires UniqueIds(events) && start < |events| && Steps(events, start, n) == Some(at)
    requires forall id :: id in visited ==> MetBefore(events, start, n, id)
    requires Walk(events, start, at, visited).Cycle?
    ensures k < m && Steps(events, start, k) == Steps(events, start, m) && Steps(events, start, m).Some?
    decreases ById(events).Keys - visited
  {
    hide ById, Parent, Steps, Walk;
    if events[at].id in visited {
      assert MetBefore(events, start, n, events[at].id);
      k :| k < n && At(events, start, k, events[at].id);
      m := n;
    } else {
      CycleGoesOn(events, start, at, visited, n);
      var p := Parent(events, at).value;
      assert At(events, start, n, events[at].id);
      MetSoFar(events, start, n, visited, events[at].id);
      k, m := CycleRepeats(events, start, p, visited + {events[at].id}, n + 1);
    }
  }

  /** For unique ids a chain is refused exactly when following it would never end. */
  lemma RefusedExactlyWhenEndless(events: seq<Event>, i: nat)
    requires UniqueIds(events) && i < |events|
    ensures Chain(events, i).Cycle? <==> forall n: nat :: Steps(events, i, n).Some?
  {
    hide Walk, Steps;
    assert Steps(events, i, 0) == Some(i) by { StepsZero(events, i); }
    if Chain(events, i).Cycle? {
      var k, m := CycleRepeats(events, i, i, {}, 0);
      forall n: nat ensures Steps(events, i, n).Some? { Endless(events, i, k, m, n); }
    } else {
      var m := StopEnds(events, i, i, {}, 0);
    }
  }

  lemma StepsZero(events: seq<Event>, i: nat)
    requires i < |events|
    ensures Steps(events, i, 0) == Some(i)
  {}

  // ---- the list order does not matter ----

  ghost predicate UniqueIds(events: seq<Event>) {
    forall i, j :: 0 <= i < |events| && 0 <= j < |events| && events[i].id == events[j].id ==> i == j
  }

  ghost predicate SameEvents(xs: seq<Event>, ys: seq<Event>) {
    forall e :: e in xs <==> e in ys
  }

  /** Equal but for the reasons collected so far: whatever a chain reads. */
  predicate Alike(e: Event, f: Event) {
    e.id == f.id && e.correctionOf == f.correctionOf && e.horse == f.horse && e.family == f.family && e.group == f.group
  }

  /** Events that share an id agree on whatever a chain reads. Unique ids are one way. */
  ghost predicate Agreeing(events: seq<Event>) {
    forall i, j :: 0 <= i < |events| && 0 <= j < |events| && events[i].id == events[j].id ==> Alike(events[i], events[j])
  }

  lemma UniqueAgree(events: seq<Event>)
    requires UniqueIds(events)
    ensures Agreeing(events)
  {
    forall i, j | 0 <= i < |events| && 0 <= j < |events| && events[i].id == events[j].id ensures Alike(events[i], events[j]) {
      assert i == j;
    }
  }

  lemma SameParent(xs: seq<Event>, ys: seq<Event>, i: nat, j: nat)
    requires Agreeing(xs) && Agreeing(ys) && SameEvents(xs, ys) && i < |xs| && j < |ys| && Alike(xs[i], ys[j])
    ensures Parent(xs, i).Some? <==> Parent(ys, j).Some?
    ensures Parent(xs, i).Some? ==> Alike(xs[Parent(xs, i).value], ys[Parent(ys, j).value])
  {
    if Parent(xs, i).Some? { Found(xs, ys, Parent(xs, i).value); }
    if Parent(ys, j).Some? { Found(ys, xs, Parent(ys, j).value); }
  }

  lemma Found(xs: seq<Event>, ys: seq<Event>, i: nat)
    requires Agreeing(ys) && SameEvents(xs, ys) && i < |xs|
    ensures xs[i].id in ById(ys) && Alike(xs[i], ys[ById(ys)[xs[i].id]])
  {
    assert xs[i] in xs;
    var j: nat :| j < |ys| && ys[j] == xs[i];
  }

  lemma {:induction false} SameWalk(xs: seq<Event>, ys: seq<Event>, start: nat, start': nat, at: nat, at': nat, visited: set<string>)
    requires Agreeing(xs) && Agreeing(ys) && SameEvents(xs, ys)
    requires start < |xs| && start' < |ys| && Alike(xs[start], ys[start']) && at < |xs| && at' < |ys| && Alike(xs[at], ys[at'])
    ensures var w, w' := Walk(xs, start, at, visited), Walk(ys, start', at', visited);
            (w.Stop? <==> w'.Stop?) && (w.Stop? ==> Alike(xs[w.at], ys[w'.at]) && w.broken == w'.broken)
    decreases ById(xs).Keys - visited
  {
    hide ById, Parent, Agreeing, SameEvents;
    if xs[at].correctionOf != "" && xs[at].id !in visited {
      SameParent(xs, ys, at, at');
      var p := Parent(xs, at);
      if p.Some? && Compatible(xs[start], xs[p.value]) {
        SameWalk(xs, ys, start, start', p.value, Parent(ys, at').value, visited + {xs[at].id});
      }
    }
  }

  /** Agreeing events with one id share the fate of their chains. */
  lemma SameFate(events: seq<Event>, i: nat, j: nat)
    requires Agreeing(events) && i < |events| && j < |events| && events[i].id == events[j].id
    ensures Chain(events, i).Stop? <==> Chain(events, j).Stop?
    ensures Chain(events, i).Stop? ==> Chain(events, i).broken == Chain(events, j).broken
  {
    hide Walk;
    assert Alike(events[i], events[j]);
    SameWalk(events, events, i, j, i, j, {});
  }

  /** Where events that share an id agree, in particular for unique ids, every event resolves the same way wherever it
      stands in the list. */
  lemma OrderIndependent(xs: seq<Event>, ys: seq<Event>, i: nat, j: nat)
    requires Agreeing(xs) && Agreeing(ys) && SameEvents(xs, ys) && i < |xs| && j < |ys| && xs[i] == ys[j]
    ensures Chain(xs, i).Stop? <==> Chain(ys, j).Stop?
    ensures Chain(xs, i).Stop? ==> ResolvedEvent(xs, i) == ResolvedEvent(ys, j)
  {
    SameWalk(xs, ys, i, j, i, j, {});
  }

  /** ... and otherwise it need not: the last of two observations sharing an id decides a correction's group. */
  lemma DuplicateIdsDependOnOrder(first: Event, second: Event, correction: Event)
    requires first == Event("a", "", None, "f", "g1", []) && second == Event("a", "", None, "f", "g2", [])
    requires correction == Event("b", "a", None, "f", "g3", [])
    ensures var xs, ys := [first, second, correction], [second, first, correction];
            SameEvents(xs, ys) && Chain(xs, 2).Stop? && Chain(ys, 2).Stop?
            && ResolvedEvent(xs, 2).group == "g2" && ResolvedEvent(ys, 2).group == "g1"
  {
    PairLookup(first, second, correction);
    PairLookup(second, first, correction);
  }

  lemma PairLookup(first: Event, second: Event, correction: Event)
    requires first.id == second.id == correction.correctionOf == "a" && correction.id == "b"
    requires first.correctionOf == second.correctionOf == "" && Compatible(correction, second)
    ensures var xs := [first, second, correction];
            Chain(xs, 2) == Stop(1, false)
  {
    var xs := [first, second, correction];
    assert xs[..2] == [first, second];
    assert ById(xs[..2])["a"] == 1;
    assert ById(xs) == ById(xs[..2])["b" := 2];
    assert Parent(xs, 2) == Some(1);
    hide ById, Parent;
    assert Walk(xs, 2, 1, {} + {"b"}) == Stop(1, false);
  }
}
