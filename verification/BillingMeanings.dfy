/** Which attempts a recovery pass asks about, and how it reports each, in the recorded events
    (ima/openrouter_billing.py, `reconcile`). */
module BillingMeanings {
  import opened Billing

  /** The event carries a generation: any value but the empty text and zero. */
  predicate Carries(e: Event, g: Generation) {
    e.Record? && e.generation == Some(g) && g != Text("") && g != Other(0)
  }

  predicate Plain(c: char) {
    '0' <= c <= '9' || 'A' <= c <= 'Z' || 'a' <= c <= 'z' || c == '-' || c == '_'
  }

  ghost predicate GenerationName(id: string) {
    |id| > 4 && id[0] == 'g' && id[1] == 'e' && id[2] == 'n' && id[3] == '-' && forall i :: 4 <= i < |id| ==> Plain(id[i])
  }

  /** A readable attempt without a receipt: a list of records under a proper name. */
  ghost predicate Open(transports: Transports, receipts: Receipts, n: Name) {
    n in transports && !transports[n].symlink && transports[n].wellNamed && n !in receipts && transports[n].content.Some? &&
    forall i :: 0 <= i < |transports[n].content.value| ==> transports[n].content.value[i].Record?
  }

  /** Exactly one generation is carried. */
  ghost predicate OnlyCarries(events: seq<Event>, g: Generation) {
    && (exists i :: 0 <= i < |events| && Carries(events[i], g))
    && forall i, h :: 0 <= i < |events| && Carries(events[i], h) ==> h == g
  }

  ghost predicate Ended(events: seq<Event>) {
    events != [] && events[|events|-1].Record? && events[|events|-1].phase == "request_failed"
  }

  /** No other attempt, by its own record or its receipt, carries the generation. */
  ghost predicate Alone(transports: Transports, receipts: Receipts, n: Name, id: string) {
    && (forall m :: m in transports && m != n && !transports[m].symlink && transports[m].content.Some? ==>
          forall i :: 0 <= i < |transports[m].content.value| ==> !Carries(transports[m].content.value[i], Text(id)))
    && (forall m :: m in receipts ==> receipts[m] != Some(id))
  }

  lemma Carried(events: seq<Event>, g: Generation)
    ensures g in Identities(events) <==> exists i :: 0 <= i < |events| && Carries(events[i], g)
  {
    if g in Identities(events) {
      var e :| e in events && Present(e) && e.generation.value == g;
      var i :| 0 <= i < |events| && events[i] == e;
      assert Carries(events[i], g);
    }
    if i :| 0 <= i < |events| && Carries(events[i], g) {
      assert events[i] in events && Present(events[i]) && events[i].generation.value == g;
    }
  }

  lemma OneIdentity(events: seq<Event>, g: Generation)
    requires FirstIdentity(events) == Some(g)
    ensures |Identities(events)| == 1 <==> OnlyCarries(events, g)
    ensures forall h :: OnlyCarries(events, h) ==> h == g
  {
    hide FirstIdentity, Carries, Identities;
    var ids := Identities(events);
    assert g in ids;
    Singleton(ids, g);
    Carried(events, g);
    if i, h :| 0 <= i < |events| && Carries(events[i], h) && h != g { Carried(events, h); }
    if OnlyCarries(events, g) {
      forall h | h in ids ensures h == g { Carried(events, h); }
    }
  }

  lemma Singleton<T>(s: set<T>, x: T)
    requires x in s
    ensures |s| == 1 <==> forall y :: y in s ==> y == x
  {
    if |s| == 1 {
      assert |s - {x}| == 0;
      forall y | y in s ensures y == x { assert y != x ==> y in s - {x}; }
    }
    if forall y :: y in s ==> y == x { assert s == {x}; }
  }

  lemma NoIdentity(events: seq<Event>)
    ensures FirstIdentity(events).None? <==> forall i, g :: 0 <= i < |events| ==> !Carries(events[i], g)
  {
    hide FirstIdentity, Carries, Identities;
    if i, g :| 0 <= i < |events| && Carries(events[i], g) { Carried(events, g); }
    if FirstIdentity(events).Some? { Carried(events, FirstIdentity(events).value); }
  }

  lemma MentionsExactly(a: Attempt, id: string)
    ensures Mentions(a, id) <==> !a.symlink && a.content.Some? && exists i :: 0 <= i < |a.content.value| && Carries(a.content.value[i], Text(id))
  {
    if Mentions(a, id) {
      var e :| e in a.content.value && e.Record? && e.generation == Some(Text(id));
      var i :| 0 <= i < |a.content.value| && a.content.value[i] == e;
      assert Carries(a.content.value[i], Text(id));
    }
    if !a.symlink && a.content.Some? {
      if i :| 0 <= i < |a.content.value| && Carries(a.content.value[i], Text(id)) {
        assert a.content.value[i] in a.content.value;
      }
    }
  }

  lemma AloneExactly(transports: Transports, receipts: Receipts, n: Name, id: string)
    requires n in transports && Mentions(transports[n], id) && n !in receipts
    ensures |Owners(transports, receipts, id)| == 1 <==> Alone(transports, receipts, n, id)
  {
    hide Mentions, Carries;
    var owners := Owners(transports, receipts, id);
    Singleton(owners, n);
    if Alone(transports, receipts, n, id) {
      forall m | m in owners ensures m == n { if m in transports { MentionsExactly(transports[m], id); } }
    }
    if forall m :: m in owners ==> m == n {
      forall m | m in transports && m != n ensures !Mentions(transports[m], id) { assert m !in owners; }
      forall m | m in receipts ensures receipts[m] != Some(id) { assert m !in owners; }
      forall m | m in transports && m != n { MentionsExactly(transports[m], id); }
    }
  }

  lemma NameExactly(id: string)
    ensures WellFormed(id) <==> GenerationName(id)
  {
    if |id| > 4 {
      assert id[..4] == "gen-" <==> id[0] == 'g' && id[1] == 'e' && id[2] == 'n' && id[3] == '-';
    }
  }

  /** An attempt is asked about exactly when it is open, carries one well-formed generation and no other, ended in
      failure, and no other attempt carries that generation. */
  lemma EligibleExactly(transports: Transports, receipts: Receipts, n: Name, id: string)
    requires n in transports
    ensures StandingOf(transports, receipts, n) == Eligible(id) <==>
              && Open(transports, receipts, n) && OnlyCarries(transports[n].content.value, Text(id)) && Ended(transports[n].content.value)
              && GenerationName(id) && Alone(transports, receipts, n, id)
  {
    hide Identities, FirstIdentity, WellFormed, GenerationName, Owners, Alone, OnlyCarries, Mentions, Carries;
    var a := transports[n];
    if Open(transports, receipts, n) {
      var events := a.content.value;
      NoIdentity(events);
      if OnlyCarries(events, Text(id)) { OnlyMeansSome(events, Text(id)); }
      if FirstIdentity(events).Some? {
        OneIdentity(events, FirstIdentity(events).value);
        NameExactly(id);
        Carried(events, Text(id));
        MentionsExactly(a, id);
        if OnlyCarries(events, Text(id)) { AloneExactly(transports, receipts, n, id); }
      }
    }
  }

  lemma OnlyMeansSome(events: seq<Event>, g: Generation)
    requires OnlyCarries(events, g)
    ensures exists i :: 0 <= i < |events| && Carries(events[i], g)
  {}

  /** Skipped is having a receipt under a proper path; passed over in silence is carrying no generation yet, or one that
      has not ended in failure. Whatever else is not asked about is refused. */
  lemma StandingExactly(transports: Transports, receipts: Receipts, n: Name)
    requires n in transports
    ensures StandingOf(transports, receipts, n) == HasReceipt <==> !transports[n].symlink && transports[n].wellNamed && n in receipts
    ensures StandingOf(transports, receipts, n) == NothingYet <==>
              && Open(transports, receipts, n)
              && var events := transports[n].content.value;
                 || (forall i, g :: 0 <= i < |events| ==> !Carries(events[i], g))
                 || (!Ended(events) && exists g :: OnlyCarries(events, g))
  {
    hide Identities, FirstIdentity, WellFormed, Owners, OnlyCarries, Carries;
    if Open(transports, receipts, n) {
      var events := transports[n].content.value;
      NoIdentity(events);
      if FirstIdentity(events).Some? {
        OneIdentity(events, FirstIdentity(events).value);
      } else if g :| OnlyCarries(events, g) {
        OnlyMeansSome(events, g);
      }
    }
  }

  lemma {:induction false} ReportedExactly(transports: Transports, receipts: Receipts, names: seq<Name>, billed: Name -> bool, fate: Fate, n: Name)
    requires forall m :: m in names ==> m in transports
    ensures n in Reported(transports, receipts, names, billed, fate) <==> n in names && FateOf(StandingOf(transports, receipts, n), billed(n)) == fate
  {
    hide StandingOf, FateOf;
    if names != [] {
      ReportedExactly(transports, receipts, names[..|names|-1], billed, fate, n);
      assert names == names[..|names|-1] + [names[|names|-1]];
    }
  }

  /** The report of a pass: recovered are the visited attempts asked about and billed; unresolved those asked about in
      vain and those refused; skipped those with a receipt. */
  lemma ReportExactly(transports: Transports, receipts: Receipts, names: seq<Name>, billed: Name -> bool, report: Report, requested: seq<Name>, n: Name)
    requires Accounts(transports, receipts, names, billed, report, requested)
    ensures |requested| == report.requests
    ensures n in requested <==> n in names && StandingOf(transports, receipts, n).Eligible?
    ensures n in report.recovered <==> n in requested && billed(n)
    ensures n in report.skipped <==> n in names && StandingOf(transports, receipts, n).HasReceipt?
    ensures n in report.unresolved <==>
              (n in requested && !billed(n)) || (n in names && StandingOf(transports, receipts, n).Refused?)
  {
    hide StandingOf, Reported;
    ReportedExactly(transports, receipts, names, billed, Recovered, n);
    ReportedExactly(transports, receipts, names, billed, Skipped, n);
    ReportedExactly(transports, receipts, names, billed, Unresolved, n);
  }
}
