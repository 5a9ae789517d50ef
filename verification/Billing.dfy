/** Bounded recovery of missing billing receipts, run after run (ima/openrouter_billing.py). */
module Billing {
  import opened Sums

  datatype Option<+T> = None | Some(value: T)

  /** Physical attempts, by the position of their file names in sorted order. */
  type Name = int

  datatype Generation = Text(text: string) | Other(code: int)

  datatype Event = NotARecord | Record(phase: string, generation: Option<Generation>)

  /** A transport file; no content if it cannot be read as a record holding a list of events. */
  datatype Attempt = Attempt(symlink: bool, wellNamed: bool, content: Option<seq<Event>>)

  /** Existing receipts with the generation they bill, where that can be read. */
  type Receipts = map<Name, Option<string>>

  type Transports = map<Name, Attempt>

  // ---- which attempts may be asked about ----

  predicate Present(e: Event) {
    e.Record? && e.generation.Some? && e.generation.value != Text("") && e.generation.value != Other(0)
  }

  predicate Mentions(a: Attempt, id: string) {
    id != "" && !a.symlink && a.content.Some? && exists e | e in a.content.value :: e.Record? && e.generation == Some(Text(id))
  }

  /** The physical attempts, in either directory, carrying a generation. */
  function Owners(transports: Transports, receipts: Receipts, id: string): set<Name> {
    (set n | n in transports && Mentions(transports[n], id)) + (set n | n in receipts && receipts[n] == Some(id))
  }

  function Identities(events: seq<Event>): set<Generation> {
    set e | e in events && Present(e) :: e.generation.value
  }

  function FirstIdentity(events: seq<Event>): (g: Option<Generation>)
    ensures g.Some? ==> g.value in Identities(events)
    ensures g.None? ==> Identities(events) == {}
  {
    if events == [] then None
    else if Present(events[0]) then events[0].generation
    else
      assert events == [events[0]] + events[1..];
      FirstIdentity(events[1..])
  }

  predicate WellFormed(id: string) {
    |id| > 4 && id[..4] == "gen-" &&
    forall i | 4 <= i < |id| :: 'A' <= id[i] <= 'Z' || 'a' <= id[i] <= 'z' || '0' <= id[i] <= '9' || id[i] == '_' || id[i] == '-'
  }

  datatype Standing = Refused | HasReceipt | NothingYet | Eligible(id: string)

  function StandingOf(transports: Transports, receipts: Receipts, n: Name): Standing
    requires n in transports
  {
    var a := transports[n];
    if a.symlink || !a.wellNamed then Refused
    else if n in receipts then HasReceipt
    else if a.content.None? || (exists e | e in a.content.value :: e.NotARecord?) then Refused
    else
      var events := a.content.value;
      var ids := Identities(events);
      var first := FirstIdentity(events);
      if first.None? then NothingYet
      else if |ids| != 1 then Refused
      else if events == [] || events[|events|-1] == NotARecord || events[|events|-1].phase != "request_failed" then NothingYet
      else
        var g := first.value;
        if !g.Text? || !WellFormed(g.text) || |Owners(transports, receipts, g.text)| != 1 then Refused
        else Eligible(g.text)
  }

  // ---- the rotation ----

  ghost predicate Ascending(paths: seq<Name>) {
    forall i, j :: 0 <= i < j < |paths| ==> paths[i] < paths[j]
  }

  /** How many names are at or before the cursor. */
  function Cut(paths: seq<Name>, last: Option<Name>): (j: nat)
    ensures j <= |paths|
  {
    if paths == [] || last.None? then 0
    else if paths[0] <= last.value then 1 + Cut(paths[1..], last)
    else 0
  }

  /** Names after the cursor first, then the others. */
  function Rotate(paths: seq<Name>, last: Option<Name>): seq<Name> {
    paths[Cut(paths, last)..] + paths[..Cut(paths, last)]
  }

  function EligibleAmong(transports: Transports, receipts: Receipts, names: seq<Name>): (found: seq<Name>)
    requires forall n :: n in names ==> n in transports
    ensures forall n :: n in found <==> n in names && StandingOf(transports, receipts, n).Eligible?
  {
    if names == [] then []
    else
      assert names == names[..|names|-1] + [names[|names|-1]];
      var found := EligibleAmong(transports, receipts, names[..|names|-1]);
      if StandingOf(transports, receipts, names[|names|-1]).Eligible? then found + [names[|names|-1]] else found
  }

  datatype Fate = Recovered | Skipped | Unresolved | Passed

  /** What one visited attempt is reported as, given whether the provider returned a final charge for it. */
  function FateOf(s: Standing, billed: bool): Fate {
    match s
    case Refused => Unresolved
    case HasReceipt => Skipped
    case NothingYet => Passed
    case Eligible(_) => if billed then Recovered else Unresolved
  }

  function Reported(transports: Transports, receipts: Receipts, names: seq<Name>, billed: Name -> bool, fate: Fate): seq<Name>
    requires forall n :: n in names ==> n in transports
  {
    if names == [] then []
    else
      assert names == names[..|names|-1] + [names[|names|-1]];
      var rest := Reported(transports, receipts, names[..|names|-1], billed, fate);
      var n := names[|names|-1];
      if FateOf(StandingOf(transports, receipts, n), billed(n)) == fate then rest + [n] else rest
  }

  /** Receipts after a run: for every requested attempt the provider billed, its own generation. */
  ghost predicate Updated(transports: Transports, before: Receipts, after: Receipts, requested: seq<Name>, billed: Name -> bool)
    requires forall n :: n in requested ==> n in transports
  {
    && (forall n :: n in after <==> n in before || (n in requested && billed(n)))
    && (forall n :: n in before ==> n in after && after[n] == before[n])
    && (forall n :: n in requested && billed(n) ==>
          StandingOf(transports, before, n).Eligible? && after[n] == Some(StandingOf(transports, before, n).id))
  }

  datatype Report = Report(recovered: seq<Name>, skipped: seq<Name>, unresolved: seq<Name>, requests: nat)

  class Recovery {
    const transports: Transports
    const paths: seq<Name>
    var receipts: Receipts
    var cursor: Option<Name>

    constructor (transports: Transports, paths: seq<Name>, receipts: Receipts, cursor: Option<Name>)
      requires Ascending(paths) && forall n :: n in paths <==> n in transports
      ensures this.transports == transports && this.paths == paths && this.receipts == receipts && this.cursor == cursor
    {
      this.transports, this.paths, this.receipts, this.cursor := transports, paths, receipts, cursor;
    }

    ghost predicate Valid()
      reads this
    {
      Ascending(paths) && forall n :: n in paths <==> n in transports
    }

    /** One bounded pass. `billed` is what the provider answers this time: whether it returns a final, valid charge. */
    method Reconcile(maxRequests: nat, billed: Name -> bool) returns (report: Report, requested: seq<Name>, visited: nat)
      requires Valid() && 1 <= maxRequests <= 3
      modifies this
      ensures Valid()
      ensures var order := Rotate(paths, old(cursor));
        && visited <= |order| && (visited < |order| ==> |requested| == maxRequests)
        && |requested| <= maxRequests
        && Accounts(transports, old(receipts), order[..visited], billed, report, requested)
        && (visited < |order| ==> order[visited] in transports && StandingOf(transports, old(receipts), order[visited]).Eligible?)
      ensures (forall n :: n in requested ==> n in transports) && Updated(transports, old(receipts), receipts, requested, billed)
      ensures cursor == LastOr(requested, old(cursor))
    {
      hide StandingOf, Rotate, Accounts, Updated, LastOr;
      var start := receipts;
      var order := Rotate(paths, cursor);
      RotateMembers(paths, cursor);
      report, requested, visited := Report([], [], [], 0), [], 0;
      NothingDone(transports, receipts, order[..0], billed, report, requested, cursor);
      var last := cursor;
      while visited < |order|
        invariant visited <= |order| && report.requests <= maxRequests && cursor == old(cursor)
        invariant Accounts(transports, start, order[..visited], billed, report, requested)
        invariant (forall n :: n in requested ==> n in transports) && Updated(transports, start, receipts, requested, billed)
        invariant last == LastOr(requested, cursor)
      {
        var n := order[visited];
        assert order[..visited + 1] == order[..visited] + [n];
        var standing := StandingOf(transports, start, n);
        Counted(transports, start, order[..visited], billed, report, requested);
        if standing.Eligible? && report.requests >= maxRequests { break; }
        AccountsSnoc(transports, start, order[..visited], n, billed, report, requested);
        match standing {
          case Refused => report := report.(unresolved := report.unresolved + [n]);
          case HasReceipt => report := report.(skipped := report.skipped + [n]);
          case NothingYet =>
          case Eligible(id) =>
            UpdatedSnoc(transports, start, receipts, requested, n, billed);
            LastSnoc(requested, n, cursor);
            last, requested := Some(n), requested + [n];
            if billed(n) {
              receipts := receipts[n := Some(id)];
              report := report.(requests := report.requests + 1, recovered := report.recovered + [n]);
            } else {
              report := report.(requests := report.requests + 1, unresolved := report.unresolved + [n]);
            }
        }
        visited := visited + 1;
      }
      Counted(transports, start, order[..visited], billed, report, requested);
      cursor := last;
    }
  }

  function LastOr(requested: seq<Name>, cursor: Option<Name>): Option<Name> {
    if requested == [] then cursor else Some(requested[|requested|-1])
  }

  lemma LastSnoc(requested: seq<Name>, n: Name, cursor: Option<Name>)
    ensures LastOr(requested + [n], cursor) == Some(n)
  {}

  /** What a pass over `names` has requested and reported. */
  ghost predicate Accounts(transports: Transports, receipts: Receipts, names: seq<Name>, billed: Name -> bool, report: Report, requested: seq<Name>) {
    && (forall n :: n in names ==> n in transports)
    && requested == EligibleAmong(transports, receipts, names) && |requested| == report.requests
    && report.recovered == Reported(transports, receipts, names, billed, Recovered)
    && report.skipped == Reported(transports, receipts, names, billed, Skipped)
    && report.unresolved == Reported(transports, receipts, names, billed, Unresolved)
  }

  lemma Counted(transports: Transports, receipts: Receipts, names: seq<Name>, billed: Name -> bool, report: Report, requested: seq<Name>)
    requires Accounts(transports, receipts, names, billed, report, requested)
    ensures |requested| == report.requests
  {}

  lemma NothingDone(transports: Transports, receipts: Receipts, names: seq<Name>, billed: Name -> bool, report: Report, requested: seq<Name>, cursor: Option<Name>)
    requires names == [] && report == Report([], [], [], 0) && requested == []
    ensures Accounts(transports, receipts, names, billed, report, requested)
    ensures Updated(transports, receipts, receipts, requested, billed) && LastOr(requested, cursor) == cursor
  {}

  /** The report after one more visited attempt. */
  function Extended(s: Standing, n: Name, billed: bool, report: Report): Report {
    match FateOf(s, billed)
    case Unresolved => report.(unresolved := report.unresolved + [n], requests := report.requests + if s.Eligible? then 1 else 0)
    case Skipped => report.(skipped := report.skipped + [n])
    case Recovered => report.(recovered := report.recovered + [n], requests := report.requests + 1)
    case Passed => report
  }

  lemma AccountsSnoc(transports: Transports, receipts: Receipts, names: seq<Name>, n: Name, billed: Name -> bool, report: Report, requested: seq<Name>)
    requires n in transports && Accounts(transports, receipts, names, billed, report, requested)
    ensures var s := StandingOf(transports, receipts, n);
      Accounts(transports, receipts, names + [n], billed, Extended(s, n, billed(n), report), if s.Eligible? then requested + [n] else requested)
  {
    hide StandingOf;
    EligibleSnoc(transports, receipts, names, n);
  }

  lemma RotateMembers(paths: seq<Name>, last: Option<Name>)
    ensures forall n :: n in Rotate(paths, last) <==> n in paths
    ensures |Rotate(paths, last)| == |paths|
  {
    var j := Cut(paths, last);
    assert paths == paths[..j] + paths[j..];
  }

  lemma EligibleSnoc(transports: Transports, receipts: Receipts, names: seq<Name>, n: Name)
    requires n in transports && forall m :: m in names ==> m in transports
    ensures EligibleAmong(transports, receipts, names + [n]) ==
      if StandingOf(transports, receipts, n).Eligible? then EligibleAmong(transports, receipts, names) + [n]
      else EligibleAmong(transports, receipts, names)
  {
    hide StandingOf;
    assert (names + [n])[..|names|] == names;
  }

  lemma UpdatedSnoc(transports: Transports, before: Receipts, after: Receipts, requested: seq<Name>, n: Name, billed: Name -> bool)
    requires n in transports && forall m :: m in requested ==> m in transports
    requires Updated(transports, before, after, requested, billed) && StandingOf(transports, before, n).Eligible?
    ensures Updated(transports, before, if billed(n) then after[n := Some(StandingOf(transports, before, n).id)] else after, requested + [n], billed)
  {
    hide StandingOf;
    assert n !in before by { EligibleHasNone(transports, before, n); }
  }

  lemma EligibleHasNone(transports: Transports, receipts: Receipts, n: Name)
    requires n in transports && StandingOf(transports, receipts, n).Eligible?
    ensures n !in receipts
  {}
}
