/** What a trace of transport events proves about whether a request was sent (ima/openrouter_transport.py). */
module Transport {

  datatype Option<+T> = None | Some(value: T)

  datatype Field = Text(text: string) | Number(number: int)

  /** A recorded event; `Malformed` is anything without a textual phase. Absent fields are not in the map. */
  datatype Event = Malformed | Event(phase: string, fields: map<string, Field>)

  datatype Verdict = PossiblyDispatched | UnsentPreflight | UnsentConnect | Unknown

  predicate NotDispatched(v: Verdict) { v == UnsentPreflight || v == UnsentConnect }

  const MARKER := "transport_classification"
  const STARTED := "request_started"
  const FAILED := "request_failed"

  // ---- phases as text ----

  datatype Parts = Parts(before: string, found: bool, after: string)

  /** Split at the first dot. */
  function Partition(s: string): Parts {
    if s == [] then Parts([], false, [])
    else if s[0] == '.' then Parts([], true, s[1..])
    else var rest := Partition(s[1..]); Parts([s[0]] + rest.before, rest.found, rest.after)
  }

  /** Split at the last dot; without one, everything is after it. */
  function RightPartition(s: string): Parts {
    if s == [] then Parts([], false, [])
    else if s[|s|-1] == '.' then Parts(s[..|s|-1], true, [])
    else var rest := RightPartition(s[..|s|-1]); Parts(rest.before, rest.found, rest.after + [s[|s|-1]])
  }

  /** A send or a response has begun, ended or failed: bytes may have left. */
  predicate Sends(phase: string) {
    var first := Partition(phase);
    var last := RightPartition(first.after);
    phase == "response_headers" || phase == "response_complete" ||
    (first.found && first.before in {"http11", "http2"}
     && last.before in {"send_request_headers", "send_request_body", "receive_response_headers", "receive_response_body"}
     && last.after in {"started", "complete", "failed"})
  }

  datatype Operation = Dns | Tcp

  datatype Kind = Close | Start(op: Operation) | Complete(op: Operation) | Fail(op: Operation) | Foreign

  function KindOf(phase: string): Kind {
    var parts := RightPartition(phase);
    if parts.before == "connection.close" && parts.after in {"started", "complete", "failed"} then Close
    else if !parts.found || parts.before !in {"connection.resolve_dns", "connection.connect_tcp"} then Foreign
    else
      var op := if parts.before == "connection.resolve_dns" then Dns else Tcp;
      if parts.after == "started" then Start(op)
      else if parts.after == "failed" then Fail(op)
      else if parts.after == "complete" then Complete(op)
      else Foreign
  }

  // ---- the automaton over connection phases ----

  datatype Scan = Scan(pending: set<Operation>, failed: bool)

  function Step(s: Scan, k: Kind): Option<Scan> {
    match k
    case Close => Some(s)
    case Foreign => None
    case Start(op) => if op in s.pending then None else Some(Scan(s.pending + {op}, false))
    case Fail(op) => if op !in s.pending then None else Some(Scan(s.pending - {op}, op == Tcp))
    case Complete(op) => if op == Tcp || op !in s.pending then None else Some(s.(pending := s.pending - {op}))
  }

  function Scanned(phases: seq<string>): Option<Scan> {
    if phases == [] then Some(Scan({}, false))
    else
      var s := Scanned(phases[..|phases|-1]);
      if s.None? then None else Step(s.value, KindOf(phases[|phases|-1]))
  }

  // ---- the classification ----

  predicate AnySend(events: seq<Event>) {
    exists e | e in events :: e.Event? && Sends(e.phase)
  }

  predicate AnyMalformed(events: seq<Event>) {
    exists e | e in events :: e.Malformed?
  }

  /** Phases in order, earlier verdicts aside. */
  function Phases(events: seq<Event>): seq<string> {
    if events == [] then []
    else
      var rest := Phases(events[..|events|-1]);
      var e := events[|events|-1];
      if e.Event? && e.phase != MARKER then rest + [e.phase] else rest
  }

  predicate NonEmptyText(e: Event, key: string)
    requires e.Event?
  {
    key in e.fields && e.fields[key].Text? && e.fields[key].text != ""
  }

  predicate SameField(a: Event, b: Event, key: string)
    requires a.Event? && b.Event?
  {
    key in a.fields && key in b.fields && a.fields[key] == b.fields[key]
  }

  /** The guard's own refusal, identified identically on both events. */
  predicate Guarded(first: Event, last: Event)
    requires first.Event? && last.Event?
  {
    && "producer" in first.fields && first.fields["producer"] == Text("planner_request_guard")
    && "preflight_version" in first.fields && first.fields["preflight_version"] == Number(1)
    && SameField(first, last, "producer") && SameField(first, last, "preflight_version")
    && SameField(first, last, "decision_id") && SameField(first, last, "evidence_id") && SameField(first, last, "preflight_nonce")
    && NonEmptyText(first, "decision_id") && NonEmptyText(first, "evidence_id") && NonEmptyText(first, "preflight_nonce")
  }

  const PREFLIGHT: seq<string> := [STARTED, "request.preflight_failed"]

  /** The verdict on phases with no send among them. */
  function PhaseVerdict(phases: seq<string>): Verdict {
    if phases == [] || phases[0] != STARTED || phases[|phases|-1] != FAILED || |phases| < 2 then Unknown
    else if STARTED in phases[1..] || FAILED in phases[..|phases|-1] then Unknown
    else
      var s := Scanned(phases[1..|phases|-1]);
      if s.Some? && s.value.failed && s.value.pending == {} then UnsentConnect else Unknown
  }

  function Classify(events: seq<Event>): Verdict {
    var phases := Phases(events);
    if AnySend(events) then PossiblyDispatched
    else if AnyMalformed(events) || phases == [] || phases[0] != STARTED then Unknown
    else if phases == PREFLIGHT && |events| == 2 then
      if events[0].Event? && events[1].Event? && Guarded(events[0], events[1]) then UnsentPreflight else Unknown
    else PhaseVerdict(phases)
  }

  /** Missing evidence proves nothing. */
  function ClassifyTrace(events: Option<seq<Event>>): Verdict {
    if events.None? then Unknown else Classify(events.value)
  }

  // ---- the code's loops ----

  lemma PhasesSnoc(events: seq<Event>, e: Event)
    ensures Phases(events + [e]) == if e.Event? && e.phase != MARKER then Phases(events) + [e.phase] else Phases(events)
  {
    assert (events + [e])[..|events|] == events;
  }

  lemma {:induction false} ScannedFails(phases: seq<string>, n: nat)
    requires n <= |phases| && Scanned(phases[..n]).None?
    ensures Scanned(phases).None?
    decreases |phases|
  {
    if n < |phases| {
      assert phases[..|phases|-1][..n] == phases[..n];
      ScannedFails(phases[..|phases|-1], n);
    } else {
      assert phases[..n] == phases;
    }
  }

  /** The scan over connection phases, with its early refusals. */
  method ScanPhases(phases: seq<string>) returns (unsent: bool)
    ensures unsent <==> Scanned(phases) == Some(Scan({}, true))
  {
    hide KindOf;
    var pending: set<Operation>, failed := {}, false;
    for i := 0 to |phases|
      invariant Scanned(phases[..i]) == Some(Scan(pending, failed))
    {
      assert phases[..i + 1] == phases[..i] + [phases[i]];
      var kind := KindOf(phases[i]);
      if kind.Close? { continue; }
      if kind.Start? && kind.op !in pending {
        pending, failed := pending + {kind.op}, false;
      } else if kind.Fail? && kind.op in pending {
        pending, failed := pending - {kind.op}, kind.op == Tcp;
      } else if kind.Complete? && kind.op == Dns && kind.op in pending {
        pending := pending - {kind.op};
      } else {
        ScannedFails(phases, i + 1);
        return false;
      }
    }
    assert phases[..|phases|] == phases;
    return failed && pending == {};
  }

  /** `classify_transport_attempt` */
  method ClassifyTransportAttempt(events: seq<Event>) returns (verdict: Verdict)
    ensures verdict == Classify(events)
  {
    hide Sends, Scanned, Guarded;
    var phases: seq<string>, incomplete := [], false;
    for i := 0 to |events|
      invariant !AnySend(events[..i]) && incomplete == AnyMalformed(events[..i]) && phases == Phases(events[..i])
    {
      assert events[..i + 1] == events[..i] + [events[i]];
      PhasesSnoc(events[..i], events[i]);
      if events[i].Malformed? {
        incomplete := true;
        continue;
      }
      if Sends(events[i].phase) { return PossiblyDispatched; }
      if events[i].phase != MARKER { phases := phases + [events[i].phase]; }
    }
    assert events[..|events|] == events;
    if incomplete || phases == [] || phases[0] != STARTED { return Unknown; }
    if phases == PREFLIGHT && |events| == 2 {
      return if events[0].Event? && events[1].Event? && Guarded(events[0], events[1]) then UnsentPreflight else Unknown;
    }
    if phases[|phases|-1] != FAILED || |phases| < 2 || STARTED in phases[1..] { return Unknown; }
    if FAILED in phases[..|phases|-1] { return Unknown; }
    var unsent := ScanPhases(phases[1..|phases|-1]);
    return if unsent then UnsentConnect else Unknown;
  }

  // ---- what the verdicts mean ----

  /** Possibly dispatched is exactly: some send or response event is in the trace, whatever else is. */
  lemma PossiblyDispatchedExactly(events: seq<Event>)
    ensures Classify(events) == PossiblyDispatched <==> exists e :: e in events && e.Event? && Sends(e.phase)
  {
    hide Sends, Scanned, Guarded;
  }

  function Count(phases: seq<string>, op: Operation, starts: bool): nat {
    if phases == [] then 0
    else
      var k := KindOf(phases[|phases|-1]);
      Count(phases[..|phases|-1], op, starts)
      + if starts && k == Start(op) then 1 else if !starts && (k == Fail(op) || k == Complete(op)) then 1 else 0
  }

  /** Ended as often as started, or running once. */
  predicate Bounded(phases: seq<string>, op: Operation) {
    Count(phases, op, false) <= Count(phases, op, true) <= Count(phases, op, false) + 1
  }

  /** Known phases only, no connect that succeeded, and starts and ends alternate for each operation. */
  ghost predicate Matched(phases: seq<string>) {
    && (forall i :: 0 <= i < |phases| ==> KindOf(phases[i]) != Foreign && KindOf(phases[i]) != Complete(Tcp))
    && (forall n :: 0 <= n <= |phases| ==> Bounded(phases[..n], Dns) && Bounded(phases[..n], Tcp))
  }

  /** The last failure is a connect, and nothing was started after it. */
  ghost predicate LastFailureIsConnect(phases: seq<string>) {
    exists i :: 0 <= i < |phases| && KindOf(phases[i]) == Fail(Tcp)
      && forall j :: i < j < |phases| ==> !KindOf(phases[j]).Start? && !KindOf(phases[j]).Fail?
  }

  lemma MatchedSnoc(phases: seq<string>, x: string)
    ensures Matched(phases + [x]) <==>
      && Matched(phases) && KindOf(x) != Foreign && KindOf(x) != Complete(Tcp)
      && Bounded(phases + [x], Dns) && Bounded(phases + [x], Tcp)
  {
    hide KindOf, Bounded;
    var all := phases + [x];
    assert all[..|all|] == all;
    forall n | 0 <= n <= |phases| ensures all[..n] == phases[..n] {}
    forall i | 0 <= i < |phases| ensures all[i] == phases[i] {}
    assert all[|phases|] == x;
    if Matched(all) {
      assert Bounded(all[..|all|], Dns) && Bounded(all[..|all|], Tcp);
      forall n | 0 <= n <= |phases| ensures Bounded(phases[..n], Dns) && Bounded(phases[..n], Tcp) {
        assert Bounded(all[..n], Dns) && Bounded(all[..n], Tcp);
      }
      forall i | 0 <= i < |phases| ensures KindOf(phases[i]) != Foreign && KindOf(phases[i]) != Complete(Tcp) {
        assert KindOf(all[i]) == KindOf(phases[i]);
      }
    }
  }

  lemma CountSnoc(phases: seq<string>, x: string, op: Operation, starts: bool)
    ensures Count(phases + [x], op, starts) == Count(phases, op, starts)
      + if starts && KindOf(x) == Start(op) then 1 else if !starts && (KindOf(x) == Fail(op) || KindOf(x) == Complete(op)) then 1 else 0
  {
    hide KindOf;
    assert (phases + [x])[..|phases|] == phases;
  }

  lemma LastFailureSnoc(phases: seq<string>, x: string)
    ensures LastFailureIsConnect(phases + [x]) <==>
      KindOf(x) == Fail(Tcp) || (!KindOf(x).Start? && !KindOf(x).Fail? && LastFailureIsConnect(phases))
  {
    hide KindOf;
    var all := phases + [x];
    assert all[|phases|] == x;
    forall i | 0 <= i < |phases| ensures all[i] == phases[i] {}
  }

  ghost predicate Summary(phases: seq<string>, s: Scan) {
    && (Dns in s.pending <==> Count(phases, Dns, true) == Count(phases, Dns, false) + 1)
    && (Tcp in s.pending <==> Count(phases, Tcp, true) == Count(phases, Tcp, false) + 1)
    && (s.failed <==> LastFailureIsConnect(phases))
  }

  /** The automaton state is a summary of counts and order. */
  lemma {:induction false} ScannedMeaning(phases: seq<string>)
    ensures Scanned(phases).Some? <==> Matched(phases)
    ensures Scanned(phases).Some? ==> Summary(phases, Scanned(phases).value)
  {
    hide KindOf, Matched, Summary;
    if phases == [] {
      EmptyScan(phases);
    } else {
      var n := |phases| - 1;
      assert phases == phases[..n] + [phases[n]];
      ScannedMeaning(phases[..n]);
      if Scanned(phases[..n]).Some? {
        StepMeaning(phases[..n], phases[n], Scanned(phases[..n]).value);
      } else {
        MatchedSnoc(phases[..n], phases[n]);
      }
    }
  }

  lemma StepMeaning(phases: seq<string>, x: string, s: Scan)
    requires Matched(phases) && Summary(phases, s)
    ensures Step(s, KindOf(x)).Some? <==> Matched(phases + [x])
    ensures Step(s, KindOf(x)).Some? ==> Summary(phases + [x], Step(s, KindOf(x)).value)
  {
    hide KindOf, Matched, LastFailureIsConnect, Count;
    MatchedSnoc(phases, x);
    LastFailureSnoc(phases, x);
    CountSnoc(phases, x, Dns, true);
    CountSnoc(phases, x, Dns, false);
    CountSnoc(phases, x, Tcp, true);
    CountSnoc(phases, x, Tcp, false);
    MatchedBounds(phases);
    match KindOf(x)
    case Close =>
    case Foreign =>
    case Start(op) => assert op == Dns || op == Tcp;
    case Fail(op) => assert op == Dns || op == Tcp;
    case Complete(op) => assert op == Dns || op == Tcp;
  }

  lemma MatchedBounds(phases: seq<string>)
    requires Matched(phases)
    ensures Bounded(phases, Dns) && Bounded(phases, Tcp)
  {
    hide KindOf, Bounded;
    assert phases[..|phases|] == phases;
  }

  lemma EmptyScan(phases: seq<string>)
    requires phases == []
    ensures Matched(phases) && Summary(phases, Scan({}, false))
  {}

  /** The connect verdict, independently of the automaton: one start and one failure around fully matched lookups
      and connects, none still running, the last failure being a connect with nothing started after it. */
  ghost predicate ProvenUnsent(events: seq<Event>) {
    var phases := Phases(events);
    && (forall e :: e in events ==> e.Event? && !Sends(e.phase))
    && |phases| >= 2 && phases[0] == STARTED && phases[|phases|-1] == FAILED
    && var middle := phases[1..|phases|-1];
       && Matched(middle) && LastFailureIsConnect(middle)
       && Count(middle, Dns, true) == Count(middle, Dns, false) && Count(middle, Tcp, true) == Count(middle, Tcp, false)
  }

  lemma ForeignTerminals()
    ensures KindOf(STARTED) == Foreign && KindOf(FAILED) == Foreign
  {
    NoDot(STARTED);
    NoDot(FAILED);
  }

  lemma {:induction false} NoDot(s: string)
    requires '.' !in s
    ensures RightPartition(s) == Parts([], false, s)
  {
    if s != [] {
      assert s == s[..|s|-1] + [s[|s|-1]];
      NoDot(s[..|s|-1]);
    }
  }

  lemma MiddleHasNoTerminals(phases: seq<string>)
    requires |phases| >= 2 && Matched(phases[1..|phases|-1]) && phases[0] == STARTED && phases[|phases|-1] == FAILED
    ensures STARTED !in phases[1..] && FAILED !in phases[..|phases|-1]
  {
    hide KindOf, Bounded;
    ForeignTerminals();
    var middle := phases[1..|phases|-1];
    assert phases[1..] == middle + [FAILED];
    assert phases[..|phases|-1] == [STARTED] + middle;
    assert STARTED !in middle && FAILED !in middle;
  }

  /** Outside the guarded preflight pair, not dispatched is exactly a proven connect failure. */
  lemma UnsentExactly(events: seq<Event>)
    ensures Classify(events) == UnsentConnect <==> ProvenUnsent(events)
  {
    hide KindOf, Sends, Scanned, Guarded, Matched, LastFailureIsConnect, Count;
    var phases := Phases(events);
    if |phases| >= 2 && phases[0] == STARTED && phases[|phases|-1] == FAILED {
      var middle := phases[1..|phases|-1];
      ScannedMeaning(middle);
      if Matched(middle) {
        MiddleHasNoTerminals(phases);
        MatchedBounds(middle);
        PendingEmpty(Scanned(middle).value);
      }
    }
  }

  lemma PendingEmpty(s: Scan)
    ensures s.pending == {} <==> Dns !in s.pending && Tcp !in s.pending
  {
    if Dns !in s.pending && Tcp !in s.pending {
      forall op ensures op !in s.pending { match op case Dns => case Tcp => }
    }
  }

  // ---- replaying what was recorded ----

  /** Two traces that differ in nothing the verdict looks at. */
  ghost predicate SameEvidence(a: seq<Event>, b: seq<Event>) {
    && Phases(a) == Phases(b)
    && (AnySend(a) <==> AnySend(b))
    && (AnyMalformed(a) <==> AnyMalformed(b))
  }

  lemma SameVerdict(a: seq<Event>, b: seq<Event>)
    requires SameEvidence(a, b) && Phases(a) != PREFLIGHT
    ensures Classify(a) == Classify(b)
  {
    hide PhaseVerdict, Guarded;
  }

  lemma MarkerIsNoSend()
    ensures !Sends(MARKER)
  {
    hide RightPartition, Partition;
    NoFirstDot(MARKER);
    assert MARKER[0] == 't' && "response_headers"[0] == 'r' && "response_complete"[0] == 'r';
  }

  lemma {:induction false} NoFirstDot(s: string)
    requires '.' !in s
    ensures !Partition(s).found
  {
    if s != [] {
      assert s == [s[0]] + s[1..];
      NoFirstDot(s[1..]);
    }
  }

  lemma AnyAppend(a: seq<Event>, b: seq<Event>)
    ensures AnySend(a + b) <==> AnySend(a) || AnySend(b)
    ensures AnyMalformed(a + b) <==> AnyMalformed(a) || AnyMalformed(b)
  {
    hide Sends;
    forall e ensures e in a + b <==> e in a || e in b {}
  }

  lemma {:induction false} PhasesAppend(a: seq<Event>, b: seq<Event>)
    ensures Phases(a + b) == Phases(a) + Phases(b)
  {
    if b == [] {
      assert a + b == a && Phases(a) + [] == Phases(a);
    } else {
      var n := |b| - 1;
      PhasesAppend(a, b[..n]);
      assert a + b == (a + b[..n]) + [b[n]] && b == b[..n] + [b[n]];
      PhasesSnoc(a + b[..n], b[n]);
      PhasesSnoc(b[..n], b[n]);
      hide Phases;
    }
  }

  /** Recorded verdicts are not evidence: adding one anywhere keeps the verdict, except that the guarded preflight
      pair stops being a pair. */
  lemma MarkersIgnored(before: seq<Event>, marker: Event, after: seq<Event>)
    requires marker.Event? && marker.phase == "transport_classification"
    ensures Classify(before + after) != UnsentPreflight ==> Classify(before + [marker] + after) == Classify(before + after)
    ensures Classify(before + after) == UnsentPreflight ==> Classify(before + [marker] + after) == Unknown
  {
    hide Sends, Guarded, Scanned, AnySend, AnyMalformed, Phases;
    MarkerEvidence(before, marker, after);
    if Phases(before + after) == PREFLIGHT {
      PhasesAtMost(before + after);
      assert |before + [marker] + after| == |before + after| + 1 > 2;
    } else {
      SameVerdict(before + [marker] + after, before + after);
    }
  }

  lemma MarkerEvidence(before: seq<Event>, marker: Event, after: seq<Event>)
    requires marker.Event? && marker.phase == MARKER
    ensures SameEvidence(before + [marker] + after, before + after)
  {
    hide Sends, AnySend, AnyMalformed, Phases;
    AnyAppend(before + [marker], after);
    AnyAppend(before, [marker]);
    AnyAppend(before, after);
    PhasesAppend(before + [marker], after);
    PhasesAppend(before, after);
    PhasesSnoc(before, marker);
    MarkerAlone(marker);
  }

  lemma MarkerAlone(marker: Event)
    requires marker.Event? && marker.phase == MARKER
    ensures !AnySend([marker]) && !AnyMalformed([marker])
  {
    hide Sends;
    MarkerIsNoSend();
  }

  lemma {:induction false} PhasesAtMost(events: seq<Event>)
    ensures |Phases(events)| <= |events|
  {
    if events != [] { PhasesAtMost(events[..|events|-1]); }
  }

  /** A terminal event's other fields play no part. */
  lemma FieldsIgnored(before: seq<Event>, phase: string, fields: map<string, Field>, other: map<string, Field>)
    requires phase == FAILED || phase == "response_complete"
    ensures Classify(before + [Event(phase, fields)]) == Classify(before + [Event(phase, other)])
  {
    hide Sends, Guarded, Scanned, PhaseVerdict;
    var a, b := before + [Event(phase, fields)], before + [Event(phase, other)];
    PhasesSnoc(before, Event(phase, fields));
    PhasesSnoc(before, Event(phase, other));
    AnyAppend(before, [Event(phase, fields)]);
    AnyAppend(before, [Event(phase, other)]);
    assert AnySend([Event(phase, fields)]) <==> AnySend([Event(phase, other)]) by { SingleSend(phase, fields); SingleSend(phase, other); }
    TerminalNotPreflight(Phases(before), phase);
    SameVerdict(a, b);
  }

  lemma SingleSend(phase: string, fields: map<string, Field>)
    ensures AnySend([Event(phase, fields)]) <==> Sends(phase)
    ensures !AnyMalformed([Event(phase, fields)])
  {
    hide Sends;
    assert Event(phase, fields) in [Event(phase, fields)];
  }

  lemma TerminalNotPreflight(phases: seq<string>, phase: string)
    requires phase == FAILED || phase == "response_complete"
    ensures phase != MARKER && phases + [phase] != PREFLIGHT
  {
    assert MARKER[0] == 't' && FAILED[0] == 'r' && "response_complete"[0] == 'r';
    assert PREFLIGHT[1][7] == '.' && FAILED[7] == '_' && "response_complete"[7] == 'e';
    assert (phases + [phase])[|phases|] == phase;
    assert |phases| == 1 ==> (phases + [phase])[1] != PREFLIGHT[1];
  }

  /** The recording client: every event goes to the observer as it is emitted. */
  class Recorder {
    var events: seq<Event>
    var observed: seq<Event>

    constructor ()
      ensures events == [] && observed == []
    {
      events, observed := [], [];
    }

    method Emit(phase: string, fields: map<string, Field>)
      modifies this
      ensures events == old(events) + [Event(phase, fields)] && observed == old(observed) + [Event(phase, fields)]
    {
      events := events + [Event(phase, fields)];
      observed := observed + [Event(phase, fields)];
    }

    /** `finish`: classify with a bare terminal marker, record the verdict, then the terminal event itself. Replaying
        the observed stream gives the live verdict. */
    method Finish(phase: string, fields: map<string, Field>) returns (live: Verdict)
      requires observed == events && (phase == FAILED || phase == "response_complete")
      modifies this
      ensures live == Classify(old(events) + [Event(phase, map[])])
      ensures exists marker: Event :: marker.Event? && marker.phase == MARKER && observed == old(observed) + [marker, Event(phase, fields)]
      ensures observed == events && Classify(observed) == live
    {
      live := ClassifyTransportAttempt(events + [Event(phase, map[])]);
      ghost var before := events;
      ghost var marker := Event(MARKER, VerdictFields(live));
      Emit(MARKER, VerdictFields(live));
      Emit(phase, fields);
      assert observed == before + [marker] + [Event(phase, fields)] == before + [marker, Event(phase, fields)];
      ReplayGivesLiveVerdict(before, marker, phase, fields);
    }
  }

  function VerdictFields(v: Verdict): map<string, Field> {
    match v
    case PossiblyDispatched => map["classification" := Text("possibly_dispatched"), "reason" := Text("http_send_or_response_observed")]
    case UnsentPreflight => map["classification" := Text("not_dispatched"), "reason" := Text("guarded_local_preflight_before_http")]
    case UnsentConnect => map["classification" := Text("not_dispatched"), "reason" := Text("complete_pre_send_connect_failure")]
    case Unknown => map["classification" := Text("unknown"), "reason" := Text("incomplete_or_ambiguous_evidence")]
  }

  lemma ReplayGivesLiveVerdict(before: seq<Event>, marker: Event, phase: string, fields: map<string, Field>)
    requires marker.Event? && marker.phase == MARKER && (phase == FAILED || phase == "response_complete")
    ensures Classify(before + [marker] + [Event(phase, fields)]) == Classify(before + [Event(phase, map[])])
  {
    hide Classify;
    MarkersIgnored(before, marker, [Event(phase, fields)]);
    FieldsIgnored(before, phase, fields, map[]);
    NotPreflight(before, phase, fields);
  }

  lemma NotPreflight(before: seq<Event>, phase: string, fields: map<string, Field>)
    requires phase == FAILED || phase == "response_complete"
    ensures Classify(before + [Event(phase, fields)]) != UnsentPreflight
  {
    hide Sends, Guarded, Scanned, AnySend, AnyMalformed;
    PhasesSnoc(before, Event(phase, fields));
    TerminalNotPreflight(Phases(before), phase);
  }

  // ---- several attempts ----

  /** `classify_transport_attempts`: proven unsent exactly when there is an attempt and every one is proven unsent. */
  method ClassifyTransportAttempts(attempts: Option<seq<Option<seq<Event>>>>) returns (unsent: bool)
    ensures unsent <==> attempts.Some? && attempts.value != [] && forall a :: a in attempts.value ==> ClassifyTrace(a) in {UnsentPreflight, UnsentConnect}
  {
    hide Classify;
    if attempts.None? { return false; }
    var all := true;
    for i := 0 to |attempts.value|
      invariant all <==> forall j :: 0 <= j < i ==> NotDispatched(ClassifyTrace(attempts.value[j]))
    {
      var verdict := Unknown;
      if attempts.value[i].Some? { verdict := ClassifyTransportAttempt(attempts.value[i].value); }
      all := all && NotDispatched(verdict);
    }
    return attempts.value != [] && all;
  }

  /** A sent sibling is enough to keep the aggregate from proving anything. */
  lemma SentSiblingBlocks(attempts: seq<Option<seq<Event>>>, i: nat, e: Event)
    requires i < |attempts| && attempts[i].Some? && e in attempts[i].value && e.Event? && Sends(e.phase)
    ensures !forall a :: a in attempts ==> ClassifyTrace(a) in {UnsentPreflight, UnsentConnect}
  {
    hide Classify, Sends;
    PossiblyDispatchedExactly(attempts[i].value);
    assert attempts[i] in attempts && ClassifyTrace(attempts[i]) !in {UnsentPreflight, UnsentConnect};
  }
}
