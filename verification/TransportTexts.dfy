/** The transport verdicts in the words of the recorded phases (ima/openrouter_transport.py). */
module TransportTexts {
  import opened Transport

  const LOOKUP_STARTED := "connection.resolve_dns.started"
  const LOOKUP_COMPLETE := "connection.resolve_dns.complete"
  const LOOKUP_FAILED := "connection.resolve_dns.failed"
  const CONNECT_STARTED := "connection.connect_tcp.started"
  const CONNECT_COMPLETE := "connection.connect_tcp.complete"
  const CONNECT_FAILED := "connection.connect_tcp.failed"
  const CLOSES: set<string> := {"connection.close.started", "connection.close.complete", "connection.close.failed"}

  lemma {:induction false} SplitsBack(s: string)
    ensures var p := RightPartition(s);
            '.' !in p.after && (if p.found then s == p.before + "." + p.after else p.before == [] && p.after == s)
  {
    if s != [] && s[|s|-1] != '.' {
      SplitsBack(s[..|s|-1]);
      assert s == s[..|s|-1] + [s[|s|-1]];
    } else if s != [] {
      assert s == s[..|s|-1] + ".";
    }
  }

  lemma {:induction false} SplitOf(before: string, after: string)
    requires '.' !in after
    ensures RightPartition(before + "." + after) == Parts(before, true, after)
  {
    var s := before + "." + after;
    if after == [] {
      assert s[..|s|-1] == before;
    } else {
      assert s[..|s|-1] == before + "." + after[..|after|-1];
      SplitOf(before, after[..|after|-1]);
      assert after == after[..|after|-1] + [after[|after|-1]];
    }
  }

  /** A phase splits into an operation and a state exactly when it is their text. */
  lemma SplitExactly(phase: string, operation: string, state: string)
    requires '.' !in state
    ensures RightPartition(phase).found && RightPartition(phase).before == operation && RightPartition(phase).after == state
       <==> phase == operation + "." + state
  {
    SplitsBack(phase);
    SplitOf(operation, state);
  }

  lemma Texts()
    ensures LOOKUP_STARTED == "connection.resolve_dns" + "." + "started"
    ensures LOOKUP_COMPLETE == "connection.resolve_dns" + "." + "complete"
    ensures LOOKUP_FAILED == "connection.resolve_dns" + "." + "failed"
    ensures CONNECT_STARTED == "connection.connect_tcp" + "." + "started"
    ensures CONNECT_COMPLETE == "connection.connect_tcp" + "." + "complete"
    ensures CONNECT_FAILED == "connection.connect_tcp" + "." + "failed"
    ensures "connection.close.started" == "connection.close" + "." + "started"
    ensures "connection.close.complete" == "connection.close" + "." + "complete"
    ensures "connection.close.failed" == "connection.close" + "." + "failed"
  {}

  /** Which text is which operation. */
  lemma KindExactly(phase: string)
    ensures KindOf(phase) == Start(Dns) <==> phase == LOOKUP_STARTED
    ensures KindOf(phase) == Complete(Dns) <==> phase == LOOKUP_COMPLETE
    ensures KindOf(phase) == Fail(Dns) <==> phase == LOOKUP_FAILED
    ensures KindOf(phase) == Start(Tcp) <==> phase == CONNECT_STARTED
    ensures KindOf(phase) == Complete(Tcp) <==> phase == CONNECT_COMPLETE
    ensures KindOf(phase) == Fail(Tcp) <==> phase == CONNECT_FAILED
  {
    Texts();
    SplitExactly(phase, "connection.resolve_dns", "started");
    SplitExactly(phase, "connection.resolve_dns", "complete");
    SplitExactly(phase, "connection.resolve_dns", "failed");
    SplitExactly(phase, "connection.connect_tcp", "started");
    SplitExactly(phase, "connection.connect_tcp", "complete");
    SplitExactly(phase, "connection.connect_tcp", "failed");
    hide RightPartition;
    assert |"connection.close"| == 16 && |"connection.resolve_dns"| == 22;
  }

  lemma CloseExactly(phase: string)
    ensures KindOf(phase) == Close <==> phase in CLOSES
  {
    Texts();
    SplitExactly(phase, "connection.close", "started");
    SplitExactly(phase, "connection.close", "complete");
    SplitExactly(phase, "connection.close", "failed");
    hide RightPartition;
    assert phase in CLOSES <==> phase == "connection.close.started" || phase == "connection.close.complete" || phase == "connection.close.failed";
    var p := RightPartition(phase);
    if KindOf(phase) == Close {
      assert p.found by { SplitsBack(phase); NoDotClose(phase, p); }
    }
  }

  lemma NoDotClose(phase: string, p: Parts)
    requires p.before == "connection.close" && (p.found || p.before == [])
    ensures p.found
  {
    assert |"connection.close"| == 16;
  }

  // ---- an unsent connect, read from the recorded phases ----

  const LOOKUPS: set<string> := {LOOKUP_STARTED, LOOKUP_COMPLETE, LOOKUP_FAILED}

  /** How often one of these texts was recorded. */
  function Times(phases: seq<string>, texts: set<string>): nat {
    if phases == [] then 0 else Times(phases[..|phases|-1], texts) + if phases[|phases|-1] in texts then 1 else 0
  }

  /** Every lookup and connect began before it ended, and ended before the next one began. */
  ghost predicate Alternating(phases: seq<string>) {
    forall n :: 0 <= n <= |phases| ==>
      && Times(phases[..n], {LOOKUP_COMPLETE, LOOKUP_FAILED}) <= Times(phases[..n], {LOOKUP_STARTED})
           <= Times(phases[..n], {LOOKUP_COMPLETE, LOOKUP_FAILED}) + 1
      && Times(phases[..n], {CONNECT_FAILED}) <= Times(phases[..n], {CONNECT_STARTED}) <= Times(phases[..n], {CONNECT_FAILED}) + 1
  }

  /** Nothing but lookups, connects and closes; no connect succeeded; none is running at the end; and after the last
      connect failed nothing else was started or failed. */
  ghost predicate ConnectFailed(phases: seq<string>) {
    && (forall i :: 0 <= i < |phases| ==> phases[i] in LOOKUPS || phases[i] in {CONNECT_STARTED, CONNECT_FAILED} || phases[i] in CLOSES)
    && Alternating(phases)
    && Times(phases, {LOOKUP_STARTED}) == Times(phases, {LOOKUP_COMPLETE, LOOKUP_FAILED})
    && Times(phases, {CONNECT_STARTED}) == Times(phases, {CONNECT_FAILED})
    && LastFailedConnect(phases)
  }

  ghost predicate LastFailedConnect(phases: seq<string>) {
    exists i :: 0 <= i < |phases| && phases[i] == CONNECT_FAILED
      && forall j :: i < j < |phases| ==> phases[j] !in {LOOKUP_STARTED, CONNECT_STARTED, LOOKUP_FAILED, CONNECT_FAILED}
  }

  lemma Known(phase: string)
    ensures KindOf(phase) != Foreign && KindOf(phase) != Complete(Tcp)
       <==> phase in LOOKUPS || phase in {CONNECT_STARTED, CONNECT_FAILED} || phase in CLOSES
  {
    hide KindOf;
    KindExactly(phase);
    CloseExactly(phase);
    var k := KindOf(phase);
    match k
    case Close => case Foreign =>
    case Start(op) => assert op == Dns || op == Tcp;
    case Fail(op) => assert op == Dns || op == Tcp;
    case Complete(op) => assert op == Dns || op == Tcp;
  }

  lemma BeginsOrFails(phase: string)
    ensures KindOf(phase).Start? || KindOf(phase).Fail? <==> phase in {LOOKUP_STARTED, CONNECT_STARTED, LOOKUP_FAILED, CONNECT_FAILED}
  {
    hide KindOf;
    KindExactly(phase);
    var k := KindOf(phase);
    match k
    case Close => case Foreign => case Complete(op) =>
    case Start(op) => assert op == Dns || op == Tcp;
    case Fail(op) => assert op == Dns || op == Tcp;
  }

  lemma {:induction false} CountsAreTimes(phases: seq<string>)
    ensures Count(phases, Dns, true) == Times(phases, {LOOKUP_STARTED})
    ensures Count(phases, Dns, false) == Times(phases, {LOOKUP_COMPLETE, LOOKUP_FAILED})
    ensures Count(phases, Tcp, true) == Times(phases, {CONNECT_STARTED})
    ensures (forall i :: 0 <= i < |phases| ==> KindOf(phases[i]) != Complete(Tcp)) ==> Count(phases, Tcp, false) == Times(phases, {CONNECT_FAILED})
  {
    hide KindOf;
    if phases != [] {
      CountsAreTimes(phases[..|phases|-1]);
      KindExactly(phases[|phases|-1]);
    }
  }

  lemma MatchedTexts(phases: seq<string>)
    requires forall i :: 0 <= i < |phases| ==> KindOf(phases[i]) != Foreign && KindOf(phases[i]) != Complete(Tcp)
    ensures Matched(phases) <==> Alternating(phases)
  {
    hide KindOf, Count, Times;
    forall n | 0 <= n <= |phases|
      ensures Bounded(phases[..n], Dns) && Bounded(phases[..n], Tcp) <==>
        && Times(phases[..n], {LOOKUP_COMPLETE, LOOKUP_FAILED}) <= Times(phases[..n], {LOOKUP_STARTED})
             <= Times(phases[..n], {LOOKUP_COMPLETE, LOOKUP_FAILED}) + 1
        && Times(phases[..n], {CONNECT_FAILED}) <= Times(phases[..n], {CONNECT_STARTED}) <= Times(phases[..n], {CONNECT_FAILED}) + 1
    {
      CountsAreTimes(phases[..n]);
    }
    hide Bounded;
  }

  lemma LastFailureTexts(phases: seq<string>)
    ensures LastFailureIsConnect(phases) <==> LastFailedConnect(phases)
  {
    hide KindOf;
    forall i | 0 <= i < |phases|
      ensures KindOf(phases[i]) == Fail(Tcp) <==> phases[i] == CONNECT_FAILED
      ensures KindOf(phases[i]).Start? || KindOf(phases[i]).Fail? <==> phases[i] in {LOOKUP_STARTED, CONNECT_STARTED, LOOKUP_FAILED, CONNECT_FAILED}
    {
      KindExactly(phases[i]);
      BeginsOrFails(phases[i]);
    }
  }

  lemma MiddleTexts(phases: seq<string>)
    ensures ConnectFailed(phases) <==>
      && Matched(phases) && LastFailureIsConnect(phases)
      && Count(phases, Dns, true) == Count(phases, Dns, false) && Count(phases, Tcp, true) == Count(phases, Tcp, false)
  {
    hide KindOf, Count, Times, Alternating, Bounded, LastFailureIsConnect, LOOKUPS, CLOSES;
    forall i | 0 <= i < |phases|
      ensures KindOf(phases[i]) != Foreign && KindOf(phases[i]) != Complete(Tcp)
         <==> phases[i] in LOOKUPS || phases[i] in {CONNECT_STARTED, CONNECT_FAILED} || phases[i] in CLOSES
    {
      Known(phases[i]);
    }
    CountsAreTimes(phases);
    LastFailureTexts(phases);
    if forall i :: 0 <= i < |phases| ==> KindOf(phases[i]) != Foreign && KindOf(phases[i]) != Complete(Tcp) {
      MatchedTexts(phases);
    }
  }

  // ---- sends and the guarded refusal, likewise ----

  /** A text that tells of a request or a response under way. */
  ghost predicate SendText(phase: string) {
    phase == "response_headers" || phase == "response_complete" ||
    exists protocol, operation, state :: phase == Joined(protocol, operation, state)
      && (protocol == "http11" || protocol == "http2")
      && operation in {"send_request_headers", "send_request_body", "receive_response_headers", "receive_response_body"}
      && state in {"started", "complete", "failed"}
  }

  function Joined(protocol: string, operation: string, state: string): string {
    protocol + "." + (operation + "." + state)
  }

  lemma {:induction false} FirstSplitsBack(s: string)
    ensures var p := Partition(s);
            '.' !in p.before && (if p.found then s == p.before + "." + p.after else p.before == s && p.after == [])
  {
    if s != [] {
      assert s == [s[0]] + s[1..];
      if s[0] != '.' { FirstSplitsBack(s[1..]); }
    }
  }

  lemma {:induction false} FirstSplitOf(before: string, after: string)
    requires '.' !in before
    ensures Partition(before + "." + after) == Parts(before, true, after)
  {
    var s := before + "." + after;
    if before == [] {
      assert s[1..] == after;
    } else {
      assert s[1..] == before[1..] + "." + after;
      FirstSplitOf(before[1..], after);
      assert before == [before[0]] + before[1..];
    }
  }

  lemma SendsExactly(phase: string)
    ensures Sends(phase) <==> SendText(phase)
  {
    hide Partition, RightPartition;
    var first := Partition(phase);
    var last := RightPartition(first.after);
    FirstSplitsBack(phase);
    SplitsBack(first.after);
    if Sends(phase) && phase != "response_headers" && phase != "response_complete" {
      assert phase == Joined(first.before, last.before, last.after);
    }
    forall protocol, operation, state | phase == Joined(protocol, operation, state) && '.' !in protocol && '.' !in state
      ensures first == Parts(protocol, true, operation + "." + state) && last == Parts(operation, true, state)
    {
      FirstSplitOf(protocol, operation + "." + state);
      SplitOf(operation, state);
    }
  }

  /** Possibly dispatched exactly when one of these texts was recorded. */
  lemma DispatchedInTexts(events: seq<Event>)
    ensures Classify(events) == PossiblyDispatched <==> exists e :: e in events && e.Event? && SendText(e.phase)
  {
    hide Sends, Classify, SendText;
    PossiblyDispatchedExactly(events);
    forall e | e in events && e.Event? ensures Sends(e.phase) <==> SendText(e.phase) { SendsExactly(e.phase); }
  }

  lemma PlainPhases(a: Event, b: Event)
    ensures Phases([a, b]) == PREFLIGHT <==>
      a.Event? && b.Event? && a.phase == "request_started" && b.phase == "request.preflight_failed"
  {
    PhasesSnoc([], a);
    PhasesSnoc([a], b);
    assert [] + [a] == [a] && [a] + [b] == [a, b];
    assert PREFLIGHT[0] == "request_started" && PREFLIGHT[1] == "request.preflight_failed";
    assert MARKER[0] == 't' && PREFLIGHT[0][0] == 'r' && PREFLIGHT[1][0] == 'r';
    hide Phases;
    if a.Event? && b.Event? && a.phase == PREFLIGHT[0] && b.phase == PREFLIGHT[1] {
      assert Phases([a]) == [a.phase] && Phases([a, b]) == [a.phase] + [b.phase] == PREFLIGHT;
    }
  }

  lemma PlainIsNoSend(a: Event, b: Event)
    requires a.Event? && b.Event? && a.phase == "request_started" && b.phase == "request.preflight_failed"
    ensures !AnySend([a, b]) && !AnyMalformed([a, b])
  {
    hide Sends;
    StartIsNoSend(a.phase);
    RefusalIsNoSend(b.phase);
  }

  lemma StartIsNoSend(phase: string)
    requires phase == "request_started"
    ensures !Sends(phase)
  {
    hide Partition, RightPartition;
    NoFirstDot(phase);
    assert phase[2] == 'q' && "response_headers"[2] == 's' && "response_complete"[2] == 's';
  }

  lemma RefusalIsNoSend(phase: string)
    requires phase == "request.preflight_failed"
    ensures !Sends(phase)
  {
    hide Partition, RightPartition;
    assert phase == "request" + "." + "preflight_failed";
    FirstSplitOf("request", "preflight_failed");
    assert |"request"| == 7 && |"http11"| == 6 && |"http2"| == 5;
    assert phase[2] == 'q' && "response_headers"[2] == 's' && "response_complete"[2] == 's';
  }

  /** The second event repeats the identity the guard wrote into the first. */
  ghost predicate OneRefusal(guard: map<string, Field>, repeated: map<string, Field>) {
    && (forall key :: key in {"producer", "preflight_version", "decision_id", "evidence_id", "preflight_nonce"} ==>
          key in guard && key in repeated && guard[key] == repeated[key])
    && guard["producer"] == Text("planner_request_guard") && guard["preflight_version"] == Number(1)
    && forall key :: key in {"decision_id", "evidence_id", "preflight_nonce"} ==> guard[key].Text? && guard[key].text != ""
  }

  lemma GuardedExactly(first: Event, last: Event)
    requires first.Event? && last.Event?
    ensures Guarded(first, last) <==> OneRefusal(first.fields, last.fields)
  {
    var keys: set<string> := {"producer", "preflight_version", "decision_id", "evidence_id", "preflight_nonce"};
    var texts: set<string> := {"decision_id", "evidence_id", "preflight_nonce"};
    assert "producer" in keys && "preflight_version" in keys && "decision_id" in keys && "evidence_id" in keys && "preflight_nonce" in keys;
    assert "decision_id" in texts && "evidence_id" in texts && "preflight_nonce" in texts;
  }

  /** The guarded refusal: exactly these two events, identified alike. */
  lemma PreflightExactly(events: seq<Event>)
    ensures Classify(events) == UnsentPreflight <==>
      && |events| == 2 && events[0].Event? && events[1].Event?
      && events[0].phase == "request_started" && events[1].phase == "request.preflight_failed"
      && OneRefusal(events[0].fields, events[1].fields)
  {
    assert PREFLIGHT[0] == STARTED;
    hide PhaseVerdict, Guarded, OneRefusal, AnySend, AnyMalformed, Phases, PREFLIGHT;
    if |events| == 2 {
      assert events == [events[0], events[1]];
      PlainPhases(events[0], events[1]);
      if events[0].Event? && events[1].Event? {
        GuardedExactly(events[0], events[1]);
        if events[0].phase == "request_started" && events[1].phase == "request.preflight_failed" {
          PlainIsNoSend(events[0], events[1]);
        }
      }
    }
    VerdictKinds(Phases(events));
  }

  lemma VerdictKinds(phases: seq<string>)
    ensures PhaseVerdict(phases) == Unknown || PhaseVerdict(phases) == UnsentConnect
  {
    hide Scanned;
  }

  /** The connect verdict over recorded texts: nothing malformed or sent, and between the start and the failure of the
      request nothing but failed connects. */
  lemma UnsentInTexts(events: seq<Event>)
    ensures Classify(events) == UnsentConnect <==>
      && (forall e :: e in events ==> e.Event? && !SendText(e.phase))
      && var phases := Phases(events);
         |phases| >= 2 && phases[0] == "request_started" && phases[|phases|-1] == "request_failed" && ConnectFailed(phases[1..|phases|-1])
  {
    hide Sends, SendText, Classify, ConnectFailed, Matched, LastFailureIsConnect, Count, Phases;
    UnsentExactly(events);
    forall e | e in events && e.Event? ensures Sends(e.phase) <==> SendText(e.phase) { SendsExactly(e.phase); }
    var phases := Phases(events);
    if |phases| >= 2 { MiddleTexts(phases[1..|phases|-1]); }
  }
}
