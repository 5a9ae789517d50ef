/** What repeated billing recovery guarantees: nothing twice in a run, nothing overwritten, nothing left waiting
    (ima/openrouter_billing.py). */
module BillingFairness {
  import opened Sums
  import opened Billing

  // ---- a run takes the front of a queue ----

  lemma {:induction false} EligibleAppend(transports: Transports, receipts: Receipts, a: seq<Name>, b: seq<Name>)
    requires forall n :: n in a + b ==> n in transports
    ensures (forall n :: n in a ==> n in transports) && (forall n :: n in b ==> n in transports)
    ensures EligibleAmong(transports, receipts, a + b)
         == EligibleAmong(transports, receipts, a) + EligibleAmong(transports, receipts, b)
  {
    hide StandingOf;
    forall n | n in a ensures n in transports { assert n in a + b; }
    forall n | n in b ensures n in transports { assert n in a + b; }
    if b == [] {
      assert a + b == a;
    } else {
      var m := |b| - 1;
      assert a + b == (a + b[..m]) + [b[m]];
      EligibleAppend(transports, receipts, a, b[..m]);
      EligibleSnoc(transports, receipts, a + b[..m], b[m]);
      assert b == b[..m] + [b[m]];
      EligibleSnoc(transports, receipts, b[..m], b[m]);
    }
  }

  ghost predicate Covered(transports: Transports, paths: seq<Name>) {
    Ascending(paths) && forall n :: n in paths ==> n in transports
  }

  /** The eligible attempts in the order the next run will meet them. */
  ghost function Queue(transports: Transports, paths: seq<Name>, receipts: Receipts, cursor: Option<Name>): seq<Name>
    requires Covered(transports, paths)
  {
    RotateMembers(paths, cursor);
    EligibleAmong(transports, receipts, Rotate(paths, cursor))
  }

  ghost predicate Prefix(xs: seq<Name>, ys: seq<Name>) {
    |xs| <= |ys| && xs == ys[..|xs|]
  }

  /** What `Reconcile` ensures about its requests: they are the front of the queue, as long as the budget allows. */
  lemma RequestsAreFront(transports: Transports, paths: seq<Name>, receipts: Receipts, cursor: Option<Name>, visited: nat, requested: seq<Name>, maxRequests: nat)
    requires Covered(transports, paths) && visited <= |Rotate(paths, cursor)|
    requires (forall n :: n in Rotate(paths, cursor)[..visited] ==> n in transports)
    requires requested == EligibleAmong(transports, receipts, Rotate(paths, cursor)[..visited])
    requires |requested| <= maxRequests && (visited < |Rotate(paths, cursor)| ==> |requested| == maxRequests)
    ensures Prefix(requested, Queue(transports, paths, receipts, cursor))
    ensures |requested| == maxRequests || requested == Queue(transports, paths, receipts, cursor)
  {
    hide Rotate;
    RotateMembers(paths, cursor);
    var order := Rotate(paths, cursor);
    assert order == order[..visited] + order[visited..];
    EligibleAppend(transports, receipts, order[..visited], order[visited..]);
    if visited == |order| { assert order[..visited] == order; }
  }

  lemma {:induction false} EligibleDistinct(transports: Transports, receipts: Receipts, names: seq<Name>)
    requires Distinct(names) && forall n :: n in names ==> n in transports
    ensures Distinct(EligibleAmong(transports, receipts, names))
  {
    hide StandingOf;
    if names != [] {
      var m := |names| - 1;
      assert names == names[..m] + [names[m]];
      EligibleDistinct(transports, receipts, names[..m]);
      var found := EligibleAmong(transports, receipts, names[..m]);
      forall i | 0 <= i < |found| ensures found[i] != names[m] { assert found[i] in found; }
    }
  }

  lemma RotateDistinct(paths: seq<Name>, cursor: Option<Name>)
    requires Ascending(paths)
    ensures Distinct(Rotate(paths, cursor))
  {
    var j := Cut(paths, cursor);
    DistinctAppend(paths[j..], paths[..j]);
  }

  /** No attempt is asked about twice in one run. */
  lemma NoneTwice(transports: Transports, paths: seq<Name>, receipts: Receipts, cursor: Option<Name>)
    requires Covered(transports, paths)
    ensures Distinct(Queue(transports, paths, receipts, cursor))
  {
    RotateMembers(paths, cursor);
    RotateDistinct(paths, cursor);
    EligibleDistinct(transports, receipts, Rotate(paths, cursor));
  }

  // ---- receipts written by a run change nothing for the others ----

  lemma EligibleMentions(transports: Transports, receipts: Receipts, n: Name)
    requires n in transports && StandingOf(transports, receipts, n).Eligible?
    ensures Mentions(transports[n], StandingOf(transports, receipts, n).id)
  {
    hide Owners;
    var a := transports[n];
    var id := StandingOf(transports, receipts, n).id;
    assert Text(id) in Identities(a.content.value);
    var e :| e in a.content.value && Present(e) && e.generation.value == Text(id);
  }

  lemma OwnersKept(transports: Transports, before: Receipts, after: Receipts, requested: seq<Name>, billed: Name -> bool, id: string)
    requires (forall n :: n in requested ==> n in transports) && Updated(transports, before, after, requested, billed)
    ensures Owners(transports, after, id) == Owners(transports, before, id)
  {
    hide StandingOf, Mentions;
    forall n ensures n in Owners(transports, after, id) <==> n in Owners(transports, before, id) {
      if n in after && n !in before { EligibleMentions(transports, before, n); }
    }
  }

  lemma OthersKeepStanding(transports: Transports, before: Receipts, after: Receipts, requested: seq<Name>, billed: Name -> bool, n: Name)
    requires (forall m :: m in requested ==> m in transports) && Updated(transports, before, after, requested, billed)
    requires n in transports && n !in requested
    ensures StandingOf(transports, after, n) == StandingOf(transports, before, n)
  {
    hide Updated, Owners;
    UpdatedOutside(transports, before, after, requested, billed, n);
    forall id ensures Owners(transports, after, id) == Owners(transports, before, id) { OwnersKept(transports, before, after, requested, billed, id); }
  }

  lemma UpdatedOutside(transports: Transports, before: Receipts, after: Receipts, requested: seq<Name>, billed: Name -> bool, n: Name)
    requires (forall m :: m in requested ==> m in transports) && Updated(transports, before, after, requested, billed) && n !in requested
    ensures n in after <==> n in before
  {}

  lemma {:induction false} OthersKeepOrder(transports: Transports, before: Receipts, after: Receipts, requested: seq<Name>, billed: Name -> bool, names: seq<Name>)
    requires (forall m :: m in requested ==> m in transports) && Updated(transports, before, after, requested, billed)
    requires forall n :: n in names ==> n in transports && n !in requested
    ensures EligibleAmong(transports, after, names) == EligibleAmong(transports, before, names)
  {
    hide StandingOf, Updated;
    if names != [] {
      var m := |names| - 1;
      assert names == names[..m] + [names[m]];
      OthersKeepOrder(transports, before, after, requested, billed, names[..m]);
      OthersKeepStanding(transports, before, after, requested, billed, names[m]);
    }
  }

  // ---- turning the queue ----

  lemma {:induction false} CutAt(paths: seq<Name>, i: nat)
    requires Ascending(paths) && i < |paths|
    ensures Cut(paths, Some(paths[i])) == i + 1
  {
    if i > 0 {
      assert paths[1..][i - 1] == paths[i];
      CutAt(paths[1..], i - 1);
    } else if |paths| > 1 {
      assert paths[1..][0] == paths[1] > paths[0];
    }
  }

  /** A cursor set to the i-th name of one rotation starts the next just after it. */
  lemma RotateOn(paths: seq<Name>, cursor: Option<Name>, i: nat)
    requires Ascending(paths) && i < |paths| && |Rotate(paths, cursor)| == |paths|
    ensures Rotate(paths, Some(Rotate(paths, cursor)[i])) == Rotate(paths, cursor)[i + 1..] + Rotate(paths, cursor)[..i + 1]
  {
    hide Cut;
    var j := Cut(paths, cursor);
    var order := Rotate(paths, cursor);
    var at := if j + i < |paths| then j + i else j + i - |paths|;
    assert order[i] == paths[at];
    CutAt(paths, at);
    assert paths[at + 1..] + paths[..at + 1] == order[i + 1..] + order[..i + 1];
  }

  lemma LastRequested(transports: Transports, receipts: Receipts, order: seq<Name>, m: nat) returns (i: nat)
    requires (forall n :: n in order ==> n in transports) && Distinct(order)
    requires 0 < m <= |EligibleAmong(transports, receipts, order)|
    ensures i < |order| && order[i] == EligibleAmong(transports, receipts, order)[m - 1]
    ensures (forall n :: n in order[..i + 1] ==> n in transports) && (forall n :: n in order[i + 1..] ==> n in transports)
    ensures EligibleAmong(transports, receipts, order[..i + 1]) == EligibleAmong(transports, receipts, order)[..m]
  {
    hide StandingOf, EligibleAmong, Distinct;
    var queue := EligibleAmong(transports, receipts, order);
    assert queue[m - 1] in queue;
    i :| 0 <= i < |order| && order[i] == queue[m - 1];
    var front, back := order[..i + 1], order[i + 1..];
    assert order == front + back;
    EligibleAppend(transports, receipts, front, back);
    EligibleDistinct(transports, receipts, order);
    assert front == order[..i] + [order[i]];
    EligibleSnoc(transports, receipts, order[..i], order[i]);
    var found := EligibleAmong(transports, receipts, front);
    assert found[|found|-1] == queue[m - 1] == queue[|found| - 1];
    SamePlace(queue, m - 1, |found| - 1);
    assert found == queue[..|found|];
  }

  lemma SamePlace(xs: seq<Name>, i: nat, j: nat)
    requires Distinct(xs) && i < |xs| && j < |xs| && xs[i] == xs[j]
    ensures i == j
  {}

  /** One run moves everyone it did not reach to the front. */
  lemma QueueAdvances(transports: Transports, paths: seq<Name>, before: Receipts, cursor: Option<Name>, after: Receipts, requested: seq<Name>, billed: Name -> bool)
    requires Covered(transports, paths) && requested != [] && Prefix(requested, Queue(transports, paths, before, cursor))
    requires (forall n :: n in requested ==> n in transports) && Updated(transports, before, after, requested, billed)
    ensures Prefix(Queue(transports, paths, before, cursor)[|requested|..], Queue(transports, paths, after, Some(requested[|requested|-1])))
  {
    hide StandingOf, Rotate, Updated;
    var order := Rotate(paths, cursor);
    var queue := Queue(transports, paths, before, cursor);
    RotateMembers(paths, cursor);
    RotateDistinct(paths, cursor);
    var i := LastRequested(transports, before, order, |requested|);
    RotateOn(paths, cursor, i);
    var front, back := order[..i + 1], order[i + 1..];
    assert order == front + back;
    EligibleAppend(transports, before, front, back);
    assert EligibleAmong(transports, before, back) == queue[|requested|..];
    BackUnrequested(order, i, requested);
    OthersKeepOrder(transports, before, after, requested, billed, back);
    EligibleAppend(transports, after, back, front);
  }

  lemma BackUnrequested(order: seq<Name>, i: nat, requested: seq<Name>)
    requires Distinct(order) && i < |order| && forall n :: n in requested ==> n in order[..i + 1]
    ensures forall n :: n in order[i + 1..] ==> n !in requested
  {}

  // ---- many runs ----

  datatype State = State(receipts: Receipts, cursor: Option<Name>)

  /** One run of `Reconcile` with a budget, as its contract describes it. */
  datatype Run = Run(before: State, billed: Name -> bool, requested: seq<Name>, after: State)

  ghost predicate Ran(transports: Transports, paths: seq<Name>, maxRequests: nat, run: Run)
    requires Covered(transports, paths)
  {
    var queue := Queue(transports, paths, run.before.receipts, run.before.cursor);
    && Prefix(run.requested, queue) && |run.requested| <= maxRequests
    && (|run.requested| == maxRequests || run.requested == queue)
    && (forall n :: n in run.requested ==> n in transports)
    && Updated(transports, run.before.receipts, run.after.receipts, run.requested, run.billed)
    && run.after.cursor == LastOr(run.requested, run.before.cursor)
  }

  ghost predicate Runs(transports: Transports, paths: seq<Name>, maxRequests: nat, runs: seq<Run>)
    requires Covered(transports, paths)
  {
    && (forall t :: 0 <= t < |runs| ==> Ran(transports, paths, maxRequests, runs[t]))
    && (forall t :: 0 <= t < |runs| - 1 ==> runs[t + 1].before == runs[t].after)
  }

  /** An attempt waiting at position `k` of the queue is asked about within `k / maxRequests + 1` runs. */
  lemma {:induction false} ReachedInTime(transports: Transports, paths: seq<Name>, maxRequests: nat, runs: seq<Run>, k: nat) returns (t: nat)
    requires Covered(transports, paths) && maxRequests >= 1 && Runs(transports, paths, maxRequests, runs) && runs != []
    requires k < |Queue(transports, paths, runs[0].before.receipts, runs[0].before.cursor)| && k < |runs| * maxRequests
    ensures t < |runs| && t * maxRequests <= k
    ensures Queue(transports, paths, runs[0].before.receipts, runs[0].before.cursor)[k] in runs[t].requested
    decreases |runs|
  {
    hide Updated, Queue, Prefix, Runs;
    var run := runs[0];
    var queue := Queue(transports, paths, run.before.receipts, run.before.cursor);
    if k < |run.requested| {
      t := 0;
      FrontRequested(transports, paths, maxRequests, runs, k);
    } else {
      NextQueue(transports, paths, maxRequests, runs, k);
      TailRuns(transports, paths, maxRequests, runs);
      OneLess(|runs|, maxRequests, k);
      var u := ReachedInTime(transports, paths, maxRequests, runs[1..], k - maxRequests);
      t := u + 1;
      OneMore(u, maxRequests, k);
    }
  }

  lemma FrontRequested(transports: Transports, paths: seq<Name>, maxRequests: nat, runs: seq<Run>, k: nat)
    requires Covered(transports, paths) && Runs(transports, paths, maxRequests, runs) && runs != [] && k < |runs[0].requested|
    ensures k < |Queue(transports, paths, runs[0].before.receipts, runs[0].before.cursor)|
    ensures Queue(transports, paths, runs[0].before.receipts, runs[0].before.cursor)[k] == runs[0].requested[k]
  {
    hide Updated, Queue;
    assert Ran(transports, paths, maxRequests, runs[0]);
  }

  /** Whoever the first run did not reach waits `maxRequests` places earlier for the second. */
  lemma NextQueue(transports: Transports, paths: seq<Name>, maxRequests: nat, runs: seq<Run>, k: nat)
    requires Covered(transports, paths) && maxRequests >= 1 && Runs(transports, paths, maxRequests, runs) && runs != []
    requires |runs[0].requested| <= k < |Queue(transports, paths, runs[0].before.receipts, runs[0].before.cursor)| && k < |runs| * maxRequests
    ensures |runs| > 1 && k >= maxRequests
    ensures k - maxRequests < |Queue(transports, paths, runs[1].before.receipts, runs[1].before.cursor)|
    ensures Queue(transports, paths, runs[1].before.receipts, runs[1].before.cursor)[k - maxRequests]
         == Queue(transports, paths, runs[0].before.receipts, runs[0].before.cursor)[k]
  {
    hide Updated, Queue;
    var run := runs[0];
    assert Ran(transports, paths, maxRequests, run);
    QueueAdvances(transports, paths, run.before.receipts, run.before.cursor, run.after.receipts, run.requested, run.billed);
    MoreThanOne(|runs|, maxRequests, k);
    assert runs[0 + 1].before == runs[0].after;
    var queue, next := Queue(transports, paths, run.before.receipts, run.before.cursor), Queue(transports, paths, runs[1].before.receipts, runs[1].before.cursor);
    assert next[k - maxRequests] == queue[maxRequests..][k - maxRequests];
  }

  lemma TailRuns(transports: Transports, paths: seq<Name>, maxRequests: nat, runs: seq<Run>)
    requires Covered(transports, paths) && Runs(transports, paths, maxRequests, runs) && runs != []
    ensures Runs(transports, paths, maxRequests, runs[1..])
  {
    hide Ran;
    forall t | 0 <= t < |runs| - 2 ensures runs[1..][t + 1].before == runs[1..][t].after {
      assert runs[(t + 1) + 1].before == runs[t + 1].after;
    }
  }

  lemma MoreThanOne(r: nat, m: nat, k: nat)
    requires k < r * m && m <= k
    ensures r > 1
  {}

  lemma OneLess(r: nat, m: nat, k: nat)
    requires r >= 1 && k < r * m
    ensures k - m < (r - 1) * m
  {}

  lemma OneMore(u: nat, m: nat, k: nat)
    requires m <= k && u * m <= k - m
    ensures (u + 1) * m <= k
  {}

  /** Everything eligible at the start is asked about within `ceil(N / maxRequests)` runs, whatever the provider
      answers. */
  lemma EveryAttemptReached(transports: Transports, paths: seq<Name>, maxRequests: nat, runs: seq<Run>, n: Name)
    requires Covered(transports, paths) && maxRequests >= 1 && Runs(transports, paths, maxRequests, runs) && runs != []
    requires n in Queue(transports, paths, runs[0].before.receipts, runs[0].before.cursor)
    requires |Queue(transports, paths, runs[0].before.receipts, runs[0].before.cursor)| <= |runs| * maxRequests
    ensures exists t :: 0 <= t < |runs| && n in runs[t].requested
  {
    hide Queue, Runs;
    var queue := Queue(transports, paths, runs[0].before.receipts, runs[0].before.cursor);
    var k :| 0 <= k < |queue| && queue[k] == n;
    var t := ReachedInTime(transports, paths, maxRequests, runs, k);
  }

  /** Receipts only accumulate, and none is ever replaced. */
  lemma {:induction false} ReceiptsNeverReplaced(transports: Transports, paths: seq<Name>, maxRequests: nat, runs: seq<Run>, n: Name)
    requires Covered(transports, paths) && Runs(transports, paths, maxRequests, runs) && runs != []
    requires n in runs[0].before.receipts
    ensures n in runs[|runs|-1].after.receipts && runs[|runs|-1].after.receipts[n] == runs[0].before.receipts[n]
    decreases |runs|
  {
    hide Queue;
    assert Ran(transports, paths, maxRequests, runs[0]);
    if |runs| > 1 {
      assert runs[0 + 1].before == runs[0].after;
      TailRuns(transports, paths, maxRequests, runs);
      ReceiptsNeverReplaced(transports, paths, maxRequests, runs[1..], n);
    }
  }

  // ---- the runs are those of the method ----

  /** One pass, seen as a run. */
  method RunOnce(recovery: Recovery, maxRequests: nat, billed: Name -> bool) returns (report: Report, ghost run: Run)
    requires recovery.Valid() && 1 <= maxRequests <= 3
    modifies recovery
    ensures recovery.Valid() && Covered(recovery.transports, recovery.paths)
    ensures run.before == State(old(recovery.receipts), old(recovery.cursor)) && run.billed == billed
    ensures run.after == State(recovery.receipts, recovery.cursor)
    ensures Ran(recovery.transports, recovery.paths, maxRequests, run)
  {
    hide Updated, Accounts, Rotate, LastOr, EligibleAmong;
    ghost var before := State(recovery.receipts, recovery.cursor);
    var requested, visited;
    report, requested, visited := recovery.Reconcile(maxRequests, billed);
    run := Run(before, billed, requested, State(recovery.receipts, recovery.cursor));
    AccountedRequests(recovery.transports, before.receipts, Rotate(recovery.paths, before.cursor)[..visited], billed, report, requested);
    RequestsAreFront(recovery.transports, recovery.paths, before.receipts, before.cursor, visited, requested, maxRequests);
  }

  lemma AccountedRequests(transports: Transports, receipts: Receipts, names: seq<Name>, billed: Name -> bool, report: Report, requested: seq<Name>)
    requires Accounts(transports, receipts, names, billed, report, requested)
    ensures (forall n :: n in names ==> n in transports) && requested == EligibleAmong(transports, receipts, names)
  {}

  /** Pass after pass, with whatever the provider answers each time: every attempt eligible at the start is asked about
      once there were enough passes, and no receipt is ever replaced. */
  method RunRepeatedly(recovery: Recovery, maxRequests: nat, answers: seq<Name -> bool>) returns (reports: seq<Report>, ghost runs: seq<Run>)
    requires recovery.Valid() && 1 <= maxRequests <= 3
    modifies recovery
    ensures recovery.Valid() && Covered(recovery.transports, recovery.paths)
    ensures |reports| == |runs| == |answers| && Runs(recovery.transports, recovery.paths, maxRequests, runs)
    ensures var queue := Queue(recovery.transports, recovery.paths, old(recovery.receipts), old(recovery.cursor));
            |queue| <= |answers| * maxRequests ==> forall n :: n in queue ==> exists t :: 0 <= t < |runs| && n in runs[t].requested
    ensures forall n :: n in old(recovery.receipts) ==> n in recovery.receipts && recovery.receipts[n] == old(recovery.receipts)[n]
  {
    hide Ran, Queue;
    reports, runs := [], [];
    ghost var start := State(recovery.receipts, recovery.cursor);
    for i := 0 to |answers|
      invariant recovery.Valid() && Covered(recovery.transports, recovery.paths)
      invariant |reports| == |runs| == i && Runs(recovery.transports, recovery.paths, maxRequests, runs)
      invariant if i == 0 then start == State(recovery.receipts, recovery.cursor)
                else runs[0].before == start && runs[i - 1].after == State(recovery.receipts, recovery.cursor)
    {
      var report;
      ghost var run;
      report, run := RunOnce(recovery, maxRequests, answers[i]);
      reports, runs := reports + [report], runs + [run];
    }
    ghost var queue := Queue(recovery.transports, recovery.paths, start.receipts, start.cursor);
    if runs != [] {
      forall n | n in queue && |queue| <= |runs| * maxRequests ensures exists t :: 0 <= t < |runs| && n in runs[t].requested {
        EveryAttemptReached(recovery.transports, recovery.paths, maxRequests, runs, n);
      }
      forall n | n in start.receipts ensures n in recovery.receipts && recovery.receipts[n] == start.receipts[n] {
        ReceiptsNeverReplaced(recovery.transports, recovery.paths, maxRequests, runs, n);
      }
    }
  }
}
