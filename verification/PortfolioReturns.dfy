/** Conditional returns of tickets over joint scenarios, and settlement against final dividends
    (ima/betting_ev.py, ima/betting_settlement.py). */
module PortfolioReturns {
  import opened Sums
  import opened Products
  import opened Settlement
  import opened JointScenarios
  import opened TicketProbabilities

  datatype Option<+T> = None | Some(value: T)

  datatype Convention = AsReturn | NetOdds | Dividend

  datatype Status = PreRace | Final | Scenario

  datatype Quote = Quote(ticket: Ticket, value: real, convention: Convention, unitStake: real, currency: string,
                         ruleVersion: string, quotedAt: int, status: Status)
  {
    /** Total return per unit staked. */
    function DecimalReturn(): real
      requires unitStake > 0.0
    {
      match convention
      case Dividend => value / unitStake
      case NetOdds => value + 1.0
      case AsReturn => value
    }

    predicate Matches(t: Ticket, terms: Terms) {
      ticket == t && currency == terms.currency && ruleVersion == terms.version && unitStake > 0.0
    }
  }

  /** Effective rules: the settlement rules, their version and currency, and whether selected scratches are refunded. */
  datatype Terms = Terms(rules: Rules, version: string, currency: string, refunds: bool)

  type Dividends = map<Ticket, Quote>

  predicate Tied(f: Finish) {
    exists g | g in f.groups :: |g| > 1
  }

  // ---- the return matrix ----

  /** What one ticket returns per unit in one scenario; nothing where the evidence is missing or wrong. */
  function Entry(t: Ticket, f: Finish, terms: Terms, multiple: real, dividends: Option<Dividends>): Option<real> {
    if !Unscratched(t, f) then if terms.refunds then Some(1.0) else None
    else if !Wins(t, f, terms.rules) then Some(0.0)
    else if dividends.Some? && t in dividends.value then
      var q := dividends.value[t];
      if q.Matches(t, terms) && q.status == Scenario then Some(q.DecimalReturn()) else None
    else if Tied(f) then None
    else Some(multiple)
  }

  function DividendsAt(dividends: Option<seq<Dividends>>, k: nat): Option<Dividends> {
    if dividends.Some? && k < |dividends.value| then Some(dividends.value[k]) else None
  }

  /** The matrix holds, for every scenario and ticket, the entry. */
  ghost predicate IsMatrix(matrix: seq<seq<real>>, tickets: seq<Ticket>, s: Scenarios, terms: Terms, multiples: seq<real>, dividends: Option<seq<Dividends>>)
    requires |multiples| == |tickets|
  {
    && |matrix| == |s.finishes|
    && (forall k :: 0 <= k < |matrix| ==> |matrix[k]| == |tickets|)
    && forall k, j :: 0 <= k < |matrix| && 0 <= j < |tickets| ==>
         Entry(tickets[j], s.finishes[k], terms, multiples[j], DividendsAt(dividends, k)) == Some(matrix[k][j])
  }

  /** The checks made before any row is filled. */
  predicate Computable(tickets: seq<Ticket>, s: Scenarios, terms: Terms, multiples: seq<real>, dividends: Option<seq<Dividends>>)
    requires |s.finishes| == |s.probabilities|
  {
    && TicketProbability(tickets, s, terms.rules).Ok?
    && |multiples| == |tickets| && (forall j | 0 <= j < |multiples| :: multiples[j] >= 0.0)
    && (dividends.Some? ==> |dividends.value| == |s.finishes|)
    && (dividends.None? ==> forall f | f in s.finishes :: !Tied(f))
  }

  /** `joint_return_matrix`: a matrix exactly when the checks pass and every entry has its evidence. */
  method JointReturnMatrix(tickets: seq<Ticket>, s: Scenarios, terms: Terms, multiples: seq<real>, dividends: Option<seq<Dividends>>)
    returns (matrix: Option<seq<seq<real>>>)
    requires |s.finishes| == |s.probabilities| && forall t :: t in tickets ==> t.Valid()
    ensures matrix.Some? <==>
      && Computable(tickets, s, terms, multiples, dividends)
      && forall k, j :: 0 <= k < |s.finishes| && 0 <= j < |tickets| ==>
           Entry(tickets[j], s.finishes[k], terms, multiples[j], DividendsAt(dividends, k)).Some?
    ensures matrix.Some? ==> IsMatrix(matrix.value, tickets, s, terms, multiples, dividends)
  {
    hide TicketProbability, Wins, Unscratched, Tied;
    if !Computable(tickets, s, terms, multiples, dividends) { return None; }
    var rows: seq<seq<real>> := [];
    for k := 0 to |s.finishes|
      invariant |rows| == k && forall i :: 0 <= i < k ==> |rows[i]| == |tickets|
      invariant forall i, j :: 0 <= i < k && 0 <= j < |tickets| ==>
                  Entry(tickets[j], s.finishes[i], terms, multiples[j], DividendsAt(dividends, i)) == Some(rows[i][j])
    {
      var f := s.finishes[k];
      var supplied := DividendsAt(dividends, k);
      var row: seq<real> := [];
      for j := 0 to |tickets|
        invariant |row| == j
        invariant forall i :: 0 <= i < j ==> Entry(tickets[i], f, terms, multiples[i], supplied) == Some(row[i])
      {
        var t := tickets[j];
        if !Unscratched(t, f) {
          if !terms.refunds { return None; }
          row := row + [1.0];
        } else {
          assert t in tickets;
          var wins := TicketWins(t, f, terms.rules);
          if wins && supplied.Some? && t in supplied.value {
            var q := supplied.value[t];
            if !q.Matches(t, terms) || q.status != Scenario { return None; }
            row := row + [q.DecimalReturn()];
          } else if wins && Tied(f) {
            return None;
          } else {
            row := row + [if wins then multiples[j] else 0.0];
          }
        }
      }
      rows := rows + [row];
    }
    return Some(rows);
  }

  // ---- expected returns ----

  /** Probability-weighted mean of one column. */
  function Expected(finishes: seq<Finish>, probabilities: seq<real>, t: Ticket, terms: Terms, multiple: real): real
    requires |finishes| == |probabilities|
  {
    if finishes == [] then 0.0
    else
      var e := Entry(t, finishes[0], terms, multiple, None);
      (if e.Some? then probabilities[0] * e.value else 0.0)
      + Expected(finishes[1..], probabilities[1..], t, terms, multiple)
  }

  function ColumnMean(matrix: seq<seq<real>>, probabilities: seq<real>, j: nat): real
    requires |matrix| == |probabilities| && forall k :: 0 <= k < |matrix| ==> j < |matrix[k]|
  {
    if matrix == [] then 0.0 else probabilities[0] * matrix[0][j] + ColumnMean(matrix[1..], probabilities[1..], j)
  }

  lemma {:induction false} ColumnIsExpected(matrix: seq<seq<real>>, finishes: seq<Finish>, probabilities: seq<real>, j: nat, t: Ticket, terms: Terms, multiple: real)
    requires |matrix| == |finishes| == |probabilities| && forall k :: 0 <= k < |matrix| ==> j < |matrix[k]|
    requires forall k :: 0 <= k < |matrix| ==> Entry(t, finishes[k], terms, multiple, None) == Some(matrix[k][j])
    ensures ColumnMean(matrix, probabilities, j) == Expected(finishes, probabilities, t, terms, multiple)
  {
    hide Entry;
    if matrix != [] { ColumnIsExpected(matrix[1..], finishes[1..], probabilities[1..], j, t, terms, multiple); }
  }

  /** Neither tied, nor abandoned, nor scratched: every ticket simply wins or loses. */
  predicate Plain(f: Finish) {
    !f.abandoned && f.scratches == [] && !Tied(f)
  }

  lemma {:induction false} ExpectedIsMass(finishes: seq<Finish>, probabilities: seq<real>, t: Ticket, terms: Terms, multiple: real)
    requires |finishes| == |probabilities| && forall k :: 0 <= k < |finishes| ==> Plain(finishes[k])
    ensures Expected(finishes, probabilities, t, terms, multiple) == multiple * WinningMass(finishes, probabilities, t, terms.rules)
  {
    hide Wins;
    if finishes != [] {
      forall k | 0 <= k < |finishes[1..]| ensures Plain(finishes[1..][k]) { assert finishes[1..][k] == finishes[k + 1]; }
      ExpectedIsMass(finishes[1..], probabilities[1..], t, terms, multiple);
    }
  }

  lemma StrictIsPlain(ids: seq<Runner>, order: seq<nat>)
    requires forall x: nat :: x in order ==> x < |ids|
    ensures Plain(StrictFinish(ids, order))
  {
    var f := StrictFinish(ids, order);
    forall g | g in f.groups ensures |g| == 1 {}
  }

  /** The portfolio matrix and the single-ticket price agree: over conditional-choice scenarios a ticket's expected
      return is its decimal return times the pool kernel's probability. */
  lemma MatrixPricesLikeKernel(ids: seq<Runner>, strengths: seq<real>, depth: nat, maxOrders: nat, s: Scenarios,
      tickets: seq<Ticket>, terms: Terms, multiples: seq<real>, matrix: seq<seq<real>>, j: nat)
    requires Rejection(ids, strengths, depth, maxOrders).Ok? && Describes(s, ids, strengths, depth)
    requires ValidRules(terms.rules) && j < |tickets| == |multiples| && Bettable(tickets[j], ids)
    requires RequiredDepthOf(tickets[j], terms.rules) <= depth
    requires IsMatrix(matrix, tickets, s, terms, multiples, None)
    ensures |matrix| == |s.probabilities| && (forall k :: 0 <= k < |matrix| ==> j < |matrix[k]|)
    ensures ColumnMean(matrix, s.probabilities, j) == multiples[j] * KernelOf(ids, strengths, tickets[j], terms.rules)
  {
    hide Entry, Wins, KernelOf, ColumnMean, Expected, WinningMass, ExpectedOrders, RequiredDepthOf;
    var orders := ExpectedOrders(strengths, depth);
    forall k | 0 <= k < |s.finishes| ensures Plain(s.finishes[k]) { StrictIsPlain(ids, orders[k]); }
    ColumnIsExpected(matrix, s.finishes, s.probabilities, j, tickets[j], terms, multiples[j]);
    ExpectedIsMass(s.finishes, s.probabilities, tickets[j], terms, multiples[j]);
    SettledMassIsKernel(ids, strengths, depth, maxOrders, s, tickets[j], terms.rules);
  }

  // ---- settlement against final dividends ----

  datatype Outcome = NoBet | Refund | UnsupportedRefund | Lost | MissingDividend | Won

  /** No gross return means it is not known. */
  datatype Settled = Settled(outcome: Outcome, gross: Option<real>)

  function GrossReturn(stake: real, q: Quote): real
    requires q.unitStake > 0.0
  {
    match q.convention
    case Dividend => stake * q.value / q.unitStake
    case NetOdds => stake * (q.value + 1.0)
    case AsReturn => stake * q.value
  }

  /** `settle_ticket`; none where it raises: selected too late, or final evidence wrong. */
  function SettleTicket(t: Ticket, stake: real, f: Finish, terms: Terms, dividends: Dividends, selectedAt: int, raceStart: int): Option<Settled> {
    if selectedAt >= raceStart then None
    else if stake == 0.0 then Some(Settled(NoBet, Some(0.0)))
    else if !Unscratched(t, f) then
      if terms.refunds then Some(Settled(Refund, Some(stake))) else Some(Settled(UnsupportedRefund, None))
    else if !Wins(t, f, terms.rules) then Some(Settled(Lost, Some(0.0)))
    else if t !in dividends then Some(Settled(MissingDividend, None))
    else
      var q := dividends[t];
      if !q.Matches(t, terms) || q.status != Final || q.quotedAt < raceStart then None
      else Some(Settled(Won, Some(GrossReturn(stake, q))))
  }

  lemma GrossIsMultiple(stake: real, q: Quote)
    requires q.unitStake > 0.0
    ensures GrossReturn(stake, q) == stake * q.DecimalReturn()
  {
    if q.convention.Dividend? { DivideLast(stake, q.value, q.unitStake); }
  }

  lemma DivideLast(a: real, b: real, c: real)
    requires c > 0.0
    ensures a * b / c == a * (b / c)
  {}

  /** The same ticket in the scenario that came true: once both are known, what is paid is the stake times what the
      matrix promised at the final multiple; and a refund is unsupported in both or in neither. */
  lemma SettlementMatchesMatrix(t: Ticket, stake: real, f: Finish, terms: Terms, dividends: Dividends, selectedAt: int, raceStart: int, multiple: real)
    requires stake > 0.0 && SettleTicket(t, stake, f, terms, dividends, selectedAt, raceStart).Some?
    requires t in dividends && dividends[t].unitStake > 0.0 ==> dividends[t].DecimalReturn() == multiple
    ensures var settled := SettleTicket(t, stake, f, terms, dividends, selectedAt, raceStart).value;
      var entry := Entry(t, f, terms, multiple, None);
      && (settled.gross.Some? && entry.Some? ==> settled.gross.value == stake * entry.value)
      && (settled.outcome == UnsupportedRefund <==> entry.None? && !Unscratched(t, f))
      && (settled.outcome == Won && !Tied(f) ==> entry == Some(multiple))
  {
    hide Wins, Unscratched, Tied;
    if t in dividends && dividends[t].unitStake > 0.0 { GrossIsMultiple(stake, dividends[t]); }
  }
}
