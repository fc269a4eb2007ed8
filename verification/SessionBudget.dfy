/** The execution budget of a session (apps/sessions/budget.py) and its copy in apps/marvins/discovery.py. */
module SessionBudget {
  import opened Basics

  datatype Budget = Budget(
    maxExecutions: nat, maxTargets: nat, maxConcurrent: nat,
    executionsUsed: nat, targetsUsed: nat, concurrentRunning: nat,
    maxTokens: nat, maxCost: real, maxContextTokens: nat, tokensUsed: nat, costUsed: real, contextTokensUsed: nat)

  const DEFAULT_BUDGET := Budget(100, 200, 5, 0, 0, 0, 0, 0.0, 0, 0, 0.0, 0)

  datatype Refusal = ExecutionsExhausted | TargetsExceeded | ConcurrencyExhausted | FanOutLimit

  // ---------------------------------------------------------------------------------------------
  // One transaction each.

  function Reserve(b: Budget, targetCount: nat): Result<Budget, Refusal> {
    if b.executionsUsed >= b.maxExecutions then Err(ExecutionsExhausted)
    else if b.targetsUsed + targetCount > b.maxTargets then Err(TargetsExceeded)
    else if b.concurrentRunning >= b.maxConcurrent then Err(ConcurrencyExhausted)
    else Ok(b.(executionsUsed := b.executionsUsed + 1, targetsUsed := b.targetsUsed + targetCount,
               concurrentRunning := b.concurrentRunning + 1))
  }

  function Max0(x: int): nat {
    if x < 0 then 0 else x
  }

  function Release(b: Budget, targetCount: nat): Budget {
    b.(concurrentRunning := Max0(b.concurrentRunning - 1), targetsUsed := Max0(b.targetsUsed - targetCount))
  }

  function Reset(b: Budget): Budget {
    b.(executionsUsed := 0, targetsUsed := 0, concurrentRunning := 0)
  }

  /** The locked row: nothing stored yet means the defaults. */
  class SessionRow {
    var executionBudget: Option<Budget>

    constructor ()
      ensures executionBudget == None
    {
      executionBudget := None;
    }

    function Current(): Budget
      reads this
    {
      executionBudget.GetOr(DEFAULT_BUDGET)
    }
  }

  /** A caller's copy of a session, refreshed by the budget module but not by discovery. */
  class Session {
    const row: SessionRow
    var executionBudget: Option<Budget>

    constructor (row: SessionRow)
      ensures this.row == row && executionBudget == row.executionBudget
    {
      this.row, executionBudget := row, row.executionBudget;
    }

    method CheckAndReserve(targetCount: nat) returns (r: Result<Budget, Refusal>)
      modifies this, row
      ensures r == Reserve(old(row.Current()), targetCount)
      ensures r.Ok? ==> row.executionBudget == Some(r.value) && executionBudget == Some(r.value)
      ensures r.Err? ==> row.executionBudget == old(row.executionBudget) && executionBudget == old(executionBudget)
    {
      var budget := row.Current();
      if budget.executionsUsed >= budget.maxExecutions {
        return Err(ExecutionsExhausted);
      }
      if budget.targetsUsed + targetCount > budget.maxTargets {
        return Err(TargetsExceeded);
      }
      if budget.concurrentRunning >= budget.maxConcurrent {
        return Err(ConcurrencyExhausted);
      }
      budget := budget.(executionsUsed := budget.executionsUsed + 1);
      budget := budget.(targetsUsed := budget.targetsUsed + targetCount);
      budget := budget.(concurrentRunning := budget.concurrentRunning + 1);
      row.executionBudget := Some(budget);
      executionBudget := Some(budget);
      r := Ok(budget);
    }

    method ReleaseExecution(targetCount: nat) returns (budget: Budget)
      modifies this, row
      ensures budget == Release(old(row.Current()), targetCount)
      ensures row.executionBudget == executionBudget == Some(budget)
    {
      budget := row.Current();
      budget := budget.(concurrentRunning := Max0(budget.concurrentRunning - 1));
      budget := budget.(targetsUsed := Max0(budget.targetsUsed - targetCount));
      row.executionBudget := Some(budget);
      executionBudget := Some(budget);
    }

    method ResetExecution() returns (budget: Budget)
      modifies this, row
      ensures budget == Reset(old(row.Current()))
      ensures row.executionBudget == executionBudget == Some(budget)
    {
      budget := row.Current();
      budget := budget.(executionsUsed := 0);
      budget := budget.(targetsUsed := 0);
      budget := budget.(concurrentRunning := 0);
      row.executionBudget := Some(budget);
      executionBudget := Some(budget);
    }
  }

  /** Discovery's copy: first the hard fan-out limit, then, given a session, the very same transition of its row. */
  method CheckExecutionPolicy(absoluteMaxTargets: nat, targetCount: nat, session: SessionRow?)
    returns (r: Result<Option<Budget>, Refusal>)
    modifies session
    ensures targetCount > absoluteMaxTargets ==> r == Err(FanOutLimit)
    ensures targetCount <= absoluteMaxTargets && session == null ==> r == Ok(None)
    ensures targetCount <= absoluteMaxTargets && session != null ==>
              r == match Reserve(old(session.Current()), targetCount) case Ok(b) => Ok(Some(b)) case Err(e) => Err(e)
    ensures session != null ==>
              session.executionBudget == if r.Ok? then r.value else old(session.executionBudget)
  {
    if targetCount > absoluteMaxTargets {
      return Err(FanOutLimit);
    }
    if session == null {
      return Ok(None);
    }
    var budget := session.Current();
    if budget.executionsUsed >= budget.maxExecutions {
      return Err(ExecutionsExhausted);
    }
    if budget.targetsUsed + targetCount > budget.maxTargets {
      return Err(TargetsExceeded);
    }
    if budget.concurrentRunning >= budget.maxConcurrent {
      return Err(ConcurrencyExhausted);
    }
    budget := budget.(executionsUsed := budget.executionsUsed + 1);
    budget := budget.(targetsUsed := budget.targetsUsed + targetCount);
    budget := budget.(concurrentRunning := budget.concurrentRunning + 1);
    session.executionBudget := Some(budget);
    r := Ok(Some(budget));
  }

  // ---------------------------------------------------------------------------------------------
  // Each transaction, counter by counter.

  /** Nothing but the three counters of executions, targets and concurrency differs. */
  predicate OnlyCounters(a: Budget, b: Budget) {
    && a.maxExecutions == b.maxExecutions && a.maxTargets == b.maxTargets && a.maxConcurrent == b.maxConcurrent
    && a.maxTokens == b.maxTokens && a.maxCost == b.maxCost && a.maxContextTokens == b.maxContextTokens
    && a.tokensUsed == b.tokensUsed && a.costUsed == b.costUsed && a.contextTokensUsed == b.contextTokensUsed
  }

  /** The first limit without room refuses; otherwise one execution and its targets are charged. */
  lemma ReserveExactly(b: Budget, n: nat)
    ensures match Reserve(b, n)
            case Err(ExecutionsExhausted) => b.executionsUsed >= b.maxExecutions
            case Err(TargetsExceeded) => b.executionsUsed < b.maxExecutions && b.maxTargets < b.targetsUsed + n
            case Err(ConcurrencyExhausted) =>
              && b.executionsUsed < b.maxExecutions && b.targetsUsed + n <= b.maxTargets
              && b.concurrentRunning >= b.maxConcurrent
            case Err(FanOutLimit) => false
            case Ok(after) =>
              && b.executionsUsed < b.maxExecutions && b.targetsUsed + n <= b.maxTargets
              && b.concurrentRunning < b.maxConcurrent && OnlyCounters(b, after)
              && after.executionsUsed - b.executionsUsed == 1 && after.targetsUsed - b.targetsUsed == n
              && after.concurrentRunning - b.concurrentRunning == 1
  {
  }

  /** A release takes one execution and its targets off, but never more than there are; a reset takes all off. */
  lemma ReleaseExactly(b: Budget, n: nat)
    ensures var after := Release(b, n);
            && OnlyCounters(b, after) && after.executionsUsed == b.executionsUsed
            && b.concurrentRunning == after.concurrentRunning + (if b.concurrentRunning > 0 then 1 else 0)
            && b.targetsUsed == after.targetsUsed + (if b.targetsUsed > n then n else b.targetsUsed)
    ensures OnlyCounters(b, Reset(b))
    ensures Reset(b).executionsUsed == Reset(b).targetsUsed == Reset(b).concurrentRunning == 0
  {
  }

  /** A session without a stored budget may do 100 executions on 200 targets, 5 at a time, and has used nothing. */
  lemma DefaultExactly(ops: seq<Op>)
    ensures var b := RunAll(Fresh(DEFAULT_BUDGET), ops).budget;
            && b.executionsUsed <= 100 && b.targetsUsed <= 200 && b.concurrentRunning <= 5
            && b.tokensUsed == b.contextTokensUsed == 0 && b.costUsed == 0.0
            && b.maxTokens == b.maxContextTokens == 0 && b.maxCost == 0.0
    ensures Reset(DEFAULT_BUDGET) == DEFAULT_BUDGET
    ensures |RunAll(Fresh(DEFAULT_BUDGET), Flood(DEFAULT_BUDGET, 0)).outstanding| == 5
    ensures DEFAULT_BUDGET.maxExecutions == 100 && DEFAULT_BUDGET.maxTargets == 200
  {
    BudgetHoldsOverRuns(DEFAULT_BUDGET, ops);
    BoundsAreReached(DEFAULT_BUDGET, 0);
    RunOnlyCounts(Fresh(DEFAULT_BUDGET), ops);
  }

  lemma {:induction false} RunOnlyCounts(l: Ledger, ops: seq<Op>)
    ensures OnlyCounters(l.budget, RunAll(l, ops).budget)
  {
    if ops != [] {
      RunOnlyCounts(l, ops[..|ops|-1]);
    }
  }

  // ---------------------------------------------------------------------------------------------
  // Runs of transactions, with the reservations still outstanding.

  /** A release names the outstanding reservation it gives back. */
  datatype Op = ReserveOp(targets: nat) | ReleaseOp(reservation: nat) | ResetOp

  datatype Ledger = Ledger(budget: Budget, outstanding: seq<nat>, resets: nat, grants: nat)

  function Without(s: seq<nat>, i: nat): seq<nat>
    requires i < |s|
  {
    s[..i] + s[i+1..]
  }

  function Apply(l: Ledger, op: Op): Ledger {
    match op
    case ReserveOp(n) =>
      (match Reserve(l.budget, n)
       case Ok(b) => l.(budget := b, outstanding := l.outstanding + [n], grants := l.grants + 1)
       case Err(_) => l)
    case ReleaseOp(i) =>
      if i < |l.outstanding| then
        l.(budget := Release(l.budget, l.outstanding[i]), outstanding := Without(l.outstanding, i))
      else l
    case ResetOp => l.(budget := Reset(l.budget), resets := l.resets + 1)
  }

  function RunAll(l: Ledger, ops: seq<Op>): Ledger {
    if ops == [] then l else Apply(RunAll(l, ops[..|ops|-1]), ops[|ops|-1])
  }

  function Sum(s: seq<nat>): nat {
    if s == [] then 0 else Sum(s[..|s|-1]) + s[|s|-1]
  }

  lemma {:induction false} SumWithout(s: seq<nat>, i: nat)
    requires i < |s|
    ensures Sum(s) == s[i] + Sum(Without(s, i))
  {
    var init := s[..|s|-1];
    if i == |s| - 1 {
      assert Without(s, i) == init;
    } else {
      SumWithout(init, i);
      assert Without(s, i)[..|s|-2] == Without(init, i);
    }
  }

  function Fresh(b: Budget): Ledger {
    Ledger(Reset(b), [], 0, 0)
  }

  /** A counter is within its limit, and behind the total it stands for by at most a limit for each reset. */
  predicate Tracks(used: nat, limit: nat, total: nat, resets: nat) {
    used <= limit && used <= total <= used + limit * resets
  }

  lemma ResetTracks(used: nat, limit: nat, total: nat, resets: nat)
    requires Tracks(used, limit, total, resets)
    ensures Tracks(0, limit, total, resets + 1)
  {
    assert limit * (resets + 1) == limit * resets + limit;
  }

  lemma ReserveTracks(used: nat, limit: nat, total: nat, resets: nat, n: nat)
    requires Tracks(used, limit, total, resets) && used + n <= limit
    ensures Tracks(used + n, limit, total + n, resets)
  {
  }

  lemma ReleaseTracks(used: nat, limit: nat, total: nat, resets: nat, n: nat)
    requires Tracks(used, limit, total, resets) && n <= total
    ensures Tracks(Max0(used - n), limit, total - n, resets)
  {
  }

  lemma TotalBound(used: nat, limit: nat, total: nat, resets: nat)
    requires Tracks(used, limit, total, resets)
    ensures total <= limit * (resets + 1) && (resets == 0 ==> total == used)
  {
    assert limit * (resets + 1) == limit * resets + limit;
  }

  ghost predicate Bounded(l: Ledger) {
    && Tracks(l.budget.concurrentRunning, l.budget.maxConcurrent, |l.outstanding|, l.resets)
    && Tracks(l.budget.targetsUsed, l.budget.maxTargets, Sum(l.outstanding), l.resets)
    && Tracks(l.budget.executionsUsed, l.budget.maxExecutions, l.grants, l.resets)
    && |l.outstanding| <= l.grants
  }

  lemma StepKeepsBounds(l: Ledger, op: Op)
    requires Bounded(l)
    ensures Bounded(Apply(l, op)) && Limits(Apply(l, op).budget) == Limits(l.budget)
  {
    var b := l.budget;
    match op {
      case ReserveOp(n) =>
        if Reserve(b, n).Ok? {
          assert Sum(l.outstanding + [n]) == Sum(l.outstanding) + n by {
            assert (l.outstanding + [n])[..|l.outstanding|] == l.outstanding;
          }
          ReserveTracks(b.concurrentRunning, b.maxConcurrent, |l.outstanding|, l.resets, 1);
          ReserveTracks(b.targetsUsed, b.maxTargets, Sum(l.outstanding), l.resets, n);
          ReserveTracks(b.executionsUsed, b.maxExecutions, l.grants, l.resets, 1);
        }
      case ReleaseOp(i) =>
        if i < |l.outstanding| {
          SumWithout(l.outstanding, i);
          ReleaseTracks(b.concurrentRunning, b.maxConcurrent, |l.outstanding|, l.resets, 1);
          ReleaseTracks(b.targetsUsed, b.maxTargets, Sum(l.outstanding), l.resets, l.outstanding[i]);
        }
      case ResetOp =>
        ResetTracks(b.concurrentRunning, b.maxConcurrent, |l.outstanding|, l.resets);
        ResetTracks(b.targetsUsed, b.maxTargets, Sum(l.outstanding), l.resets);
        ResetTracks(b.executionsUsed, b.maxExecutions, l.grants, l.resets);
    }
  }

  function Limits(b: Budget): (nat, nat, nat) {
    (b.maxExecutions, b.maxTargets, b.maxConcurrent)
  }

  lemma {:induction false} RunKeepsBounds(b: Budget, ops: seq<Op>)
    ensures Bounded(RunAll(Fresh(b), ops)) && Limits(RunAll(Fresh(b), ops).budget) == Limits(b)
  {
    if ops != [] {
      RunKeepsBounds(b, ops[..|ops|-1]);
      StepKeepsBounds(RunAll(Fresh(b), ops[..|ops|-1]), ops[|ops|-1]);
    }
  }

  /** How many executions can be under way without a reset. */
  function Room(b: Budget): nat {
    if b.maxConcurrent < b.maxExecutions then b.maxConcurrent else b.maxExecutions
  }

  /** How many targets these can hold. */
  function TargetRoom(b: Budget): nat {
    if Room(b) == 0 then 0 else b.maxTargets
  }

  /**
   * Every counter within its limit, at most one more full budget outstanding for each reset, and exact counters
   * without resets.
   */
  ghost predicate WithinBudget(l: Ledger, b: Budget) {
    && l.budget.executionsUsed <= b.maxExecutions && l.budget.targetsUsed <= b.maxTargets
    && l.budget.concurrentRunning <= b.maxConcurrent
    && l.budget.concurrentRunning <= |l.outstanding| <= Room(b) * (l.resets + 1)
    && l.budget.targetsUsed <= Sum(l.outstanding) <= TargetRoom(b) * (l.resets + 1)
    && l.grants <= b.maxExecutions * (l.resets + 1)
    && (l.resets == 0 ==> l.budget.concurrentRunning == |l.outstanding|
                          && l.budget.targetsUsed == Sum(l.outstanding) && l.budget.executionsUsed == l.grants)
  }

  lemma BoundedIsWithin(l: Ledger, b: Budget)
    requires Bounded(l) && Limits(l.budget) == Limits(b)
    ensures WithinBudget(l, b)
  {
    TotalBound(l.budget.concurrentRunning, b.maxConcurrent, |l.outstanding|, l.resets);
    TotalBound(l.budget.targetsUsed, b.maxTargets, Sum(l.outstanding), l.resets);
    TotalBound(l.budget.executionsUsed, b.maxExecutions, l.grants, l.resets);
    if Room(b) == 0 {
      assert l.outstanding == [];
    }
  }

  /** Whatever the interleaving of transactions, the budget holds. */
  lemma BudgetHoldsOverRuns(b: Budget, ops: seq<Op>)
    ensures WithinBudget(RunAll(Fresh(b), ops), b)
  {
    RunKeepsBounds(b, ops);
    BoundedIsWithin(RunAll(Fresh(b), ops), b);
  }

  /** Releasing what was just reserved gives everything back but the execution. */
  lemma ReleaseUndoesReserve(b: Budget, targetCount: nat)
    requires Reserve(b, targetCount).Ok?
    ensures Release(Reserve(b, targetCount).value, targetCount) == b.(executionsUsed := b.executionsUsed + 1)
  {
  }

  // ---------------------------------------------------------------------------------------------
  // The bounds are reached.

  /** One reservation of every target, and the rest of the executions without targets. */
  function Fill(b: Budget, n: nat): (ops: seq<Op>)
    ensures |ops| == n
  {
    if n == 0 then [] else Fill(b, n - 1) + [ReserveOp(if n == 1 then b.maxTargets else 0)]
  }

  /** Filling the budget, again after each reset. */
  function Flood(b: Budget, resets: nat): seq<Op> {
    if resets == 0 then Fill(b, Room(b)) else Flood(b, resets - 1) + ([ResetOp] + Fill(b, Room(b)))
  }

  lemma {:induction false} RunConcat(l: Ledger, a: seq<Op>, c: seq<Op>)
    ensures RunAll(l, a + c) == RunAll(RunAll(l, a), c)
  {
    if c == [] {
      assert a + c == a;
    } else {
      assert (a + c)[..|a+c|-1] == a + c[..|c|-1];
      RunConcat(l, a, c[..|c|-1]);
    }
  }

  lemma RunOne(l: Ledger, a: seq<Op>, op: Op)
    ensures RunAll(l, a + [op]) == Apply(RunAll(l, a), op)
  {
    assert (a + [op])[..|a|] == a;
  }

  ghost predicate Filled(l: Ledger, r: Ledger, b: Budget, n: nat) {
    && Limits(r.budget) == Limits(b) && r.resets == l.resets
    && r.budget.executionsUsed == r.budget.concurrentRunning == n
    && r.budget.targetsUsed == (if n == 0 then 0 else b.maxTargets)
    && |r.outstanding| == |l.outstanding| + n
    && Sum(r.outstanding) == Sum(l.outstanding) + if n == 0 then 0 else b.maxTargets
  }

  lemma {:induction false} RunFill(l: Ledger, b: Budget, n: nat)
    requires Limits(l.budget) == Limits(b) &&
             l.budget.executionsUsed == l.budget.targetsUsed == l.budget.concurrentRunning == 0
    requires n <= Room(b)
    ensures Filled(l, RunAll(l, Fill(b, n)), b, n)
  {
    if n > 0 {
      var op := ReserveOp(if n == 1 then b.maxTargets else 0);
      RunFill(l, b, n - 1);
      RunOne(l, Fill(b, n - 1), op);
      FillStep(l, RunAll(l, Fill(b, n - 1)), b, n);
    }
  }

  lemma FillStep(l: Ledger, s: Ledger, b: Budget, n: nat)
    requires 0 < n <= Room(b) && Filled(l, s, b, n - 1)
    ensures Filled(l, Apply(s, ReserveOp(if n == 1 then b.maxTargets else 0)), b, n)
  {
    var targets := if n == 1 then b.maxTargets else 0;
    assert (s.outstanding + [targets])[..|s.outstanding|] == s.outstanding;
  }

  /** Both bounds on outstanding work are met with equality. */
  ghost predicate Flooded(l: Ledger, b: Budget, resets: nat) {
    && l.resets == resets && Limits(l.budget) == Limits(b)
    && |l.outstanding| == Room(b) * (resets + 1) && Sum(l.outstanding) == TargetRoom(b) * (resets + 1)
  }

  /** For every budget and any number of resets there is a run that reaches both bounds. */
  lemma {:induction false} BoundsAreReached(b: Budget, resets: nat)
    ensures Flooded(RunAll(Fresh(b), Flood(b, resets)), b, resets)
  {
    if resets == 0 {
      RunFill(Fresh(b), b, Room(b));
      assert Fill(b, Room(b)) == Flood(b, 0);
    } else {
      BoundsAreReached(b, resets - 1);
      FloodAgain(b, resets);
      var l := RunAll(Fresh(b), Flood(b, resets - 1));
      RunFill(Apply(l, ResetOp), b, Room(b));
      FilledFloods(l, RunAll(Apply(l, ResetOp), Fill(b, Room(b))), b, resets);
    }
  }

  lemma FilledFloods(l: Ledger, r: Ledger, b: Budget, resets: nat)
    requires resets > 0
    requires Flooded(l, b, resets - 1) && Filled(Apply(l, ResetOp), r, b, Room(b))
    ensures Flooded(r, b, resets)
  {
    OneMore(Room(b), resets);
    OneMore(TargetRoom(b), resets);
  }

  lemma OneMore(m: nat, r: nat)
    ensures m * (r + 1) == m * r + m
  {
  }

  lemma FloodAgain(b: Budget, resets: nat)
    requires resets > 0
    ensures RunAll(Fresh(b), Flood(b, resets))
         == RunAll(Apply(RunAll(Fresh(b), Flood(b, resets - 1)), ResetOp), Fill(b, Room(b)))
  {
    var l, fill := RunAll(Fresh(b), Flood(b, resets - 1)), Fill(b, Room(b));
    RunConcat(Fresh(b), Flood(b, resets - 1), [ResetOp] + fill);
    RunConcat(l, [ResetOp], fill);
    RunOne(l, [], ResetOp);
    assert [] + [ResetOp] == [ResetOp];
  }
}
