/** Primary/fallback routing. Time is in nanoseconds of a monotonic clock. */
module Failover {
  import opened Text

  const FAILURE_THRESHOLD: nat := 3
  const RECOVERY_PROBE_INTERVAL: nat := 300_000_000_000
  const U32_MAX: nat := 0xFFFF_FFFF

  datatype State = State(consecutiveFailures: nat, openUntil: Option<int>)

  datatype Outcome = Success | Failure(at: int)

  const CLOSED := State(0, None)

  predicate PrimaryShouldBeTried(s: State, now: int) {
    s.openUntil.None? || s.openUntil.value <= now
  }

  function SaturatingAdd(n: nat): nat {
    if n < U32_MAX then n + 1 else U32_MAX
  }

  function Record(s: State, o: Outcome): State {
    match o
    case Success => CLOSED
    case Failure(at) =>
      var failures := SaturatingAdd(s.consecutiveFailures);
      State(failures, if failures >= FAILURE_THRESHOLD then Some(at + RECOVERY_PROBE_INTERVAL) else s.openUntil)
  }

  /** Which backend answered, and whether its call succeeded. */
  datatype Reply = FromPrimary(ok: bool) | FromFallback(ok: bool)

  function Routed(s: State, checkAt: int, recordAt: int, primaryOk: bool, fallbackOk: bool): (State, Reply) {
    if !PrimaryShouldBeTried(s, checkAt) then (s, FromFallback(fallbackOk))
    else if primaryOk then (Record(s, Success), FromPrimary(true))
    else
      var next := Record(s, Failure(recordAt));
      (next, if next.consecutiveFailures < FAILURE_THRESHOLD then FromPrimary(false) else FromFallback(fallbackOk))
  }

  class FailoverConnector {
    var consecutiveFailures: nat
    var openUntil: Option<int>

    ghost function Abstract(): State
      reads this
    {
      State(consecutiveFailures, openUntil)
    }

    constructor ()
      ensures Abstract() == CLOSED
    {
      consecutiveFailures := 0;
      openUntil := None;
    }

    method RecordPrimarySuccess()
      modifies this
      ensures Abstract() == Record(old(Abstract()), Success)
    {
      consecutiveFailures := 0;
      openUntil := None;
    }

    method RecordPrimaryFailure(now: int) returns (useFallback: bool)
      modifies this
      ensures Abstract() == Record(old(Abstract()), Failure(now))
      ensures useFallback <==> consecutiveFailures >= FAILURE_THRESHOLD
    {
      consecutiveFailures := SaturatingAdd(consecutiveFailures);
      if consecutiveFailures >= FAILURE_THRESHOLD {
        openUntil := Some(now + RECOVERY_PROBE_INTERVAL);
        return true;
      }
      return false;
    }

    /** One routed call: the decision is read at `checkAt`, the primary's outcome recorded at
        `recordAt`; what the backends would answer is given. */
    method Route(checkAt: int, recordAt: int, primaryOk: bool, fallbackOk: bool) returns (reply: Reply)
      modifies this
      ensures (Abstract(), reply) == Routed(old(Abstract()), checkAt, recordAt, primaryOk, fallbackOk)
    {
      var tryPrimary := openUntil.None? || openUntil.value <= checkAt;
      if tryPrimary {
        if primaryOk {
          RecordPrimarySuccess();
          reply := FromPrimary(true);
        } else {
          var useFallback := RecordPrimaryFailure(recordAt);
          reply := if useFallback then FromFallback(fallbackOk) else FromPrimary(false);
        }
      } else {
        reply := FromFallback(fallbackOk);
      }
    }
  }

  // -------------------------------------------------------------------------
  // Closed form over the recorded outcomes
  // -------------------------------------------------------------------------

  /** The state after outcomes recorded in this order, by whichever calls. */
  function StateAfter(history: seq<Outcome>): State {
    if history == [] then CLOSED
    else Record(StateAfter(history[..|history| - 1]), history[|history| - 1])
  }

  /** Failures since the last success. */
  function Streak(history: seq<Outcome>): nat {
    if history == [] || history[|history| - 1].Success? then 0
    else 1 + Streak(history[..|history| - 1])
  }

  /** Open until 300 s after the last outcome exactly when that outcome ends a streak of at least
      three failures. */
  lemma {:induction false} FailoverClosedForm(history: seq<Outcome>)
    ensures StateAfter(history).consecutiveFailures ==
            if Streak(history) <= U32_MAX then Streak(history) else U32_MAX
    ensures StateAfter(history).openUntil ==
            if Streak(history) >= FAILURE_THRESHOLD
            then Some(history[|history| - 1].at + RECOVERY_PROBE_INTERVAL)
            else None
  {
    if history != [] {
      FailoverClosedForm(history[..|history| - 1]);
    }
  }

  /** The circuit is open at `now`: at least three failures since the last success, the last of them less than
      300 s ago. */
  predicate IsOpen(history: seq<Outcome>, now: int) {
    Streak(history) >= 3 && now < history[|history| - 1].at + 300_000_000_000
  }

  /** A routed call by the outcomes recorded before it: an open circuit goes to the fallback and records nothing;
      otherwise the primary is tried, its outcome recorded, and the fallback asked only after a third failure. */
  lemma RouteClosedForm(history: seq<Outcome>, checkAt: int, recordAt: int, primaryOk: bool, fallbackOk: bool)
    ensures var (next, reply) := Routed(StateAfter(history), checkAt, recordAt, primaryOk, fallbackOk);
            && next == (if IsOpen(history, checkAt) then StateAfter(history)
                        else StateAfter(history + [if primaryOk then Success else Failure(recordAt)]))
            && reply == (if IsOpen(history, checkAt) then FromFallback(fallbackOk)
                         else if primaryOk then FromPrimary(true)
                         else if Streak(history) < 2 then FromPrimary(false)
                         else FromFallback(fallbackOk))
  {
    FailoverClosedForm(history);
    var more := history + [if primaryOk then Success else Failure(recordAt)];
    assert more[..|more| - 1] == history;
  }

  /** Recovery: from every reachable state, the first call 300 s after the last failure tries the primary, and when
      that is well again answers from it and leaves the connector as new. */
  lemma Recovers(history: seq<Outcome>, checkAt: int, recordAt: int, fallbackOk: bool)
    requires Streak(history) >= 3 ==> checkAt >= history[|history| - 1].at + 300_000_000_000
    ensures Routed(StateAfter(history), checkAt, recordAt, true, fallbackOk) == (CLOSED, FromPrimary(true))
  {
    FailoverClosedForm(history);
  }

  // -------------------------------------------------------------------------
  // Probe budget of a primary that always fails
  // -------------------------------------------------------------------------

  datatype Op = Op(checkAt: int, recordAt: int)

  /** Calls one after another, each deciding no earlier than the one before it recorded. */
  ghost predicate Sequential(start: int, ops: seq<Op>, end: int)
    decreases ops
  {
    ops != [] ==>
      && start <= ops[0].checkAt <= ops[0].recordAt
      && ops[0].checkAt <= end
      && Sequential(ops[0].recordAt, ops[1..], end)
  }

  function FailedState(s: State, op: Op): State {
    if PrimaryShouldBeTried(s, op.checkAt) then Record(s, Failure(op.recordAt)) else s
  }

  function Attempts(s: State, ops: seq<Op>): nat
    decreases ops
  {
    if ops == [] then 0
    else
      (if PrimaryShouldBeTried(s, ops[0].checkAt) then 1 else 0) + Attempts(FailedState(s, ops[0]), ops[1..])
  }

  /** Attempts a state still allows between `start` and `end`. */
  function Budget(s: State, start: int, end: int): int {
    match s.openUntil
    case Some(until) =>
      var from := if until < start then start else until;
      if end < from then 0 else 1 + (end - from) / RECOVERY_PROBE_INTERVAL
    case None =>
      (if s.consecutiveFailures + 1 < FAILURE_THRESHOLD then FAILURE_THRESHOLD - s.consecutiveFailures else 1)
      + (if end < start then 0 else (end - start) / RECOVERY_PROBE_INTERVAL)
  }

  lemma DivMonotone(a: int, b: int)
    requires 0 <= a <= b
    ensures a / RECOVERY_PROBE_INTERVAL <= b / RECOVERY_PROBE_INTERVAL
  {
  }

  lemma BudgetShrinks(s: State, start: int, later: int, end: int)
    requires start <= later
    ensures 0 <= Budget(s, later, end) <= Budget(s, start, end)
  {
    if later <= end {
      DivMonotone(end - later, end - start);
    } else if start <= end {
      DivMonotone(0, end - start);
    }
    if s.openUntil.Some? {
      var u := s.openUntil.value;
      var from := if u < start then start else u;
      var from' := if u < later then later else u;
      if from' <= end {
        DivMonotone(end - from', end - from);
      } else if from <= end {
        DivMonotone(0, end - from);
      }
    }
  }

  /** An attempt that fails costs at least one unit of budget. */
  lemma AttemptCosts(s: State, op: Op, end: int)
    requires op.checkAt <= op.recordAt && op.checkAt <= end
    requires PrimaryShouldBeTried(s, op.checkAt)
    requires s.openUntil.Some? ==> s.consecutiveFailures >= FAILURE_THRESHOLD
    ensures 1 + Budget(Record(s, Failure(op.recordAt)), op.recordAt, end) <= Budget(s, op.checkAt, end)
  {
    var next := Record(s, Failure(op.recordAt));
    if op.recordAt <= end {
      DivMonotone(end - op.recordAt, end - op.checkAt);
    } else {
      DivMonotone(0, end - op.checkAt);
    }
    if next.openUntil.Some? && op.recordAt + RECOVERY_PROBE_INTERVAL <= end {
      assert (end - op.recordAt - RECOVERY_PROBE_INTERVAL) / RECOVERY_PROBE_INTERVAL ==
             (end - op.recordAt) / RECOVERY_PROBE_INTERVAL - 1;
    }
  }

  lemma {:induction false} AttemptsWithinBudget(s: State, start: int, ops: seq<Op>, end: int)
    requires Sequential(start, ops, end)
    requires s.openUntil.Some? ==> s.consecutiveFailures >= FAILURE_THRESHOLD
    ensures Attempts(s, ops) <= Budget(s, start, end)
    decreases ops
  {
    if ops == [] {
      BudgetShrinks(s, start, start, end);
    } else {
      var op := ops[0];
      var next := FailedState(s, op);
      AttemptsWithinBudget(next, op.recordAt, ops[1..], end);
      BudgetShrinks(s, start, op.checkAt, end);
      if PrimaryShouldBeTried(s, op.checkAt) {
        AttemptCosts(s, op, end);
      } else {
        BudgetShrinks(s, op.checkAt, op.recordAt, end);
      }
    }
  }

  /** From any state reached by recorded outcomes, calls made one at a time within a span of
      length T attempt an always-failing primary at most 3 + floor(T / 300 s) times. */
  lemma ProbeBudget(history: seq<Outcome>, start: int, ops: seq<Op>, span: nat)
    requires Sequential(start, ops, start + span)
    ensures Attempts(StateAfter(history), ops) <= 3 + span / RECOVERY_PROBE_INTERVAL
  {
    var s := StateAfter(history);
    FailoverClosedForm(history);
    AttemptsWithinBudget(s, start, ops, start + span);
    if s.openUntil.Some? {
      var from := if s.openUntil.value < start then start else s.openUntil.value;
      if from <= start + span {
        DivMonotone(start + span - from, span);
      }
    }
  }
}
