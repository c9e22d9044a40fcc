/** The per-key circuit breaker. Time is in nanoseconds of a monotonic clock. */
module CircuitBreaker {
  import opened Text

  const CB_THRESHOLD: nat := 3
  const CB_COOLDOWN: nat := 300_000_000_000
  const U32_MAX: nat := 0xFFFF_FFFF

  datatype CircuitState = Closed | Open | HalfOpen

  datatype Entry = Entry(failures: nat, openedAt: Option<int>, state: CircuitState)

  const FRESH := Entry(0, None, Closed)

  datatype Op = Available(at: int) | Success | Failure(at: int)

  /** Whether a call is let through. */
  predicate Admits(e: Entry, now: int) {
    match e.state
    case Closed => true
    case HalfOpen => true
    case Open => e.openedAt.None? || now - e.openedAt.value >= CB_COOLDOWN
  }

  function Step(e: Entry, op: Op): Entry {
    match op
    case Available(now) => if e.state.Open? && Admits(e, now) then e.(state := HalfOpen) else e
    case Success => FRESH
    case Failure(now) =>
      var failures := if e.failures < U32_MAX then e.failures + 1 else U32_MAX;
      if e.state.HalfOpen? || (e.state.Closed? && failures >= CB_THRESHOLD)
      then Entry(failures, Some(now), Open)
      else e.(failures := failures)
  }

  /** The entry of a key; a key never seen counts as fresh. */
  function Of(entries: map<string, Entry>, key: string): Entry {
    if key in entries then entries[key] else FRESH
  }

  class Breaker {
    var entries: map<string, Entry>

    constructor ()
      ensures entries == map[]
    {
      entries := map[];
    }

    method IsAvailable(key: string, now: int) returns (available: bool)
      modifies this
      ensures available == Admits(Of(old(entries), key), now)
      ensures Stepped(old(entries), Call(key, Available(now)), entries)
    {
      if key !in entries {
        entries := entries[key := FRESH];
      }
      var entry := entries[key];
      match entry.state
      case Closed => available := true;
      case HalfOpen => available := true;
      case Open =>
        if entry.openedAt.None? {
          entries := entries[key := entry.(state := HalfOpen)];
          available := true;
        } else if now - entry.openedAt.value >= CB_COOLDOWN {
          entries := entries[key := entry.(state := HalfOpen)];
          available := true;
        } else {
          available := false;
        }
    }

    method RecordSuccess(key: string)
      modifies this
      ensures Stepped(old(entries), Call(key, Success), entries)
    {
      if key in entries {
        entries := entries[key := Entry(0, None, Closed)];
      }
    }

    method RecordFailure(key: string, now: int)
      modifies this
      ensures Stepped(old(entries), Call(key, Failure(now)), entries)
    {
      if key !in entries {
        entries := entries[key := FRESH];
      }
      var entry := entries[key];
      entry := entry.(failures := if entry.failures < U32_MAX then entry.failures + 1 else U32_MAX);
      match entry.state {
        case HalfOpen => entry := entry.(state := Open, openedAt := Some(now));
        case Closed =>
          if entry.failures >= CB_THRESHOLD {
            entry := entry.(state := Open, openedAt := Some(now));
          }
        case Open =>
      }
      entries := entries[key := entry];
    }
  }

  // -------------------------------------------------------------------------
  // Interleaved runs
  // -------------------------------------------------------------------------

  datatype Call = Call(key: string, op: Op)

  function EntryAfter(ops: seq<Op>): Entry {
    if ops == [] then FRESH else Step(EntryAfter(ops[..|ops| - 1]), ops[|ops| - 1])
  }

  /** The calls concerning one key, in order. */
  function Project(calls: seq<Call>, key: string): seq<Op> {
    if calls == [] then []
    else
      var last := calls[|calls| - 1];
      Project(calls[..|calls| - 1], key) + (if last.key == key then [last.op] else [])
  }

  /** What a method of the breaker promises about its contents before and after a call. */
  ghost predicate Stepped(before: map<string, Entry>, call: Call, after: map<string, Entry>) {
    forall k :: Of(after, k) == if k == call.key then Step(Of(before, k), call.op) else Of(before, k)
  }

  /** Successive contents of a breaker under interleaved calls. */
  ghost predicate Runs(states: seq<map<string, Entry>>, calls: seq<Call>) {
    && |states| == |calls| + 1
    && states[0] == map[]
    && forall i | 0 <= i < |calls| :: Stepped(states[i], calls[i], states[i + 1])
  }

  /** Each key evolves from its own calls alone. */
  lemma {:induction false} KeysAreIndependent(states: seq<map<string, Entry>>, calls: seq<Call>, key: string)
    requires Runs(states, calls)
    ensures Of(states[|calls|], key) == EntryAfter(Project(calls, key))
    decreases calls
  {
    if calls != [] {
      var n := |calls| - 1;
      var before := Project(calls[..n], key);
      assert Stepped(states[n], calls[n], states[n + 1]);
      KeysAreIndependent(states[..n + 1], calls[..n], key);
      if calls[n].key == key {
        assert (before + [calls[n].op])[..|before|] == before;
      } else {
        assert before + [] == before;
      }
    }
  }

  /** Failures since the last success. */
  function Streak(ops: seq<Op>): nat {
    if ops == [] || ops[|ops| - 1].Success? then 0
    else (if ops[|ops| - 1].Failure? then 1 else 0) + Streak(ops[..|ops| - 1])
  }

  /** The counter is the saturated streak, the circuit is closed exactly below three, and an open
      time is kept exactly while it is not closed. */
  lemma {:induction false} BreakerRefinesHistory(ops: seq<Op>)
    ensures var e := EntryAfter(ops);
            && e.failures == (if Streak(ops) <= U32_MAX then Streak(ops) else U32_MAX)
            && (e.state.Closed? <==> Streak(ops) < CB_THRESHOLD)
            && (e.openedAt.Some? <==> !e.state.Closed?)
  {
    if ops != [] {
      BreakerRefinesHistory(ops[..|ops| - 1]);
    }
  }

  /** The time the circuit last opened, from the history alone: that of the third failure since the last success, or
      of the first failure after a probe. */
  function OpenedAt(ops: seq<Op>): Option<int>
    decreases |ops|
  {
    if ops == [] then None
    else
      var (before, last) := (ops[..|ops| - 1], ops[|ops| - 1]);
      match last
      case Success => None
      case Available(_) => OpenedAt(before)
      case Failure(t) =>
        if Streak(ops) < 3 then None
        else if Streak(ops) == 3 || Probed(before) then Some(t)
        else OpenedAt(before)
  }

  /** Whether a check has been made, since the last outcome, on or after 300 s from the opening. */
  predicate Probed(ops: seq<Op>)
    decreases |ops|
  {
    ops != [] && ops[|ops| - 1].Available?
    && var before := ops[..|ops| - 1];
       || Probed(before)
       || (OpenedAt(before).Some? && ops[|ops| - 1].at >= OpenedAt(before).value + 300_000_000_000)
  }

  /** The whole entry from the history: saturated streak, opening time, and open until probed. */
  lemma {:induction false} EntryFromHistory(ops: seq<Op>)
    ensures EntryAfter(ops) ==
            Entry(if Streak(ops) <= U32_MAX then Streak(ops) else U32_MAX, OpenedAt(ops),
                  if Streak(ops) < 3 then Closed else if Probed(ops) then HalfOpen else Open)
    ensures OpenedAt(ops).Some? <==> Streak(ops) >= 3
  {
    if ops != [] {
      EntryFromHistory(ops[..|ops| - 1]);
    }
  }

  ghost predicate NoLaterThan(op: Op, t: int) {
    op.Success? || op.at <= t
  }

  /** Once open, the entry keeps its open time until the cooldown has run or a success is recorded. */
  lemma {:induction false} StaysOpen(ops: seq<Op>, i: nat, j: nat, t: int)
    requires i <= j <= |ops|
    requires EntryAfter(ops[..i]).state.Open?
    requires forall k | i <= k < j :: !ops[k].Success? && NoLaterThan(ops[k], t)
    requires EntryAfter(ops[..i]).openedAt.Some? && t - EntryAfter(ops[..i]).openedAt.value < CB_COOLDOWN
    ensures EntryAfter(ops[..j]).state.Open?
    ensures EntryAfter(ops[..j]).openedAt == EntryAfter(ops[..i]).openedAt
    decreases j
  {
    if i < j {
      StaysOpen(ops, i, j - 1, t);
      assert ops[..j][..j - 1] == ops[..j - 1];
    }
  }

  lemma {:induction false} HalfOpenIsLate(ops: seq<Op>, t: int)
    requires forall k | 0 <= k < |ops| :: NoLaterThan(ops[k], t)
    ensures var e := EntryAfter(ops);
            e.state.HalfOpen? && e.openedAt.Some? ==> t - e.openedAt.value >= CB_COOLDOWN
  {
    if ops != [] {
      var n := |ops| - 1;
      assert forall k | 0 <= k < n :: NoLaterThan(ops[..n][k], t);
      HalfOpenIsLate(ops[..n], t);
      assert NoLaterThan(ops[n], t);
    }
  }

  /** After any history, a call is let through exactly when fewer than three failures have followed the last
      success or the cooldown has run since the circuit opened. */
  lemma AdmitsIff(ops: seq<Op>, t: int)
    requires forall k | 0 <= k < |ops| :: NoLaterThan(ops[k], t)
    ensures var e := EntryAfter(ops);
            && (Streak(ops) >= CB_THRESHOLD ==> e.openedAt.Some?)
            && (Admits(e, t) <==> Streak(ops) < CB_THRESHOLD || t - e.openedAt.value >= CB_COOLDOWN)
  {
    BreakerRefinesHistory(ops);
    HalfOpenIsLate(ops, t);
  }

  /** A failure at time `t` that is the third or a later one since the last success, with no success after it. */
  ghost predicate OpenedBy(ops: seq<Op>, k: nat, t: int) {
    && k < |ops| && ops[k] == Failure(t) && Streak(ops[..k + 1]) >= CB_THRESHOLD
    && forall m | k < m < |ops| :: !ops[m].Success?
  }

  /** The open time is the time of such a failure. */
  lemma {:induction false} OpenedByFailure(ops: seq<Op>) returns (k: nat)
    requires EntryAfter(ops).openedAt.Some?
    ensures OpenedBy(ops, k, EntryAfter(ops).openedAt.value)
  {
    var n := |ops| - 1;
    var before := EntryAfter(ops[..n]);
    BreakerRefinesHistory(ops);
    BreakerRefinesHistory(ops[..n]);
    assert ops[..n + 1] == ops;
    if before.openedAt == EntryAfter(ops).openedAt && before.openedAt.Some? && !ops[n].Success? {
      k := OpenedByFailure(ops[..n]);
      assert ops[..n][..k + 1] == ops[..k + 1];
      assert forall m | k < m < n :: ops[..n][m] == ops[m];
    } else {
      k := n;
    }
  }

  /** The open time is that of the last failure recorded while the circuit was not open. */
  lemma {:induction false} LastOpening(ops: seq<Op>) returns (k: nat)
    requires EntryAfter(ops).openedAt.Some?
    ensures k < |ops| && ops[k] == Failure(EntryAfter(ops).openedAt.value) && !EntryAfter(ops[..k]).state.Open?
    ensures forall m | k < m < |ops| :: !ops[m].Success? && (ops[m].Failure? ==> EntryAfter(ops[..m]).state.Open?)
  {
    var n := |ops| - 1;
    var before := EntryAfter(ops[..n]);
    BreakerRefinesHistory(ops);
    BreakerRefinesHistory(ops[..n]);
    if ops[n].Failure? && !before.state.Open? {
      k := n;
    } else {
      k := LastOpening(ops[..n]);
      assert ops[..n][..k] == ops[..k];
      forall m | k < m < n ensures ops[..n][m] == ops[m] && ops[..n][..m] == ops[..m] {
      }
    }
  }

  /** A failure that opens the circuit, a failed probe included, starts the cooldown anew: no check in the 300 s after
      it is admitted unless a success comes between. */
  lemma CooldownFromFailure(ops: seq<Op>, i: nat, j: nat, now: int)
    requires i < j <= |ops| && ops[i].Failure? && !EntryAfter(ops[..i]).state.Open? && Streak(ops[..i + 1]) >= 3
    requires forall k | i < k < j :: !ops[k].Success? && NoLaterThan(ops[k], now)
    requires now < ops[i].at + 300_000_000_000
    ensures !Admits(EntryAfter(ops[..j]), now)
  {
    BreakerRefinesHistory(ops[..i]);
    assert ops[..i + 1][..i] == ops[..i];
    StaysOpen(ops, i + 1, j, now);
  }

  function ProbeThenFailure(t: int): seq<Op> {
    [Failure(t), Failure(t), Failure(t), Available(t + 300_000_000_000), Failure(t + 300_000_000_001)]
  }

  /** Three failures at t, an admitted check after the cooldown, a failure: the next check is refused. */
  lemma FailedProbeRestarts(t: int, now: int)
    requires now < t + 300_000_000_001 + 300_000_000_000
    ensures var ops := ProbeThenFailure(t);
            Admits(EntryAfter(ops[..3]), t + 300_000_000_000) && !Admits(EntryAfter(ops), now)
  {
    var ops := ProbeThenFailure(t);
    var (one, two, three, four) := (ops[..1], ops[..2], ops[..3], ops[..4]);
    assert one[..0] == [] && two[..1] == one && three[..2] == two && four[..3] == three && ops[..4] == four;
    assert Streak(one) == 1 && Streak(two) == 2 && Streak(three) == 3 && Streak(four) == 3;
    assert OpenedAt(three) == Some(t) && Probed(four);
    EntryFromHistory(three);
    EntryFromHistory(ops);
  }

  /** In every run, a check made less than 300 s after the circuit opened is refused unless a
      success was recorded in between. */
  lemma CooldownHolds(ops: seq<Op>, i: nat, j: nat)
    requires i <= j < |ops| && ops[j].Available?
    requires EntryAfter(ops[..i]).state.Open?
    requires forall k | i <= k < j :: !ops[k].Success? && NoLaterThan(ops[k], ops[j].at)
    ensures var e := EntryAfter(ops[..i]);
            && e.openedAt.Some?
            && (ops[j].at < e.openedAt.value + CB_COOLDOWN ==> !Admits(EntryAfter(ops[..j]), ops[j].at))
  {
    BreakerRefinesHistory(ops[..i]);
    if ops[j].at < EntryAfter(ops[..i]).openedAt.value + CB_COOLDOWN {
      StaysOpen(ops, i, j, ops[j].at);
    }
  }

  /** A half-open circuit lets every caller through until an outcome is recorded, not one probe:
      whatever number of checks follows, each is admitted. */
  lemma {:induction false} HalfOpenAdmitsEveryCaller(ops: seq<Op>, checks: seq<int>, now: int)
    requires EntryAfter(ops).state.HalfOpen?
    ensures EntryAfter(ops + seq(|checks|, i requires 0 <= i < |checks| => Available(checks[i]))).state.HalfOpen?
    ensures Admits(EntryAfter(ops + seq(|checks|, i requires 0 <= i < |checks| => Available(checks[i]))), now)
  {
    var all := ops + seq(|checks|, i requires 0 <= i < |checks| => Available(checks[i]));
    if checks == [] {
      assert all == ops;
    } else {
      var fewer := checks[..|checks| - 1];
      HalfOpenAdmitsEveryCaller(ops, fewer, now);
      assert all[..|all| - 1] == ops + seq(|fewer|, i requires 0 <= i < |fewer| => Available(fewer[i]));
    }
  }

  /** Three failures and a cooldown later, three calls in a row are let through with no outcome recorded between
      them. */
  lemma ThreeCallersProbe(t: int)
    ensures var (fails, check) := ([Failure(t), Failure(t), Failure(t)], Available(t + CB_COOLDOWN));
            && EntryAfter(fails).state.Open?
            && EntryAfter(fails + [check]).state.HalfOpen?
            && Admits(EntryAfter(fails), check.at)
            && Admits(EntryAfter(fails + [check]), check.at)
            && Admits(EntryAfter(fails + [check] + [check]), check.at)
  {
    var (fails, check) := ([Failure(t), Failure(t), Failure(t)], Available(t + CB_COOLDOWN));
    var two := fails[..2];
    assert two[..1][..0] == [];
    assert EntryAfter(two[..1]) == Entry(1, None, Closed);
    assert EntryAfter(two) == Entry(2, None, Closed);
    assert EntryAfter(fails) == Entry(3, Some(t), Open);
    var one := fails + [check];
    assert one[..3] == fails;
    assert (one + [check])[..4] == one;
  }
}
