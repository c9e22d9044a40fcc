/** Resolver subscriptions: a per-day query counter, and what it bounds over a whole run. */
module Quota {
  import opened Text

  const SECONDS_PER_DAY: nat := 86_400

  datatype Subscription = Subscription(
    expiresAt: int, queriesToday: int, dailyQueryLimit: int, lastResetDay: int, lastQueryAt: Option<int>)

  type Subscriptions = map<string, Subscription>

  function Day(now: nat): nat {
    now / SECONDS_PER_DAY
  }

  /** Queries already charged to the day of `now`. */
  function Charged(sub: Subscription, now: nat): int {
    if sub.lastResetDay != Day(now) then 0 else sub.queriesToday
  }

  predicate Accepts(subs: Subscriptions, token: string, now: nat) {
    && token in subs
    && now < subs[token].expiresAt
    && Charged(subs[token], now) < subs[token].dailyQueryLimit
  }

  function Next(subs: Subscriptions, token: string, now: nat): Subscriptions {
    if Accepts(subs, token, now) then
      subs[token := subs[token].(
             queriesToday := Charged(subs[token], now) + 1, lastResetDay := Day(now), lastQueryAt := Some(now))]
    else subs
  }

  class SubscriptionStore {
    var subscriptions: Subscriptions

    constructor ()
      ensures subscriptions == map[]
    {
      subscriptions := map[];
    }

    /** The token is drawn by the caller; the table refuses one it already holds. */
    method CreateResolverSubscription(token: string, expiresAt: int, dailyQueryLimit: int, now: nat)
      returns (created: bool)
      modifies this
      ensures created <==> token !in old(subscriptions)
      ensures subscriptions ==
              if created
              then old(subscriptions)[token := Subscription(expiresAt, 0, dailyQueryLimit, Day(now), None)]
              else old(subscriptions)
    {
      created := token !in subscriptions;
      if created {
        subscriptions :=
          subscriptions[token := Subscription(expiresAt, 0, dailyQueryLimit, now / SECONDS_PER_DAY, None)];
      }
    }

    method ValidateResolverSubscription(token: string, now: nat) returns (valid: bool)
      modifies this
      ensures valid == Accepts(old(subscriptions), token, now)
      ensures subscriptions == Next(old(subscriptions), token, now)
    {
      var today := now / SECONDS_PER_DAY;
      if token !in subscriptions {
        return false;
      }
      var row := subscriptions[token];
      var queriesToday := row.queriesToday;
      if now >= row.expiresAt {
        return false;
      }
      if row.lastResetDay != today {
        queriesToday := 0;
      }
      if queriesToday >= row.dailyQueryLimit {
        return false;
      }
      queriesToday := queriesToday + 1;
      subscriptions := subscriptions[token :=
        row.(queriesToday := queriesToday, lastResetDay := today, lastQueryAt := Some(now))];
      return true;
    }
  }

  // -------------------------------------------------------------------------
  // Whole runs
  // -------------------------------------------------------------------------

  datatype Call = Call(token: string, at: nat)

  /** The times at which calls with `token` are accepted. */
  function AcceptedTimes(subs: Subscriptions, calls: seq<Call>, token: string): seq<nat>
    decreases calls
  {
    if calls == [] then []
    else
      (if calls[0].token == token && Accepts(subs, token, calls[0].at) then [calls[0].at] else [])
      + AcceptedTimes(Next(subs, calls[0].token, calls[0].at), calls[1..], token)
  }

  ghost predicate ClockRuns(start: nat, calls: seq<Call>) {
    && (forall i | 0 <= i < |calls| :: start <= calls[i].at)
    && (forall i, j | 0 <= i < j < |calls| :: calls[i].at <= calls[j].at)
  }

  function OnDay(times: seq<nat>, day: nat): nat {
    if times == [] then 0
    else (if Day(times[0]) == day then 1 else 0) + OnDay(times[1..], day)
  }

  ghost function Days(times: seq<nat>): set<nat> {
    set i | 0 <= i < |times| :: Day(times[i])
  }

  /** A row as it can stand at time `start`: never charged ahead of the clock. */
  ghost predicate Current(subs: Subscriptions, token: string, start: nat) {
    token in subs ==> subs[token].queriesToday >= 0 && subs[token].lastResetDay <= Day(start)
  }

  lemma DaysGrow(a: nat, b: nat)
    requires a <= b
    ensures Day(a) <= Day(b)
  {
  }

  lemma NextIsCurrent(subs: Subscriptions, token: string, start: nat, call: Call)
    requires Current(subs, token, start) && start <= call.at
    ensures Current(Next(subs, call.token, call.at), token, call.at)
  {
    DaysGrow(start, call.at);
  }

  lemma DayOfPrepended(t: nat, times: seq<nat>, day: nat)
    ensures OnDay([t] + times, day) == (if Day(t) == day then 1 else 0) + OnDay(times, day)
    ensures Days([t] + times) == {Day(t)} + Days(times)
  {
    var all := [t] + times;
    assert all[1..] == times;
    assert forall i | 0 <= i < |times| :: all[i + 1] == times[i];
  }

  /** What `sub` may still accept on a day. */
  function Remaining(sub: Subscription, day: nat): nat {
    var left := if day == sub.lastResetDay then sub.dailyQueryLimit - sub.queriesToday else sub.dailyQueryLimit;
    if day < sub.lastResetDay || left < 0 then 0 else left
  }

  lemma {:induction false} DailyBound(subs: Subscriptions, calls: seq<Call>, token: string, day: nat, start: nat)
    requires ClockRuns(start, calls) && token in subs && Current(subs, token, start)
    ensures OnDay(AcceptedTimes(subs, calls, token), day) <= Remaining(subs[token], day)
    decreases calls
  {
    if calls != [] {
      var call := calls[0];
      var next := Next(subs, call.token, call.at);
      NextIsCurrent(subs, token, start, call);
      DaysGrow(start, call.at);
      DailyBound(next, calls[1..], token, day, call.at);
      var rest := AcceptedTimes(next, calls[1..], token);
      if call.token == token && Accepts(subs, token, call.at) {
        DayOfPrepended(call.at, rest, day);
      } else {
        assert [] + rest == rest;
      }
    }
  }

  lemma {:induction false} AcceptedInTime(subs: Subscriptions, calls: seq<Call>, token: string, start: nat)
    requires ClockRuns(start, calls) && token in subs
    ensures forall t | t in AcceptedTimes(subs, calls, token) :: start <= t < subs[token].expiresAt
    decreases calls
  {
    if calls != [] {
      AcceptedInTime(Next(subs, calls[0].token, calls[0].at), calls[1..], token, calls[0].at);
    }
  }

  lemma {:induction false} TotalBound(subs: Subscriptions, calls: seq<Call>, token: string, start: nat)
    requires ClockRuns(start, calls) && token in subs && Current(subs, token, start)
    ensures var sub, times := subs[token], AcceptedTimes(subs, calls, token);
            |times| <= sub.dailyQueryLimit * |Days(times)|
                       - (if sub.lastResetDay in Days(times) then sub.queriesToday else 0)
    decreases calls
  {
    if calls != [] {
      var call := calls[0];
      var next := Next(subs, call.token, call.at);
      NextIsCurrent(subs, token, start, call);
      TotalBound(next, calls[1..], token, call.at);
      var rest := AcceptedTimes(next, calls[1..], token);
      if call.token == token && Accepts(subs, token, call.at) {
        DaysGrow(start, call.at);
        DayOfPrepended(call.at, rest, 0);
        NoEarlierDays(next, calls[1..], token, call.at);
        OneMoreDay(subs[token], Day(call.at), Charged(subs[token], call.at), Days(rest), |rest|);
      } else {
        assert [] + rest == rest;
      }
    }
  }

  lemma NoEarlierDays(subs: Subscriptions, calls: seq<Call>, token: string, start: nat)
    requires ClockRuns(start, calls) && token in subs
    ensures forall day | day in Days(AcceptedTimes(subs, calls, token)) :: Day(start) <= day
  {
    AcceptedInTime(subs, calls, token, start);
    var times := AcceptedTimes(subs, calls, token);
    forall i | 0 <= i < |times| ensures Day(start) <= Day(times[i]) {
      assert times[i] in times;
      DaysGrow(start, times[i]);
    }
  }

  lemma OneMoreDay(sub: Subscription, today: nat, charged: int, days: set<nat>, rest: nat)
    requires 0 <= charged < sub.dailyQueryLimit
    requires sub.lastResetDay <= today
    requires charged == if sub.lastResetDay == today then sub.queriesToday else 0
    requires forall day | day in days :: today <= day
    requires rest <= sub.dailyQueryLimit * |days| - (if today in days then charged + 1 else 0)
    ensures var all := {today} + days;
            1 + rest <= sub.dailyQueryLimit * |all| - (if sub.lastResetDay in all then sub.queriesToday else 0)
  {
    var all := {today} + days;
    if today in days {
      assert all == days;
    } else {
      assert |all| == |days| + 1;
      assert sub.dailyQueryLimit * |all| == sub.dailyQueryLimit * |days| + sub.dailyQueryLimit;
    }
  }

  /** For every run of validation calls on any tokens under a clock that never goes back: a
      subscription accepts at most its limit on any one day, nothing at or after its expiry, and
      in all at most the limit times the number of days it was used. */
  lemma QuotaHolds(subs: Subscriptions, calls: seq<Call>, token: string, start: nat)
    requires ClockRuns(start, calls) && Current(subs, token, start)
    ensures var times := AcceptedTimes(subs, calls, token);
            if token in subs then
              var limit := subs[token].dailyQueryLimit;
              && (forall day :: OnDay(times, day) <= if limit < 0 then 0 else limit)
              && (forall t | t in times :: t < subs[token].expiresAt)
              && |times| <= limit * |Days(times)|
            else times == []
  {
    if token in subs {
      forall day: nat ensures OnDay(AcceptedTimes(subs, calls, token), day) <= Remaining(subs[token], day) {
        DailyBound(subs, calls, token, day, start);
      }
      AcceptedInTime(subs, calls, token, start);
      TotalBound(subs, calls, token, start);
    } else {
      UnknownToken(subs, calls, token);
    }
  }

  lemma {:induction false} UnknownToken(subs: Subscriptions, calls: seq<Call>, token: string)
    requires token !in subs
    ensures AcceptedTimes(subs, calls, token) == []
    decreases calls
  {
    if calls != [] {
      UnknownToken(Next(subs, calls[0].token, calls[0].at), calls[1..], token);
    }
  }

  // -------------------------------------------------------------------------
  // Which calls are accepted
  // -------------------------------------------------------------------------

  function After(subs: Subscriptions, calls: seq<Call>): Subscriptions
    decreases calls
  {
    if calls == [] then subs else After(Next(subs, calls[0].token, calls[0].at), calls[1..])
  }

  /** What a row had been charged for a day before the run. */
  function ChargedBefore(sub: Subscription, day: nat): int {
    if day == sub.lastResetDay then sub.queriesToday else 0
  }

  lemma {:induction false} ChargedByHistory(subs: Subscriptions, calls: seq<Call>, token: string, start: nat, now: nat)
    requires ClockRuns(start, calls) && token in subs && Current(subs, token, start) && start <= now
    requires forall i | 0 <= i < |calls| :: calls[i].at <= now
    ensures token in After(subs, calls)
    ensures var (sub, after) := (subs[token], After(subs, calls)[token]);
            && after.expiresAt == sub.expiresAt && after.dailyQueryLimit == sub.dailyQueryLimit
            && after.lastResetDay <= Day(now)
            && ChargedBefore(after, Day(now)) ==
               ChargedBefore(sub, Day(now)) + OnDay(AcceptedTimes(subs, calls, token), Day(now))
    decreases calls
  {
    if calls == [] {
      DaysGrow(start, now);
    } else {
      var call := calls[0];
      var next := Next(subs, call.token, call.at);
      NextIsCurrent(subs, token, start, call);
      DaysGrow(start, call.at);
      DaysGrow(call.at, now);
      ChargedByHistory(next, calls[1..], token, call.at, now);
      var rest := AcceptedTimes(next, calls[1..], token);
      if call.token == token && Accepts(subs, token, call.at) {
        DayOfPrepended(call.at, rest, Day(now));
      } else {
        assert [] + rest == rest;
      }
    }
  }

  /** After any run of calls on any tokens, one more call is accepted exactly when the token is known, has not expired,
      and fewer calls than its limit have been accepted on the same day: each day starts with the whole limit. */
  lemma AcceptedIff(subs: Subscriptions, calls: seq<Call>, token: string, start: nat, now: nat)
    requires ClockRuns(start, calls) && Current(subs, token, start) && start <= now
    requires forall i | 0 <= i < |calls| :: calls[i].at <= now
    ensures Accepts(After(subs, calls), token, now) <==>
            && token in subs && now < subs[token].expiresAt
            && ChargedBefore(subs[token], now / 86_400) + OnDay(AcceptedTimes(subs, calls, token), now / 86_400)
               < subs[token].dailyQueryLimit
  {
    if token in subs {
      ChargedByHistory(subs, calls, token, start, now);
    } else {
      StaysUnknown(subs, calls, token);
    }
  }

  /** The row remembers when its last query was. */
  lemma {:induction false} LastQueryKept(subs: Subscriptions, calls: seq<Call>, token: string)
    requires token in subs
    ensures token in After(subs, calls)
    ensures var times := AcceptedTimes(subs, calls, token);
            After(subs, calls)[token].lastQueryAt ==
            if times == [] then subs[token].lastQueryAt else Some(times[|times| - 1])
    decreases calls
  {
    if calls != [] {
      LastQueryKept(Next(subs, calls[0].token, calls[0].at), calls[1..], token);
    }
  }

  lemma {:induction false} StaysUnknown(subs: Subscriptions, calls: seq<Call>, token: string)
    requires token !in subs
    ensures token !in After(subs, calls)
    decreases calls
  {
    if calls != [] {
      StaysUnknown(Next(subs, calls[0].token, calls[0].at), calls[1..], token);
    }
  }
}
