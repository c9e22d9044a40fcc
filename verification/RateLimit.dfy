/** The client-log worker's fixed-window limiter, and the sliding bound it gives. */
module RateLimit {
  import opened Text

  const RATE_LIMIT: nat := 50
  const RATE_WINDOW_MS: nat := 60_000

  datatype Bucket = Bucket(count: nat, windowStart: int)

  datatype Request = Request(ip: string, at: int)

  type Buckets = map<string, Bucket>

  /** Whether a request starts a new window for its address. */
  predicate Opens(buckets: Buckets, r: Request) {
    r.ip !in buckets || r.at - buckets[r.ip].windowStart > RATE_WINDOW_MS
  }

  function NextBucket(buckets: Buckets, r: Request): Bucket {
    if Opens(buckets, r) then Bucket(1, r.at)
    else buckets[r.ip].(count := buckets[r.ip].count + 1)
  }

  function Next(buckets: Buckets, r: Request): Buckets {
    buckets[r.ip := NextBucket(buckets, r)]
  }

  predicate Allows(buckets: Buckets, r: Request) {
    NextBucket(buckets, r).count <= RATE_LIMIT
  }

  class Worker {
    var rateBuckets: Buckets

    constructor ()
      ensures rateBuckets == map[]
    {
      rateBuckets := map[];
    }

    method CheckRateLimit(ip: string, now: int) returns (allowed: bool)
      modifies this
      ensures rateBuckets == Next(old(rateBuckets), Request(ip, now))
      ensures allowed == Allows(old(rateBuckets), Request(ip, now))
    {
      if ip !in rateBuckets || now - rateBuckets[ip].windowStart > RATE_WINDOW_MS {
        rateBuckets := rateBuckets[ip := Bucket(1, now)];
        return true;
      }
      var count := rateBuckets[ip].count + 1;
      rateBuckets := rateBuckets[ip := rateBuckets[ip].(count := count)];
      return count <= RATE_LIMIT;
    }
  }

  // -------------------------------------------------------------------------
  // Whole runs
  // -------------------------------------------------------------------------

  function After(buckets: Buckets, rs: seq<Request>): Buckets
    decreases rs
  {
    if rs == [] then buckets else After(Next(buckets, rs[0]), rs[1..])
  }

  /** How many of the requests from `ip` are accepted. */
  function Accepted(buckets: Buckets, rs: seq<Request>, ip: string): nat
    decreases rs
  {
    if rs == [] then 0
    else
      (if rs[0].ip == ip && Allows(buckets, rs[0]) then 1 else 0)
      + Accepted(Next(buckets, rs[0]), rs[1..], ip)
  }

  ghost predicate Between(rs: seq<Request>, ip: string, lo: int, hi: int) {
    forall i | 0 <= i < |rs| && rs[i].ip == ip :: lo <= rs[i].at <= hi
  }

  ghost predicate Chronological(rs: seq<Request>) {
    forall i, j | 0 <= i < j < |rs| :: rs[i].at <= rs[j].at
  }

  /** What is left of a window's allowance. */
  function Allowance(buckets: Buckets, ip: string): nat {
    if ip in buckets && buckets[ip].count < RATE_LIMIT then RATE_LIMIT - buckets[ip].count else 0
  }

  lemma {:induction false} OneWindow(buckets: Buckets, rs: seq<Request>, ip: string, lo: int)
    requires ip in buckets
    requires Between(rs, ip, lo, buckets[ip].windowStart + RATE_WINDOW_MS)
    ensures Accepted(buckets, rs, ip) <= Allowance(buckets, ip)
    decreases rs
  {
    if rs != [] {
      assert rs[0].ip == ip ==> !Opens(buckets, rs[0]);
      assert Between(rs[1..], ip, lo, buckets[ip].windowStart + RATE_WINDOW_MS);
      OneWindow(Next(buckets, rs[0]), rs[1..], ip, lo);
    }
  }

  /** A request that opens a window and all that arrive inside it: at most 50 are accepted. */
  lemma WindowBound(buckets: Buckets, rs: seq<Request>, ip: string)
    requires rs != [] && rs[0].ip == ip && Opens(buckets, rs[0])
    requires Between(rs, ip, rs[0].at, rs[0].at + RATE_WINDOW_MS)
    ensures Accepted(buckets, rs, ip) <= RATE_LIMIT
  {
    assert Between(rs[1..], ip, rs[0].at, rs[0].at + RATE_WINDOW_MS);
    OneWindow(Next(buckets, rs[0]), rs[1..], ip, rs[0].at);
  }

  /** How many requests `ip` made. */
  function Requests(rs: seq<Request>, ip: string): nat {
    if rs == [] then 0 else (if rs[0].ip == ip then 1 else 0) + Requests(rs[1..], ip)
  }

  lemma {:induction false} InsideWindow(buckets: Buckets, rs: seq<Request>, ip: string, lo: int)
    requires ip in buckets && Between(rs, ip, lo, buckets[ip].windowStart + RATE_WINDOW_MS)
    ensures ip in After(buckets, rs)
    ensures After(buckets, rs)[ip] == Bucket(buckets[ip].count + Requests(rs, ip), buckets[ip].windowStart)
    decreases rs
  {
    if rs != [] {
      assert rs[0].ip == ip ==> !Opens(buckets, rs[0]);
      assert Between(rs[1..], ip, lo, buckets[ip].windowStart + RATE_WINDOW_MS);
      InsideWindow(Next(buckets, rs[0]), rs[1..], ip, lo);
    }
  }

  /** Which requests are accepted, from the requests alone. The first request of an address is. After a request that
      opened a window and whatever came from anywhere inside that window, the next is accepted exactly when the window
      is over or holds fewer than 50 requests of the address, refused ones counted; a refusal does not prolong it. */
  lemma AllowedIff(buckets: Buckets, rs: seq<Request>, r: Request)
    requires rs != [] && rs[0].ip == r.ip && Opens(buckets, rs[0])
    requires Between(rs, r.ip, rs[0].at, rs[0].at + 60_000)
    ensures Allows(After(buckets, rs), r) <==> r.at > rs[0].at + 60_000 || Requests(rs, r.ip) < 50
    ensures Opens(After(buckets, rs), r) <==> r.at > rs[0].at + 60_000
    ensures forall first: Request :: Opens(map[], first) && Allows(map[], first)
  {
    assert Between(rs[1..], r.ip, rs[0].at, rs[0].at + RATE_WINDOW_MS);
    InsideWindow(Next(buckets, rs[0]), rs[1..], r.ip, rs[0].at);
  }

  /** Other addresses do not count. */
  lemma {:induction false} OthersDoNotCount(buckets: Buckets, rs: seq<Request>, ip: string)
    requires Requests(rs, ip) == 0
    ensures ip in After(buckets, rs) <==> ip in buckets
    ensures ip in buckets ==> After(buckets, rs)[ip] == buckets[ip]
    decreases rs
  {
    if rs != [] {
      OthersDoNotCount(Next(buckets, rs[0]), rs[1..], ip);
    }
  }

  ghost predicate Counted(buckets: Buckets) {
    forall ip | ip in buckets :: buckets[ip].count >= 1
  }

  lemma {:induction false} CountedThroughout(buckets: Buckets, rs: seq<Request>)
    requires Counted(buckets)
    ensures Counted(After(buckets, rs))
    decreases rs
  {
    if rs != [] {
      CountedThroughout(Next(buckets, rs[0]), rs[1..]);
    }
  }

  /** From any state, requests that fit in one closed interval of the window's length meet at most
      the rest of one window and all of another. */
  lemma {:induction false} TwoWindows(buckets: Buckets, rs: seq<Request>, ip: string, lo: int)
    requires Between(rs, ip, lo, lo + RATE_WINDOW_MS)
    ensures Accepted(buckets, rs, ip) <= Allowance(buckets, ip) + RATE_LIMIT
    decreases rs
  {
    if rs != [] {
      assert Between(rs[1..], ip, lo, lo + RATE_WINDOW_MS);
      if rs[0].ip == ip && Opens(buckets, rs[0]) {
        assert Between(rs[1..], ip, lo, rs[0].at + RATE_WINDOW_MS);
        OneWindow(Next(buckets, rs[0]), rs[1..], ip, lo);
      } else {
        TwoWindows(Next(buckets, rs[0]), rs[1..], ip, lo);
      }
    }
  }

  lemma SliceBound(rs: seq<Request>, i: nat, j: nat, ip: string, lo: int)
    requires i <= j <= |rs|
    requires Between(rs[i..j], ip, lo, lo + RATE_WINDOW_MS)
    ensures Accepted(After(map[], rs[..i]), rs[i..j], ip) <= 99
  {
    var buckets := After(map[], rs[..i]);
    CountedThroughout(map[], rs[..i]);
    TwoWindows(buckets, rs[i..j], ip, lo);
  }

  /** How many of the requests from `ip` made from `lo` to `hi` are accepted. */
  function AcceptedIn(buckets: Buckets, rs: seq<Request>, ip: string, lo: int, hi: int): nat
    decreases rs
  {
    if rs == [] then 0
    else
      (if rs[0].ip == ip && lo <= rs[0].at <= hi && Allows(buckets, rs[0]) then 1 else 0)
      + AcceptedIn(Next(buckets, rs[0]), rs[1..], ip, lo, hi)
  }

  lemma {:induction false} NoneAfter(buckets: Buckets, rs: seq<Request>, ip: string, lo: int, hi: int)
    requires forall i | 0 <= i < |rs| :: rs[i].at > hi
    ensures AcceptedIn(buckets, rs, ip, lo, hi) == 0
    decreases rs
  {
    if rs != [] {
      NoneAfter(Next(buckets, rs[0]), rs[1..], ip, lo, hi);
    }
  }

  lemma {:induction false} UpTo(buckets: Buckets, rs: seq<Request>, ip: string, lo: int, hi: int) returns (j: nat)
    requires Chronological(rs) && forall i | 0 <= i < |rs| :: rs[i].at >= lo
    ensures j <= |rs| && Between(rs[..j], ip, lo, hi)
    ensures AcceptedIn(buckets, rs, ip, lo, hi) == Accepted(buckets, rs[..j], ip)
    decreases rs
  {
    j := 0;
    if rs != [] && rs[0].at <= hi {
      j := UpTo(Next(buckets, rs[0]), rs[1..], ip, lo, hi);
      j := j + 1;
      assert rs[..j][1..] == rs[1..][..j - 1];
      assert forall i | 1 <= i < j :: rs[..j][i] == rs[1..][..j - 1][i - 1];
    } else {
      NoneAfter(buckets, rs, ip, lo, hi);
    }
  }

  /** In chronological order, what falls in an interval is a slice of the run. */
  lemma {:induction false} IntervalIsSlice(buckets: Buckets, rs: seq<Request>, ip: string, lo: int, hi: int)
    returns (i: nat, j: nat)
    requires Chronological(rs)
    ensures i <= j <= |rs| && Between(rs[i..j], ip, lo, hi)
    ensures AcceptedIn(buckets, rs, ip, lo, hi) == Accepted(After(buckets, rs[..i]), rs[i..j], ip)
    decreases rs
  {
    if rs != [] && rs[0].at < lo {
      var a, b := IntervalIsSlice(Next(buckets, rs[0]), rs[1..], ip, lo, hi);
      i, j := a + 1, b + 1;
      SliceOfTail(rs, 0, a);
      SliceOfTail(rs, a, b);
      assert rs[..i] == [rs[0]] + rs[1..i];
    } else {
      i := 0;
      j := UpTo(buckets, rs, ip, lo, hi);
      assert rs[0..j] == rs[..j];
    }
  }

  /** In every run, every closed interval of 60 000 ms holds at most 99 accepted requests from one
      address: fewer than the 100 two full windows would give, because the request that opens
      the earlier window falls outside. */
  lemma SlidingBound(rs: seq<Request>, ip: string, lo: int)
    requires Chronological(rs)
    ensures AcceptedIn(map[], rs, ip, lo, lo + RATE_WINDOW_MS) <= 99
  {
    var i, j := IntervalIsSlice(map[], rs, ip, lo, lo + RATE_WINDOW_MS);
    SliceBound(rs, i, j, ip, lo);
  }

  // -------------------------------------------------------------------------
  // The bound is met
  // -------------------------------------------------------------------------

  lemma {:induction false} SteadyWindow(buckets: Buckets, r: Request, n: nat, rest: seq<Request>)
    requires r.ip in buckets && !Opens(buckets, r)
    requires buckets[r.ip].count + n <= RATE_LIMIT
    ensures Accepted(buckets, seq(n, _ => r) + rest, r.ip) ==
            n + Accepted(buckets[r.ip := buckets[r.ip].(count := buckets[r.ip].count + n)], rest, r.ip)
    decreases n
  {
    if n == 0 {
      assert seq(n, _ => r) + rest == rest;
      assert buckets[r.ip := buckets[r.ip].(count := buckets[r.ip].count + n)] == buckets;
    } else {
      var next := Next(buckets, r);
      assert (seq(n, _ => r) + rest)[1..] == seq(n - 1, _ => r) + rest;
      SteadyWindow(next, r, n - 1, rest);
      assert next[r.ip := next[r.ip].(count := next[r.ip].count + (n - 1))] ==
             buckets[r.ip := buckets[r.ip].(count := buckets[r.ip].count + n)];
    }
  }

  lemma {:induction false} AllInside(buckets: Buckets, rs: seq<Request>, ip: string, lo: int, hi: int)
    requires Between(rs, ip, lo, hi)
    ensures AcceptedIn(buckets, rs, ip, lo, hi) == Accepted(buckets, rs, ip)
    decreases rs
  {
    if rs != [] {
      assert Between(rs[1..], ip, lo, hi);
      AllInside(Next(buckets, rs[0]), rs[1..], ip, lo, hi);
    }
  }

  /** One request at t, 49 at t + 60 000 and 50 a millisecond later. */
  function Burst(ip: string, t: int): seq<Request> {
    [Request(ip, t)] + BurstTail(ip, t)
  }

  function BurstTail(ip: string, t: int): seq<Request> {
    seq(49, _ => Request(ip, t + 60_000)) + (seq(50, _ => Request(ip, t + 60_001)) + [])
  }

  lemma TailAccepted(ip: string, t: int)
    ensures Accepted(map[ip := Bucket(1, t)], BurstTail(ip, t), ip) == 99
  {
    var late, later := Request(ip, t + 60_000), Request(ip, t + 60_001);
    SteadyWindow(map[ip := Bucket(1, t)], late, 49, seq(50, _ => later) + []);
    var full := map[ip := Bucket(1, t)][ip := Bucket(50, t)];
    assert seq(50, _ => later) + [] == [later] + (seq(49, _ => later) + []);
    SteadyWindow(Next(full, later), later, 49, []);
  }

  /** After a request at t, 99 more are accepted between t + 1 and t + 60 001. */
  lemma SlidingBoundIsTight(ip: string, t: int)
    ensures Chronological(Burst(ip, t))
    ensures AcceptedIn(map[], Burst(ip, t), ip, t + 1, t + 1 + RATE_WINDOW_MS) == 99
  {
    var first := Request(ip, t);
    assert Burst(ip, t)[1..] == BurstTail(ip, t);
    assert Next(map[], first) == map[ip := Bucket(1, t)];
    AllInside(Next(map[], first), BurstTail(ip, t), ip, t + 1, t + 1 + RATE_WINDOW_MS);
    TailAccepted(ip, t);
  }
}
