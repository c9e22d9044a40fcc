/** The hourly sweep: statuses move on with the clock, and a lease whose grace is over loses its records. */
module LeaseExpiry {
  import opened Delegations
  import opened Authority
  import opened Leases
  import opened Rdata
  import opened ZoneData
  import opened EventLog
  import opened Records
  import opened Store

  /** The rows a sweep will expire. */
  predicate Lapses(zones: seq<ZoneConfig>, table: Table, key: NameKey, now: int) {
    && key in table && !table[key].status.Expired?
    && table[key].validUntil <= now && table[key].validUntil + GraceSeconds(zones, key.zone) <= now
  }

  /** The RRset a record of the holder has under a delegated domain. */
  function TargetOf(r: EventRow, domain: string, zone: string): RrKey {
    RrKey(zone, InZone(Under(r.name, domain), zone), TypeNumber(r.rtype))
  }

  predicate LiveOf(r: EventRow, npub: string, zone: string) {
    r.npub == npub && r.zone == zone && !r.deleted
  }

  ghost predicate IsTarget(rows: Rows, npub: string, domain: string, zone: string, k: RrKey) {
    exists i | 0 <= i < |rows| :: LiveOf(rows[i], npub, zone) && TargetOf(rows[i], domain, zone) == k
  }

  /** What becomes of the delete message for an RRset. */
  type Fates = RrKey -> Outcome

  /** A zone with some RRsets emptied. */
  ghost function Emptied(data: Data, gone: iset<RrKey>): Data {
    map k | k in data && k !in gone :: data[k]
  }

  /** What the delete messages for a holder's live records under a domain empty. */
  ghost function Emptying(rows: Rows, npub: string, domain: string, zone: string, fates: Fates): iset<RrKey> {
    iset k | IsTarget(rows, npub, domain, zone, k) && !fates(k).Rejected?
  }

  /** Deletes the RRset of every live record of the holder under the domain, each once. */
  method DeleteLapsedRecords(store: Store, knot: Knot, npub: string, domain: string, zone: string, fates: Fates)
    modifies knot
    ensures knot.data == Emptied(old(knot.data), Emptying(store.events, npub, domain, zone, fates))
  {
    var sent: set<RrKey> := {};
    ghost var (start, done) := (knot.data, []);
    NoneSent(npub, domain, zone, fates, start);
    for i := 0 to |store.events|
      invariant done == store.events[..i]
      invariant SentSoFar(done, npub, domain, zone, fates, start, sent, knot.data)
    {
      var rec := store.events[i];
      var target := TargetOf(rec, domain, zone);
      SentOneMore(done, rec, npub, domain, zone, fates, start, sent, knot.data);
      if LiveOf(rec, npub, zone) && target !in sent {
        TargetIsQualified(rec, domain, zone, knot.data, fates(target));
        sent := sent + {target};
        var _ := knot.SendDeleteRecord(zone, target.name, target.rtype, fates(target));
      }
      done := done + [rec];
    }
    assert done == store.events;
  }

  lemma NoneSent(npub: string, domain: string, zone: string, fates: Fates, start: Data)
    ensures SentSoFar([], npub, domain, zone, fates, start, {}, start)
  {
    assert Emptied(start, Emptying([], npub, domain, zone, fates)) == start;
  }

  lemma TargetIsQualified(r: EventRow, domain: string, zone: string, data: Data, outcome: Outcome)
    ensures var target := TargetOf(r, domain, zone);
            DeleteRecord(data, zone, target.name, target.rtype, outcome).0 ==
            Sent(data, DeleteRRset(data, target), outcome)
  {
    NameEndsWithDot(Under(r.name, domain), zone);
  }

  /** The targets of `rows` are in `sent`, and the zone is rid of them. */
  ghost predicate SentSoFar(
    rows: Rows, npub: string, domain: string, zone: string, fates: Fates, start: Data, sent: set<RrKey>, data: Data)
  {
    && (forall k :: k in sent <==> IsTarget(rows, npub, domain, zone, k))
    && data == Emptied(start, Emptying(rows, npub, domain, zone, fates))
  }

  lemma SentOneMore(
    rows: Rows, rec: EventRow, npub: string, domain: string, zone: string, fates: Fates, start: Data,
    sent: set<RrKey>, data: Data)
    requires SentSoFar(rows, npub, domain, zone, fates, start, sent, data)
    ensures var target := TargetOf(rec, domain, zone);
            if LiveOf(rec, npub, zone) && target !in sent
            then SentSoFar(rows + [rec], npub, domain, zone, fates, start, sent + {target},
                           Sent(data, DeleteRRset(data, target), fates(target)))
            else SentSoFar(rows + [rec], npub, domain, zone, fates, start, sent, data)
  {
    TargetsGrow(rows, rec, npub, domain, zone);
  }

  lemma TargetsGrow(rows: Rows, r: EventRow, npub: string, domain: string, zone: string)
    ensures forall k :: IsTarget(rows + [r], npub, domain, zone, k) <==>
                        || IsTarget(rows, npub, domain, zone, k)
                        || (LiveOf(r, npub, zone) && TargetOf(r, domain, zone) == k)
  {
    var all := rows + [r];
    forall k ensures IsTarget(all, npub, domain, zone, k) <==>
                     IsTarget(rows, npub, domain, zone, k) || (LiveOf(r, npub, zone) && TargetOf(r, domain, zone) == k)
    {
      if i :| 0 <= i < |rows| && LiveOf(rows[i], npub, zone) && TargetOf(rows[i], domain, zone) == k {
        assert all[i] == rows[i];
      }
      assert all[|rows|] == r;
    }
  }

  // -------------------------------------------------------------------------
  // The effect of a sweep
  // -------------------------------------------------------------------------

  /** The table when the rows in `done` have been swept. */
  function PartlySwept(zones: seq<ZoneConfig>, table: Table, now: int, done: set<NameKey>): Table {
    map key | key in table ::
      if key in done then table[key].(status := SweptStatus(zones, key, table[key], now)) else table[key]
  }

  /** Whether an expired row of `done` was held by this row's signer in its zone. */
  predicate Lost(zones: seq<ZoneConfig>, table: Table, now: int, done: set<NameKey>, r: EventRow) {
    exists key | key in done :: Lapses(zones, table, key, now) && table[key].npub == r.npub && key.zone == r.zone
  }

  /** The events table when the rows in `done` have been swept: all records of a lapsed holder in the zone are
      gone, those under its npub included. */
  function Purged(zones: seq<ZoneConfig>, table: Table, now: int, done: set<NameKey>, rows: Rows): Rows {
    seq(|rows|, i requires 0 <= i < |rows| =>
      if Lost(zones, table, now, done, rows[i]) then rows[i].(deleted := true) else rows[i])
  }

  /** A sweep: when it runs, the zones it has an updater for, the rows it visits, and the fate of its messages. */
  datatype Pass = Pass(now: int, updaters: set<string>, due: seq<NameKey>, fates: Fates)

  /** Two lapsing names of one holder in one zone. */
  predicate LostTogether(zones: seq<ZoneConfig>, table: Table, now: int, a: NameKey, b: NameKey) {
    && Lapses(zones, table, a, now) && Lapses(zones, table, b, now)
    && a.zone == b.zone && table[a].npub == table[b].npub
  }

  /** The `n`th visited row lapses, and no row visited before it took its holder's records along. */
  ghost predicate IsFirst(zones: seq<ZoneConfig>, table: Table, pass: Pass, n: nat) {
    && n < |pass.due| && Lapses(zones, table, pass.due[n], pass.now)
    && forall m: nat | m < n :: !LostTogether(zones, table, pass.now, pass.due[m], pass.due[n])
  }

  ghost predicate ClearedBy(zones: seq<ZoneConfig>, table: Table, pass: Pass, rows: Rows, n: nat, k: RrKey) {
    && IsFirst(zones, table, pass, n)
    && var key := pass.due[n];
       key.zone in pass.updaters && k in Emptying(rows, table[key].npub, key.domain, key.zone, pass.fates)
  }

  ghost predicate IsCleared(zones: seq<ZoneConfig>, table: Table, pass: Pass, rows: Rows, count: nat, k: RrKey) {
    exists n: nat | n < count :: ClearedBy(zones, table, pass, rows, n, k)
  }

  /** The RRsets the first `count` visited rows empty. */
  ghost function Cleared(zones: seq<ZoneConfig>, table: Table, pass: Pass, rows: Rows, count: nat): iset<RrKey> {
    iset k | IsCleared(zones, table, pass, rows, count, k)
  }

  /** What a sweep makes of the events table and the DNS. */
  ghost function SweptWorld(zones: seq<ZoneConfig>, table: Table, pass: Pass, w: World): World {
    World(Purged(zones, table, pass.now, table.Keys, w.rows),
          Emptied(w.data, Cleared(zones, table, pass, w.rows, |pass.due|)))
  }

  /** One past-due row. */
  method SweepRow(
    store: Store, knot: Knot, zones: seq<ZoneConfig>, updaters: set<string>, key: NameKey, row: Row, now: int,
    fates: Fates)
    requires key in store.delegations && store.delegations[key] == row
    requires row.validUntil <= now && !row.status.Expired?
    modifies store, knot
    ensures store.delegations ==
            old(store.delegations)[key := row.(status := SweptStatus(zones, key, row, now))]
    ensures store.events ==
            if Lapses(zones, old(store.delegations), key, now)
            then SoftDeleteByHolder(old(store.events), row.npub, key.zone) else old(store.events)
    ensures knot.data ==
            if Lapses(zones, old(store.delegations), key, now) && key.zone in updaters
            then Emptied(old(knot.data), Emptying(old(store.events), row.npub, key.domain, key.zone, fates))
            else old(knot.data)
  {
    var deadline := row.validUntil + GraceSeconds(zones, key.zone);
    if now >= deadline {
      if key.zone in updaters {
        DeleteLapsedRecords(store, knot, row.npub, key.domain, key.zone, fates);
      }
      store.SoftDeleteRecordsByNpubZone(row.npub, key.zone);
      store.MarkDelegationExpired(key.domain, key.zone);
    } else if row.status.Active? {
      store.MarkDelegationGrace(key.domain, key.zone);
    }
    assert store.delegations[key] == row.(status := SweptStatus(zones, key, row, now));
  }

  // -------------------------------------------------------------------------
  // Row after row
  // -------------------------------------------------------------------------

  lemma SweptOneMore(zones: seq<ZoneConfig>, table: Table, now: int, done: set<NameKey>, key: NameKey)
    requires key in table
    ensures PartlySwept(zones, table, now, done + {key}) ==
            PartlySwept(zones, table, now, done)[key := table[key].(status := SweptStatus(zones, key, table[key], now))]
  {
  }

  lemma PurgedOneMore(zones: seq<ZoneConfig>, table: Table, now: int, done: set<NameKey>, key: NameKey, rows: Rows)
    requires key in table
    ensures Purged(zones, table, now, done + {key}, rows) ==
            if Lapses(zones, table, key, now)
            then SoftDeleteByHolder(Purged(zones, table, now, done, rows), table[key].npub, key.zone)
            else Purged(zones, table, now, done, rows)
  {
    forall i | 0 <= i < |rows|
      ensures Lost(zones, table, now, done + {key}, rows[i]) <==>
              || Lost(zones, table, now, done, rows[i])
              || (Lapses(zones, table, key, now) && table[key].npub == rows[i].npub && key.zone == rows[i].zone)
    {
      assert forall other :: other in done + {key} <==> other in done || other == key;
    }
  }

  /** The rows a sweep has visited. */
  ghost function Visited(due: seq<NameKey>, count: nat): set<NameKey>
    requires count <= |due|
  {
    set n | 0 <= n < count :: due[n]
  }

  /** A lapsing row still finds its holder's records exactly when it is the first to. */
  lemma TargetsLeft(zones: seq<ZoneConfig>, table: Table, pass: Pass, rows: Rows, n: nat, k: RrKey)
    requires n < |pass.due| && Lapses(zones, table, pass.due[n], pass.now)
    ensures var (key, left) := (pass.due[n], Purged(zones, table, pass.now, Visited(pass.due, n), rows));
            IsTarget(left, table[key].npub, key.domain, key.zone, k) <==>
            IsFirst(zones, table, pass, n) && IsTarget(rows, table[key].npub, key.domain, key.zone, k)
  {
    var key := pass.due[n];
    var done := Visited(pass.due, n);
    var left := Purged(zones, table, pass.now, done, rows);
    if IsFirst(zones, table, pass, n) {
      forall other | other in done ensures !LostTogether(zones, table, pass.now, other, key) {
        var m: nat :| m < n && pass.due[m] == other;
      }
      assert forall i | 0 <= i < |rows| && LiveOf(rows[i], table[key].npub, key.zone) :: left[i] == rows[i];
    } else {
      var m: nat :| m < n && LostTogether(zones, table, pass.now, pass.due[m], key);
      assert pass.due[m] in done;
    }
  }

  lemma ClearedOneMore(zones: seq<ZoneConfig>, table: Table, pass: Pass, rows: Rows, n: nat, data: Data)
    requires n < |pass.due| && pass.due[n] in table
    ensures var (key, left) := (pass.due[n], Purged(zones, table, pass.now, Visited(pass.due, n), rows));
            var before := Emptied(data, Cleared(zones, table, pass, rows, n));
            Emptied(data, Cleared(zones, table, pass, rows, n + 1)) ==
            if Lapses(zones, table, key, pass.now) && key.zone in pass.updaters
            then Emptied(before, Emptying(left, table[key].npub, key.domain, key.zone, pass.fates))
            else before
  {
    var (key, left) := (pass.due[n], Purged(zones, table, pass.now, Visited(pass.due, n), rows));
    forall k
      ensures k in Cleared(zones, table, pass, rows, n + 1) <==>
              || k in Cleared(zones, table, pass, rows, n)
              || (&& Lapses(zones, table, key, pass.now) && key.zone in pass.updaters
                  && k in Emptying(left, table[key].npub, key.domain, key.zone, pass.fates))
    {
      if Lapses(zones, table, key, pass.now) {
        TargetsLeft(zones, table, pass, rows, n, k);
      }
      assert ClearedBy(zones, table, pass, rows, n, k) <==>
             (&& Lapses(zones, table, key, pass.now) && key.zone in pass.updaters
              && k in Emptying(left, table[key].npub, key.domain, key.zone, pass.fates));
    }
  }

  /** The hourly sweep. Every row gets the status the sweep transition gives it, the records of lapsed holders are
      marked deleted, and the DNS loses exactly the RRsets that `Cleared` names. */
  method Sweep(store: Store, knot: Knot, zones: seq<ZoneConfig>, updaters: set<string>, now: int, fates: Fates)
    returns (due: seq<NameKey>)
    modifies store, knot
    ensures PastDueInOrder(old(store.delegations), now, due)
    ensures store.delegations == SweepTable(zones, old(store.delegations), now)
    ensures World(store.events, knot.data) ==
            SweptWorld(zones, old(store.delegations), Pass(now, updaters, due, fates),
                       World(old(store.events), old(knot.data)))
  {
    ghost var (table, start) := (store.delegations, World(store.events, knot.data));
    due := store.GetDelegationsPastValidUntil(now);
    ghost var pass := Pass(now, updaters, due, fates);
    var snapshot := store.delegations;
    NoneVisited(zones, table, pass, start);
    for n := 0 to |due|
      invariant snapshot == table
      invariant SweptSoFar(zones, table, pass, start, n, store.delegations, World(store.events, knot.data))
    {
      ghost var (before, w) := (store.delegations, World(store.events, knot.data));
      NotYetVisited(zones, table, pass, start, n, before, w);
      SweepRow(store, knot, zones, updaters, due[n], snapshot[due[n]], now, fates);
      SweptOneFurther(zones, table, pass, start, n, before, w, store.delegations, World(store.events, knot.data));
    }
    AllVisited(zones, table, now, due, start.rows);
  }

  /** Table and world when the first `n` rows have been visited. */
  ghost predicate SweptSoFar(
    zones: seq<ZoneConfig>, table: Table, pass: Pass, start: World, n: nat, table': Table, w: World)
  {
    && n <= |pass.due|
    && table' == PartlySwept(zones, table, pass.now, Visited(pass.due, n))
    && w.rows == Purged(zones, table, pass.now, Visited(pass.due, n), start.rows)
    && w.data == Emptied(start.data, Cleared(zones, table, pass, start.rows, n))
  }

  lemma NotYetVisited(
    zones: seq<ZoneConfig>, table: Table, pass: Pass, start: World, n: nat, table': Table, w: World)
    requires PastDueInOrder(table, pass.now, pass.due) && n < |pass.due|
    requires SweptSoFar(zones, table, pass, start, n, table', w)
    ensures IsPastDue(table, pass.due[n], pass.now)
    ensures pass.due[n] in table' && table'[pass.due[n]] == table[pass.due[n]]
  {
    assert pass.due[n] in pass.due && pass.due[n] !in Visited(pass.due, n);
  }

  lemma SweptOneFurther(
    zones: seq<ZoneConfig>, table: Table, pass: Pass, start: World, n: nat, before: Table, w: World,
    after: Table, w': World)
    requires SweptSoFar(zones, table, pass, start, n, before, w) && n < |pass.due|
    requires pass.due[n] in table && pass.due[n] in before && before[pass.due[n]] == table[pass.due[n]]
    requires var (key, row) := (pass.due[n], table[pass.due[n]]);
             var lapses := Lapses(zones, before, key, pass.now);
             && after == before[key := row.(status := SweptStatus(zones, key, row, pass.now))]
             && w'.rows == (if lapses then SoftDeleteByHolder(w.rows, row.npub, key.zone) else w.rows)
             && w'.data == (if lapses && key.zone in pass.updaters
                            then Emptied(w.data, Emptying(w.rows, row.npub, key.domain, key.zone, pass.fates))
                            else w.data)
    ensures SweptSoFar(zones, table, pass, start, n + 1, after, w')
  {
    VisitedOneMore(zones, table, pass, n, start.rows, start.data);
  }

  lemma NoneVisited(zones: seq<ZoneConfig>, table: Table, pass: Pass, start: World)
    ensures SweptSoFar(zones, table, pass, start, 0, table, start)
  {
    assert Visited(pass.due, 0) == {};
    assert PartlySwept(zones, table, pass.now, {}) == table;
    assert Purged(zones, table, pass.now, {}, start.rows) == start.rows;
    assert Emptied(start.data, Cleared(zones, table, pass, start.rows, 0)) == start.data;
  }

  lemma AllVisited(zones: seq<ZoneConfig>, table: Table, now: int, due: seq<NameKey>, rows: Rows)
    requires PastDueInOrder(table, now, due)
    ensures PartlySwept(zones, table, now, Visited(due, |due|)) == SweepTable(zones, table, now)
    ensures Purged(zones, table, now, Visited(due, |due|), rows) == Purged(zones, table, now, table.Keys, rows)
  {
    DueIsEnough(zones, table, now, due, Visited(due, |due|));
  }

  /** One visited row more. */
  lemma VisitedOneMore(zones: seq<ZoneConfig>, table: Table, pass: Pass, n: nat, rows: Rows, data: Data)
    requires n < |pass.due| && pass.due[n] in table
    ensures var (key, done) := (pass.due[n], Visited(pass.due, n));
            var (more, left) := (Visited(pass.due, n + 1), Purged(zones, table, pass.now, done, rows));
            var before := Emptied(data, Cleared(zones, table, pass, rows, n));
            && PartlySwept(zones, table, pass.now, more) ==
               PartlySwept(zones, table, pass.now, done)[
                 key := table[key].(status := SweptStatus(zones, key, table[key], pass.now))]
            && Purged(zones, table, pass.now, more, rows) ==
               (if Lapses(zones, table, key, pass.now)
                then SoftDeleteByHolder(left, table[key].npub, key.zone)
                else left)
            && Emptied(data, Cleared(zones, table, pass, rows, n + 1)) ==
               (if Lapses(zones, table, key, pass.now) && key.zone in pass.updaters
                then Emptied(before, Emptying(left, table[key].npub, key.domain, key.zone, pass.fates))
                else before)
  {
    var (key, done) := (pass.due[n], Visited(pass.due, n));
    assert Visited(pass.due, n + 1) == done + {key};
    SweptOneMore(zones, table, pass.now, done, key);
    PurgedOneMore(zones, table, pass.now, done, key, rows);
    ClearedOneMore(zones, table, pass, rows, n, data);
  }

  /** The rows not past due are not changed by a sweep, and none of them lapses. */
  lemma DueIsEnough(zones: seq<ZoneConfig>, table: Table, now: int, due: seq<NameKey>, done: set<NameKey>)
    requires PastDueInOrder(table, now, due) && done == Visited(due, |due|)
    ensures forall key | key in table && key !in done :: SweptStatus(zones, key, table[key], now) == table[key].status
    ensures forall key | Lapses(zones, table, key, now) :: key in done
    ensures done <= table.Keys
  {
    forall key | key in table && table[key].validUntil <= now && !table[key].status.Expired? ensures key in done {
      assert key in due;
    }
    forall key | key in done ensures key in table {
      assert key in due;
    }
  }

  // -------------------------------------------------------------------------
  // Which rows lapse
  // -------------------------------------------------------------------------

  /** A row lapses in a sweep exactly when the sweep makes it expired. */
  lemma LapsesIff(zones: seq<ZoneConfig>, table: Table, key: NameKey, now: int)
    ensures Lapses(zones, table, key, now) <==>
            key in table && !table[key].status.Expired? && SweepTable(zones, table, now)[key].status.Expired?
    ensures Lapses(zones, table, key, now) <==>
            && key in table && !table[key].status.Expired?
            && StatusAt(zones, key, table[key].validUntil, now).Expired?
  {
    assert key in table ==> SweepTable(zones, table, now)[key].status == SweptStatus(zones, key, table[key], now);
  }

  /** A sweep marks a record deleted exactly when it makes a lease of the record's signer in its zone expired, and
      changes nothing else of it. */
  lemma SweptRows(zones: seq<ZoneConfig>, table: Table, pass: Pass, w: World, i: nat)
    requires i < |w.rows|
    ensures var (rows, swept) := (SweptWorld(zones, table, pass, w).rows, SweepTable(zones, table, pass.now));
            && |rows| == |w.rows| && rows[i] == w.rows[i].(deleted := rows[i].deleted)
            && (rows[i].deleted <==>
                  || w.rows[i].deleted
                  || exists key | key in table ::
                       && table[key].npub == w.rows[i].npub && key.zone == w.rows[i].zone
                       && !table[key].status.Expired? && swept[key].status.Expired?)
  {
    forall key | key in table
      ensures Lapses(zones, table, key, pass.now) <==>
              !table[key].status.Expired? && SweepTable(zones, table, pass.now)[key].status.Expired?
    {
      LapsesIff(zones, table, key, pass.now);
    }
  }

  /** Before the end of grace nothing is deleted: while every name a signer holds in a zone has grace left (or had
      expired before), a sweep marks none of its records there. */
  lemma GraceSparesRows(zones: seq<ZoneConfig>, table: Table, pass: Pass, w: World, i: nat)
    requires i < |w.rows|
    requires forall key | key in table && key.zone == w.rows[i].zone && table[key].npub == w.rows[i].npub ::
               table[key].status.Expired? || pass.now < table[key].validUntil + GraceSeconds(zones, key.zone)
    ensures var rows := SweptWorld(zones, table, pass, w).rows;
            |rows| == |w.rows| && rows[i] == w.rows[i]
  {
    SweptRows(zones, table, pass, w, i);
    forall key | key in table && key.zone == w.rows[i].zone && table[key].npub == w.rows[i].npub
      ensures table[key].status.Expired? || !SweepTable(zones, table, pass.now)[key].status.Expired?
    {
      assert SweepTable(zones, table, pass.now)[key].status == SweptStatus(zones, key, table[key], pass.now);
    }
  }

  // -------------------------------------------------------------------------
  // What the sweep deletes
  // -------------------------------------------------------------------------

  ghost predicate UnderDomain(key: NameKey, k: RrKey) {
    k.zone == key.zone && exists name :: k.name == InZone(Under(name, key.domain), key.zone)
  }

  /** Every name about to lapse is a single label, as claims create them. */
  ghost predicate SingleLabels(zones: seq<ZoneConfig>, table: Table, now: int) {
    forall key | Lapses(zones, table, key, now) :: '.' !in key.domain
  }

  lemma EmptiedAt(data: Data, gone: iset<RrKey>, k: RrKey)
    ensures RRset(Emptied(data, gone), k) == if k in gone then {} else RRset(data, k)
  {
  }

  lemma LastLabelUnder(name: string, domain: string)
    requires '.' !in domain
    ensures LastLabel(Under(name, domain)) == domain
  {
    if !IsApex(name) {
      LastLabelOfLonger(name, domain);
    }
  }

  /** A name lies under one single-label domain at most. */
  lemma OneDomain(a: NameKey, b: NameKey, k: RrKey)
    requires '.' !in a.domain && '.' !in b.domain && UnderDomain(a, k) && UnderDomain(b, k)
    ensures a == b
  {
    var x :| k.name == InZone(Under(x, a.domain), a.zone);
    var y :| k.name == InZone(Under(y, b.domain), b.zone);
    InZoneIsInjective(Under(x, a.domain), Under(y, b.domain), a.zone);
    LastLabelUnder(x, a.domain);
    LastLabelUnder(y, b.domain);
  }

  lemma ClearedIsUnder(zones: seq<ZoneConfig>, table: Table, pass: Pass, rows: Rows, n: nat, k: RrKey)
    requires ClearedBy(zones, table, pass, rows, n, k)
    ensures UnderDomain(pass.due[n], k)
  {
    var key := pass.due[n];
    var i :| 0 <= i < |rows| && LiveOf(rows[i], table[key].npub, key.zone)
             && TargetOf(rows[i], key.domain, key.zone) == k;
  }

  /** Nor does a sweep before the end of grace change an RRset under a single-label name. */
  lemma GraceSparesRRsets(zones: seq<ZoneConfig>, table: Table, pass: Pass, w: World, key: NameKey, k: RrKey)
    requires forall other | other in table && other.zone == key.zone :: '.' !in other.domain
    requires '.' !in key.domain && UnderDomain(key, k)
    requires key in table ==>
               table[key].status.Expired? || pass.now < table[key].validUntil + GraceSeconds(zones, key.zone)
    ensures RRset(SweptWorld(zones, table, pass, w).data, k) == RRset(w.data, k)
  {
    EmptiedAt(w.data, Cleared(zones, table, pass, w.rows, |pass.due|), k);
    if n: nat :| n < |pass.due| && ClearedBy(zones, table, pass, w.rows, n, k) {
      ClearedIsUnder(zones, table, pass, w.rows, n, k);
      OneDomain(pass.due[n], key, k);
      assert false;
    }
  }

  /** A lapsed name does not always lose its RRsets. An RRset under the `n`th visited name is empty after the sweep
      exactly when it was empty before, or the name is the first its holder loses in the zone, a live record of the
      holder points there, and its delete message gets through. */
  lemma LapsedIsClearedIff(zones: seq<ZoneConfig>, table: Table, pass: Pass, w: World, n: nat, k: RrKey)
    requires PastDueInOrder(table, pass.now, pass.due) && SingleLabels(zones, table, pass.now)
    requires n < |pass.due| && Lapses(zones, table, pass.due[n], pass.now) && UnderDomain(pass.due[n], k)
    ensures RRset(SweptWorld(zones, table, pass, w).data, k) == {} <==>
            || RRset(w.data, k) == {}
            || (&& IsFirst(zones, table, pass, n) && pass.due[n].zone in pass.updaters
                && IsTarget(w.rows, table[pass.due[n]].npub, pass.due[n].domain, pass.due[n].zone, k)
                && !pass.fates(k).Rejected?)
  {
    EmptiedAt(w.data, Cleared(zones, table, pass, w.rows, |pass.due|), k);
    if m: nat :| m < |pass.due| && ClearedBy(zones, table, pass, w.rows, m, k) {
      ClearedIsUnder(zones, table, pass, w.rows, m, k);
      OneDomain(pass.due[m], pass.due[n], k);
      assert m == n;
    } else {
      assert !ClearedBy(zones, table, pass, w.rows, n, k);
    }
  }

  /** Which name of a holder comes first: one that ends before its others, and none that ends after another. */
  lemma FirstIsSoonest(zones: seq<ZoneConfig>, table: Table, pass: Pass, n: nat)
    requires PastDueInOrder(table, pass.now, pass.due)
    requires n < |pass.due| && Lapses(zones, table, pass.due[n], pass.now)
    ensures var key := pass.due[n];
            && ((forall other | other != key && LostTogether(zones, table, pass.now, other, key) ::
                   table[key].validUntil < table[other].validUntil) ==> IsFirst(zones, table, pass, n))
            && (IsFirst(zones, table, pass, n) ==>
                  forall other | LostTogether(zones, table, pass.now, other, key) ::
                    table[key].validUntil <= table[other].validUntil)
  {
    var key := pass.due[n];
    forall m: nat | m < n ensures EndsNoLater(table, pass.due[m], key) && pass.due[m] != key {
    }
    if IsFirst(zones, table, pass, n) {
      forall other | LostTogether(zones, table, pass.now, other, key)
        ensures table[key].validUntil <= table[other].validUntil
      {
        assert IsPastDue(table, other, pass.now);
        var m: nat :| m < |pass.due| && pass.due[m] == other;
        assert n < m ==> EndsNoLater(table, pass.due[n], pass.due[m]);
      }
    }
  }

  /** Whatever the sweep changes it empties, and the name then belongs to nobody. */
  lemma SweptNamesAreOwnerless(zones: seq<ZoneConfig>, table: Table, pass: Pass, w: World, k: RrKey)
    requires SingleLabels(zones, table, pass.now)
    requires forall key | Lapses(zones, table, key, pass.now) :: !IsNpubName(key.domain) && ZoneOk(key.zone)
    requires RRset(SweptWorld(zones, table, pass, w).data, k) != RRset(w.data, k)
    ensures RRset(SweptWorld(zones, table, pass, w).data, k) == {}
    ensures OwnerOf(SweepTable(zones, table, pass.now), k.name, k.zone).None?
  {
    EmptiedAt(w.data, Cleared(zones, table, pass, w.rows, |pass.due|), k);
    var n: nat :| n < |pass.due| && ClearedBy(zones, table, pass, w.rows, n, k);
    ClearedIsUnder(zones, table, pass, w.rows, n, k);
    LapsedIsOwnerless(zones, table, pass.now, pass.due[n], k);
  }

  lemma LapsedIsOwnerless(zones: seq<ZoneConfig>, table: Table, now: int, key: NameKey, k: RrKey)
    requires Lapses(zones, table, key, now) && UnderDomain(key, k)
    requires '.' !in key.domain && !IsNpubName(key.domain) && ZoneOk(key.zone)
    ensures OwnerOf(SweepTable(zones, table, now), k.name, k.zone).None?
  {
    var swept := SweepTable(zones, table, now);
    var name :| k.name == InZone(Under(name, key.domain), key.zone);
    OwnerInZone(swept, Under(name, key.domain), key.zone);
    if IsApex(name) {
      assert swept[key].status.Expired? && key == NameKey(key.domain, key.zone);
    } else {
      LastLabelOfLonger(name, key.domain);
      assert (name + "." + key.domain)[|name|] == '.';
    }
  }

  /** The loss is not confined to one sweep. Once a sweep has taken one name of a holder in a zone, its records there
      are marked deleted, those of its other names included; the next sweep that takes another of them, with no record
      saved in between, empties nothing under it. */
  lemma EarlierLossStrands(
    zones: seq<ZoneConfig>, table: Table, pass: Pass, w: World, lost: NameKey,
    table': Table, pass': Pass, key: NameKey, k: RrKey)
    requires Lapses(zones, table, lost, pass.now)
    requires SingleLabels(zones, table', pass'.now) && Lapses(zones, table', key, pass'.now) && UnderDomain(key, k)
    requires key.zone == lost.zone && table'[key].npub == table[lost].npub
    ensures var w' := SweptWorld(zones, table, pass, w);
            RRset(SweptWorld(zones, table', pass', w').data, k) == RRset(w'.data, k)
  {
    var w' := SweptWorld(zones, table, pass, w);
    EmptiedAt(w'.data, Cleared(zones, table', pass', w'.rows, |pass'.due|), k);
    if n: nat :| n < |pass'.due| && ClearedBy(zones, table', pass', w'.rows, n, k) {
      ClearedIsUnder(zones, table', pass', w'.rows, n, k);
      OneDomain(pass'.due[n], key, k);
      NothingLeft(zones, table, pass, w, lost, key.domain, k);
      assert false;
    }
  }

  lemma NothingLeft(
    zones: seq<ZoneConfig>, table: Table, pass: Pass, w: World, lost: NameKey, domain: string, k: RrKey)
    requires Lapses(zones, table, lost, pass.now)
    ensures !IsTarget(SweptWorld(zones, table, pass, w).rows, table[lost].npub, domain, lost.zone, k)
  {
    forall r | r in w.rows && r.npub == table[lost].npub && r.zone == lost.zone
      ensures Lost(zones, table, pass.now, table.Keys, r)
    {
    }
  }
}
