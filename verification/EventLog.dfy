/** The events table: the record rows the bot has saved, in the order it saved them. */
module EventLog {
  import opened Text

  datatype EventRow = EventRow(
    eventId: string, npub: string, pubkey: string, name: string, rtype: string, ttl: nat, rdata: string,
    zone: string, createdAt: int, kind: nat, processedAt: int, deleted: bool)

  type Rows = seq<EventRow>

  /** Rows are unique per event, type, name and zone. */
  predicate SamePrimaryKey(a: EventRow, b: EventRow) {
    a.eventId == b.eventId && a.rtype == b.rtype && a.name == b.name && a.zone == b.zone
  }

  function Without(rows: Rows, row: EventRow): Rows {
    if rows == [] then []
    else
      var init := Without(rows[..|rows| - 1], row);
      if SamePrimaryKey(rows[|rows| - 1], row) then init else init + [rows[|rows| - 1]]
  }

  /** `INSERT OR REPLACE`: a row with the same primary key gives way. */
  function SaveEvent(rows: Rows, row: EventRow): Rows {
    Without(rows, row) + [row]
  }

  predicate IsRecord(r: EventRow, npub: string, rtype: string, name: string, zone: string) {
    r.npub == npub && r.rtype == rtype && r.name == name && r.zone == zone
  }

  function DeleteRecordsByKey(rows: Rows, npub: string, rtype: string, name: string, zone: string): Rows {
    seq(|rows|, i requires 0 <= i < |rows| =>
      if IsRecord(rows[i], npub, rtype, name, zone) then rows[i].(deleted := true) else rows[i])
  }

  function SoftDeleteByHolder(rows: Rows, npub: string, zone: string): Rows {
    seq(|rows|, i requires 0 <= i < |rows| =>
      if rows[i].npub == npub && rows[i].zone == zone then rows[i].(deleted := true) else rows[i])
  }

  function RecordCountByPubkey(rows: Rows, pubkey: string): nat {
    if rows == [] then 0
    else
      var last := rows[|rows| - 1];
      RecordCountByPubkey(rows[..|rows| - 1], pubkey) + (if last.pubkey == pubkey && !last.deleted then 1 else 0)
  }

  function EventsInLastMinute(rows: Rows, pubkey: string, now: int): nat {
    if rows == [] then 0
    else
      var last := rows[|rows| - 1];
      EventsInLastMinute(rows[..|rows| - 1], pubkey, now)
      + (if last.pubkey == pubkey && last.processedAt > now - 60 then 1 else 0)
  }

  /** The most recently saved row of a record that is not deleted. */
  function Latest(rows: Rows, npub: string, rtype: string, name: string, zone: string): (r: Option<EventRow>)
    ensures r.Some? ==> r.value in rows && !r.value.deleted && IsRecord(r.value, npub, rtype, name, zone)
  {
    if rows == [] then None
    else
      var last := rows[|rows| - 1];
      if IsRecord(last, npub, rtype, name, zone) && !last.deleted then Some(last)
      else Latest(rows[..|rows| - 1], npub, rtype, name, zone)
  }

  ghost predicate IsLive(row: EventRow, npub: string, rtype: string, name: string, zone: string) {
    IsRecord(row, npub, rtype, name, zone) && !row.deleted
  }

  /** The last live row of a record in saving order. */
  ghost predicate IsLastLive(rows: Rows, i: nat, npub: string, rtype: string, name: string, zone: string) {
    && i < |rows| && IsLive(rows[i], npub, rtype, name, zone)
    && forall j | i < j < |rows| :: !IsLive(rows[j], npub, rtype, name, zone)
  }

  /** It is missing only when no row of the record lives. */
  lemma {:induction false} LatestMissing(rows: Rows, npub: string, rtype: string, name: string, zone: string)
    ensures Latest(rows, npub, rtype, name, zone).None? <==>
            forall i | 0 <= i < |rows| :: !IsLive(rows[i], npub, rtype, name, zone)
  {
    if rows != [] {
      var n := |rows| - 1;
      LatestMissing(rows[..n], npub, rtype, name, zone);
      assert forall i | 0 <= i < n :: rows[..n][i] == rows[i];
    }
  }

  lemma {:induction false} LatestIsLast(
    rows: Rows, i: nat, npub: string, rtype: string, name: string, zone: string)
    requires IsLastLive(rows, i, npub, rtype, name, zone)
    ensures Latest(rows, npub, rtype, name, zone) == Some(rows[i])
  {
    var n := |rows| - 1;
    if i < n {
      assert !IsLive(rows[n], npub, rtype, name, zone);
      LatestIsLast(rows[..n], i, npub, rtype, name, zone);
    }
  }

  lemma {:induction false} LatestWithout(
    rows: Rows, row: EventRow, npub: string, rtype: string, name: string, zone: string)
    requires forall r | r in rows && SamePrimaryKey(r, row) :: !IsRecord(r, npub, rtype, name, zone)
    ensures Latest(Without(rows, row), npub, rtype, name, zone) == Latest(rows, npub, rtype, name, zone)
  {
    if rows != [] {
      var n := |rows| - 1;
      LatestWithout(rows[..n], row, npub, rtype, name, zone);
      var init := Without(rows[..n], row);
      assert (init + [rows[n]])[..|init|] == init;
    }
  }

  /** Saving a row makes it the latest of its record and leaves other records alone, given that the
      rows it replaces are of the same record. */
  lemma LatestAfterSave(rows: Rows, row: EventRow, npub: string, rtype: string, name: string, zone: string)
    requires forall r | r in rows && r.eventId == row.eventId :: r.npub == row.npub
    requires !row.deleted
    ensures Latest(SaveEvent(rows, row), npub, rtype, name, zone) ==
            if IsRecord(row, npub, rtype, name, zone) then Some(row) else Latest(rows, npub, rtype, name, zone)
  {
    var kept := Without(rows, row);
    assert (kept + [row])[..|kept|] == kept;
    if !IsRecord(row, npub, rtype, name, zone) {
      LatestWithout(rows, row, npub, rtype, name, zone);
    }
  }

  lemma {:induction false} LatestAfterDelete(
    rows: Rows, n: string, t: string, a: string, z: string, npub: string, rtype: string, name: string, zone: string)
    ensures Latest(DeleteRecordsByKey(rows, n, t, a, z), npub, rtype, name, zone) ==
            if (n, t, a, z) == (npub, rtype, name, zone) then None else Latest(rows, npub, rtype, name, zone)
  {
    if rows != [] {
      var k := |rows| - 1;
      assert DeleteRecordsByKey(rows, n, t, a, z)[..k] == DeleteRecordsByKey(rows[..k], n, t, a, z);
      LatestAfterDelete(rows[..k], n, t, a, z, npub, rtype, name, zone);
    }
  }

  lemma {:induction false} RowsOfSave(rows: Rows, row: EventRow, r: EventRow)
    requires r in SaveEvent(rows, row)
    ensures r == row || r in rows
  {
    RowsOfWithout(rows, row);
  }

  lemma {:induction false} RowsOfWithout(rows: Rows, row: EventRow)
    ensures forall r | r in Without(rows, row) :: r in rows
  {
    if rows != [] {
      RowsOfWithout(rows[..|rows| - 1], row);
    }
  }

  // -------------------------------------------------------------------------
  // What saving and deleting do to the rows
  // -------------------------------------------------------------------------

  /** A saved row is the newest and the only one of its primary key; the rows of other keys stay as they were. */
  lemma {:induction false} SavedExactly(rows: Rows, row: EventRow, r: EventRow)
    ensures SaveEvent(rows, row)[|SaveEvent(rows, row)| - 1] == row
    ensures multiset(SaveEvent(rows, row))[r] ==
            if r == row then 1 else if SamePrimaryKey(r, row) then 0 else multiset(rows)[r]
  {
    WithoutExactly(rows, row, r);
  }

  lemma {:induction false} WithoutExactly(rows: Rows, row: EventRow, r: EventRow)
    ensures multiset(Without(rows, row))[r] == if SamePrimaryKey(r, row) then 0 else multiset(rows)[r]
  {
    if rows != [] {
      var n := |rows| - 1;
      WithoutExactly(rows[..n], row, r);
      assert rows == rows[..n] + [rows[n]];
    }
  }

  /** Deleting a record marks its rows, and no others, and changes nothing else. */
  lemma MarkedExactly(rows: Rows, npub: string, rtype: string, name: string, zone: string, i: nat)
    requires i < |rows|
    ensures var next := DeleteRecordsByKey(rows, npub, rtype, name, zone);
            && |next| == |rows| && next[i] == rows[i].(deleted := next[i].deleted)
            && (next[i].deleted <==>
                  || rows[i].deleted
                  || (rows[i].npub == npub && rows[i].rtype == rtype && rows[i].name == name && rows[i].zone == zone))
  {
  }

  ghost function LiveIndices(rows: Rows, pubkey: string): set<int> {
    set i | 0 <= i < |rows| && rows[i].pubkey == pubkey && !rows[i].deleted
  }

  ghost function RecentIndices(rows: Rows, pubkey: string, now: int): set<int> {
    set i | 0 <= i < |rows| && rows[i].pubkey == pubkey && now < rows[i].processedAt + 60
  }

  lemma OneMoreIndex(before: set<int>, after: set<int>, n: int)
    requires before == after - {n}
    ensures |after| == |before| + (if n in after then 1 else 0)
  {
    assert after == before + (if n in after then {n} else {});
  }

  /** The counters count: the live rows of a key, and its rows processed in the last 60 seconds. */
  lemma {:induction false} LiveRowsCounted(rows: Rows, pubkey: string)
    ensures RecordCountByPubkey(rows, pubkey) == |LiveIndices(rows, pubkey)|
  {
    if rows != [] {
      var n := |rows| - 1;
      LiveRowsCounted(rows[..n], pubkey);
      assert LiveIndices(rows[..n], pubkey) == LiveIndices(rows, pubkey) - {n};
      OneMoreIndex(LiveIndices(rows[..n], pubkey), LiveIndices(rows, pubkey), n);
    }
  }

  lemma {:induction false} RecentRowsCounted(rows: Rows, pubkey: string, now: int)
    ensures EventsInLastMinute(rows, pubkey, now) == |RecentIndices(rows, pubkey, now)|
  {
    if rows != [] {
      var n := |rows| - 1;
      RecentRowsCounted(rows[..n], pubkey, now);
      assert RecentIndices(rows[..n], pubkey, now) == RecentIndices(rows, pubkey, now) - {n};
      OneMoreIndex(RecentIndices(rows[..n], pubkey, now), RecentIndices(rows, pubkey, now), n);
    }
  }
}
