/** The bot's tables, updated in place. */
module Store {
  import opened Text
  import opened Delegations
  import opened EventLog
  import opened Leases

  lemma {:induction false} SoonestExists(table: Table, keys: set<NameKey>)
    requires keys != {} && keys <= table.Keys
    ensures exists key | key in keys :: forall other | other in keys :: EndsNoLater(table, key, other)
    decreases |keys|
  {
    var some :| some in keys;
    var others := keys - {some};
    if others != {} {
      SoonestExists(table, others);
      var soonest :| soonest in others && forall other | other in others :: EndsNoLater(table, soonest, other);
      var key := if EndsNoLater(table, some, soonest) then some else soonest;
      assert forall other | other in keys :: other == some || other in others;
      assert forall other | other in keys :: EndsNoLater(table, key, other);
    } else {
      assert keys == {some};
    }
  }

  class Store {
    var delegations: Table
    var events: Rows

    constructor ()
      ensures delegations == map[] && events == []
    {
      delegations := map[];
      events := [];
    }

    /** `INSERT OR REPLACE`. */
    method SaveDelegation(domain: string, zone: string, row: Row)
      modifies this`delegations
      ensures delegations == old(delegations)[NameKey(domain, zone) := row]
    {
      delegations := delegations[NameKey(domain, zone) := row];
    }

    method GetDelegation(domain: string, zone: string) returns (row: Option<Row>)
      ensures row == if NameKey(domain, zone) in delegations then Some(delegations[NameKey(domain, zone)]) else None
    {
      var key := NameKey(domain, zone);
      row := if key in delegations then Some(delegations[key]) else None;
    }

    method RenewDelegation(domain: string, zone: string, newValidUntil: int, newRenewBy: int, eventId: string)
      modifies this`delegations
      ensures var key := NameKey(domain, zone);
              delegations ==
              if key in old(delegations)
              then old(delegations)[key := old(delegations)[key].(validUntil := newValidUntil, renewBy := newRenewBy,
                                                                  eventId := eventId, status := Active)]
              else old(delegations)
    {
      var key := NameKey(domain, zone);
      if key in delegations {
        delegations := delegations[key := delegations[key].(
          validUntil := newValidUntil, renewBy := newRenewBy, eventId := eventId, status := Active)];
      }
    }

    method IsNameAvailable(name: string, zone: string, now: int) returns (available: bool)
      ensures available == Leases.IsNameAvailable(delegations, NameKey(name, zone), now)
    {
      var blocking := set key | key in delegations && key == NameKey(name, zone)
        && ((delegations[key].status.Active? && delegations[key].validUntil > now) || delegations[key].status.Grace?);
      assert NameKey(name, zone) in blocking || blocking == {};
      available := |blocking| == 0;
    }

    method MarkDelegationGrace(domain: string, zone: string)
      modifies this`delegations
      ensures var key := NameKey(domain, zone);
              delegations ==
              if key in old(delegations) && old(delegations)[key].status.Active?
              then old(delegations)[key := old(delegations)[key].(status := Grace)]
              else old(delegations)
    {
      var key := NameKey(domain, zone);
      if key in delegations && delegations[key].status.Active? {
        delegations := delegations[key := delegations[key].(status := Grace)];
      }
    }

    method MarkDelegationExpired(domain: string, zone: string)
      modifies this`delegations
      ensures var key := NameKey(domain, zone);
              delegations ==
              if key in old(delegations)
              then old(delegations)[key := old(delegations)[key].(status := Expired)]
              else old(delegations)
    {
      var key := NameKey(domain, zone);
      if key in delegations && (delegations[key].status.Active? || delegations[key].status.Grace?) {
        delegations := delegations[key := delegations[key].(status := Expired)];
      }
    }

    /** The rows past their end and not yet expired, soonest end first. */
    method GetDelegationsPastValidUntil(now: int) returns (due: seq<NameKey>)
      ensures PastDueInOrder(delegations, now, due)
    {
      due := [];
      var rest := set key | key in delegations && IsPastDue(delegations, key, now);
      ghost var all := rest;
      while rest != {}
        invariant rest <= all
        invariant forall key :: key in due <==> key in all && key !in rest
        invariant forall i, j | 0 <= i < j < |due| :: due[i] != due[j]
        invariant forall i, j | 0 <= i < j < |due| :: EndsNoLater(delegations, due[i], due[j])
        invariant forall key, other | key in due && other in rest :: EndsNoLater(delegations, key, other)
        decreases |rest|
      {
        SoonestExists(delegations, rest);
        var key :| key in rest && forall other | other in rest :: EndsNoLater(delegations, key, other);
        due := due + [key];
        rest := rest - {key};
      }
    }

    method SaveEvent(row: EventRow)
      modifies this`events
      ensures events == EventLog.SaveEvent(old(events), row)
    {
      var kept := [];
      for i := 0 to |events|
        invariant kept == Without(events[..i], row)
      {
        assert events[..i + 1][..i] == events[..i];
        if !SamePrimaryKey(events[i], row) {
          kept := kept + [events[i]];
        }
      }
      assert events[..|events|] == events;
      events := kept + [row];
    }

    method DeleteRecordsByKey(npub: string, rtype: string, name: string, zone: string)
      modifies this`events
      ensures events == EventLog.DeleteRecordsByKey(old(events), npub, rtype, name, zone)
    {
      events := seq(|events|, i requires 0 <= i < |events| reads this`events =>
        if IsRecord(events[i], npub, rtype, name, zone) then events[i].(deleted := true) else events[i]);
    }

    method SoftDeleteRecordsByNpubZone(npub: string, zone: string)
      modifies this`events
      ensures events == SoftDeleteByHolder(old(events), npub, zone)
    {
      events := seq(|events|, i requires 0 <= i < |events| reads this`events =>
        if events[i].npub == npub && events[i].zone == zone then events[i].(deleted := true) else events[i]);
    }

    method RecordCountByPubkey(pubkey: string) returns (count: nat)
      ensures count == EventLog.RecordCountByPubkey(events, pubkey)
    {
      count := 0;
      for i := 0 to |events|
        invariant count == EventLog.RecordCountByPubkey(events[..i], pubkey)
      {
        assert events[..i + 1][..i] == events[..i];
        if events[i].pubkey == pubkey && !events[i].deleted {
          count := count + 1;
        }
      }
      assert events[..|events|] == events;
    }

    method EventsInLastMinute(pubkey: string, now: int) returns (count: nat)
      ensures count == EventLog.EventsInLastMinute(events, pubkey, now)
    {
      count := 0;
      for i := 0 to |events|
        invariant count == EventLog.EventsInLastMinute(events[..i], pubkey, now)
      {
        assert events[..i + 1][..i] == events[..i];
        if events[i].pubkey == pubkey && events[i].processedAt > now - 60 {
          count := count + 1;
        }
      }
      assert events[..|events|] == events;
    }
  }
}
