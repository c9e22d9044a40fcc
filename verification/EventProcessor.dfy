/** The event handlers, working on the store and the name server in place. */
module EventProcessor {
  import opened Text
  import opened Delegations
  import opened Authority
  import opened Leases
  import opened Rdata
  import opened ZoneData
  import opened Records
  import opened NonInterference
  import TagEffects
  import opened Registry
  import opened ProofOfWork
  import opened Store

  method ProcessClaim(
    store: Store, zones: seq<ZoneConfig>, regs: Registrars, req: ClaimRequest, event: Signed, now: int)
    returns (accepted: bool)
    modifies store`delegations
    ensures store.delegations == Apply(zones, old(store.delegations), Claim(now, regs, req, event))
    ensures accepted <==>
            Claims(zones, old(store.delegations), Claim(now, regs, req, event), NameKey(req.name, req.zone))
  {
    var found := FindZone(zones, req.zone);
    if found.None? {
      return false;
    }
    if IsNpubName(req.name) {
      return false;
    }
    if !IsRegistrar(regs, req.zone, event.pubkey) {
      return false;
    }
    if req.validUntil <= now {
      return false;
    }
    if !WithinOperatorLease(found.value, req.validUntil) {
      return false;
    }
    var available := store.IsNameAvailable(req.name, req.zone, now);
    if !available {
      return false;
    }
    var registrar := RegistrarPubkey(regs, req.zone);
    if registrar.None? {
      return false;
    }
    store.SaveDelegation(req.name, req.zone,
      Row(event.eventId, event.npub, event.pubkey, now, req.validUntil, req.validUntil - 30 * 24 * 3600,
          registrar.value, found.value.createPrice, Active, now));
    return true;
  }

  method ProcessRenewal(store: Store, zones: seq<ZoneConfig>, req: RenewalRequest, event: Signed, now: int)
    returns (accepted: bool)
    modifies store`delegations
    ensures store.delegations == Apply(zones, old(store.delegations), Renew(now, req, event))
    ensures accepted <==> Renews(zones, old(store.delegations), Renew(now, req, event), NameKey(req.name, req.zone))
  {
    var found := FindZone(zones, req.zone);
    if found.None? {
      return false;
    }
    var zone := found.value;
    var looked := store.GetDelegation(req.name, req.zone);
    if looked.None? {
      return false;
    }
    var delegation := looked.value;
    if delegation.pubkey != event.pubkey {
      return false;
    }
    var grace := zone.graceDays * 24 * 3600;
    if event.createdAt >= delegation.validUntil + grace {
      return false;
    }
    var extension := zone.maxLeaseDays * 24 * 3600;
    var fromEnd := delegation.validUntil + extension;
    var fromEvent := event.createdAt + extension;
    var limit := if fromEnd >= fromEvent then fromEnd else fromEvent;
    if req.newValidUntil <= delegation.validUntil {
      return false;
    }
    if req.newValidUntil > limit {
      return false;
    }
    if !WithinOperatorLease(zone, req.newValidUntil) {
      return false;
    }
    store.RenewDelegation(req.name, req.zone, req.newValidUntil, req.newValidUntil - grace, event.eventId);
    return true;
  }

  /** One record tag in one zone. */
  method ProcessRecordTag(
    store: Store, knot: Knot, setup: Setup, ev: Event, zone: string, tag: RecordTag, site: Site)
    modifies store`events, knot
    ensures World(store.events, knot.data) ==
            PutRecord(setup, store.delegations, World(old(store.events), old(knot.data)), ev, zone, tag, site)
  {
    var fqdn := ResolveFqdn(site.delegated, ev.npub, tag.name, zone);
    if IsCv(zone) && !site.cvAdmitted {
      return;
    }
    if CheckAuthority(setup.codec, store.delegations, fqdn, zone, ev.pubkey).Err? {
      return;
    }
    if setup.registrarMode {
      return;
    }
    var ok := knot.SendUpdateRecord(setup.syn, zone, fqdn, TypeNumber(tag.rtype), tag.rdata, site.update);
    if !ok {
      return;
    }
    if StoresProofs(setup.zones, zone) {
      var _ := knot.SendUpdateTxtMulti(zone, ProofName(fqdn), ProofStrings(setup, ev, tag), site.proof);
    }
    store.SaveEvent(SavedRow(ev, zone, tag, site.now));
  }

  method ProcessRecordsInZone(store: Store, knot: Knot, setup: Setup, ev: Event, zone: string, sites: Sites)
    modifies store`events, knot
    ensures World(store.events, knot.data) ==
            PutRecords(setup, store.delegations, World(old(store.events), old(knot.data)), ev, zone, sites,
                       |ev.records|)
  {
    ghost var before := World(store.events, knot.data);
    for i := 0 to |ev.records|
      invariant World(store.events, knot.data) == PutRecords(setup, store.delegations, before, ev, zone, sites, i)
    {
      ProcessRecordTag(store, knot, setup, ev, zone, ev.records[i], sites(zone, i));
    }
  }

  method ProcessDnsUpdate(
    store: Store, knot: Knot, setup: Setup, ev: Event, order: seq<string>, sites: Sites, now: int)
    modifies store`events, knot
    ensures World(store.events, knot.data) ==
            Updated(setup, store.delegations, World(old(store.events), old(knot.data)), ev, order, sites, now)
  {
    if ev.records == [] {
      return;
    }
    var count := store.RecordCountByPubkey(ev.pubkey);
    if count + |ev.records| > setup.maxRecords {
      return;
    }
    var recent := store.EventsInLastMinute(ev.pubkey, now);
    if recent >= setup.rateLimit {
      return;
    }
    ghost var before := World(store.events, knot.data);
    for z := 0 to |order|
      invariant World(store.events, knot.data) == PutInZones(setup, store.delegations, before, ev, order, sites, z)
    {
      ProcessRecordsInZone(store, knot, setup, ev, order[z], sites);
    }
  }

  /** One delete tag in one zone. */
  method ProcessDeleteTag(
    store: Store, knot: Knot, setup: Setup, ev: Event, zone: string, tag: DeleteTag, site: Site)
    modifies store`events, knot
    ensures World(store.events, knot.data) ==
            DropRecord(setup, store.delegations, World(old(store.events), old(knot.data)), ev, zone, tag, site)
  {
    var fqdn := ResolveFqdn(site.delegated, ev.npub, tag.name, zone);
    if CheckAuthority(setup.codec, store.delegations, fqdn, zone, ev.pubkey).Err? {
      return;
    }
    var ok := knot.SendDeleteRecord(zone, fqdn, TypeNumber(tag.rtype), site.update);
    if !ok {
      return;
    }
    if StoresProofs(setup.zones, zone) {
      var _ := knot.SendDeleteRecord(zone, ProofName(fqdn), TXT_TYPE, site.proof);
    }
    store.DeleteRecordsByKey(ev.npub, tag.rtype, tag.name, zone);
  }

  method ProcessDeletesInZone(store: Store, knot: Knot, setup: Setup, ev: Event, zone: string, sites: Sites)
    modifies store`events, knot
    ensures World(store.events, knot.data) ==
            DropRecords(setup, store.delegations, World(old(store.events), old(knot.data)), ev, zone, sites,
                        |ev.deletes|)
  {
    ghost var before := World(store.events, knot.data);
    for i := 0 to |ev.deletes|
      invariant World(store.events, knot.data) == DropRecords(setup, store.delegations, before, ev, zone, sites, i)
    {
      ProcessDeleteTag(store, knot, setup, ev, zone, ev.deletes[i], sites(zone, i));
    }
  }

  method ProcessDnsDeletes(store: Store, knot: Knot, setup: Setup, ev: Event, order: seq<string>, sites: Sites)
    modifies store`events, knot
    ensures World(store.events, knot.data) ==
            DropInZones(setup, store.delegations, World(old(store.events), old(knot.data)), ev, order, sites, |order|)
  {
    ghost var before := World(store.events, knot.data);
    for z := 0 to |order|
      invariant World(store.events, knot.data) == DropInZones(setup, store.delegations, before, ev, order, sites, z)
    {
      ProcessDeletesInZone(store, knot, setup, ev, order[z], sites);
    }
  }

  /** The record and delete tags of one event. No RRset reserved for another key changes. */
  method ProcessTags(
    store: Store, knot: Knot, setup: Setup, ev: Event, order: seq<string>, puts: Sites, drops: Sites, now: int)
    requires Authority.Lawful(setup.codec) && forall zone | zone in order :: ZoneOk(zone)
    modifies store`events, knot
    ensures World(store.events, knot.data) ==
            Handled(setup, World(old(store.events), old(knot.data)),
                    Turn(store.delegations, ev, order, puts, drops, now))
    ensures forall key: RrKey, other: string ::
              Reserved(setup.codec, store.delegations, key.name, key.zone, other) && other != ev.pubkey ==>
                RRset(knot.data, key) == RRset(old(knot.data), key)
  {
    ghost var before := World(store.events, knot.data);
    ghost var turn := Turn(store.delegations, ev, order, puts, drops, now);
    if ev.records != [] {
      ProcessDnsUpdate(store, knot, setup, ev, order, puts, now);
    }
    if ev.deletes != [] {
      ProcessDnsDeletes(store, knot, setup, ev, order, drops);
    } else {
      TagEffects.NothingToDrop(setup, store.delegations, World(store.events, knot.data), ev, order, drops, |order|);
    }
    forall key: RrKey, other: string |
      Reserved(setup.codec, store.delegations, key.name, key.zone, other) && other != ev.pubkey
      ensures RRset(knot.data, key) == RRset(before.data, key)
    {
      NonInterferenceHolds(setup, before, turn, key, other);
    }
  }

  // -------------------------------------------------------------------------
  // A whole event
  // -------------------------------------------------------------------------

  /** What a signed event asks for. */
  datatype Incoming = Incoming(claim: Option<ClaimRequest>, renewal: Option<RenewalRequest>, ev: Event)

  /** The price of being heard: work, or money burned; and what the store knows of the latter. */
  datatype Toll = Toll(minPow: nat, minPobSats: nat, burned: Option<nat>)

  predicate IsHeard(setup: Setup, toll: Toll, id: string) {
    || setup.registrarMode
    || (toll.minPow == 0 && toll.minPobSats == 0)
    || (toll.minPow > 0 && LeadingZeroBits(id) >= toll.minPow)
    || (toll.minPobSats > 0 && toll.burned.Some? && toll.burned.value >= toll.minPobSats)
  }

  /** With work alone asked for, d zero bits, an id of n hex digits is heard exactly when its value is below
      2^(4n - d); with money alone, exactly when enough is known to be burned. A registrar hears everyone. */
  lemma HeardIff(setup: Setup, toll: Toll, id: string)
    requires IsHex(id) && !setup.registrarMode
    ensures toll.minPow > 0 && toll.minPobSats == 0 ==>
              (IsHeard(setup, toll, id) <==>
               toll.minPow <= 4 * |id| && HexValue(id) < Pow2(4 * |id| - toll.minPow))
    ensures toll.minPow == 0 && toll.minPobSats > 0 ==>
              (IsHeard(setup, toll, id) <==> exists sats :: toll.burned == Some(sats) && sats >= toll.minPobSats)
    ensures toll.minPow > 0 && toll.minPobSats > 0 ==>
              (IsHeard(setup, toll, id) <==>
               || IsHeard(setup, toll.(minPobSats := 0), id)
               || IsHeard(setup, toll.(minPow := 0), id))
    ensures toll.minPow == 0 && toll.minPobSats == 0 ==> IsHeard(setup, toll, id)
  {
    DifficultyIsThreshold(id, toll.minPow);
  }

  /** What the bot meets while handling one event. */
  datatype Moment = Moment(now: int, regs: Registrars, order: seq<string>, puts: Sites, drops: Sites)

  function SignedBy(ev: Event): Signed {
    Signed(ev.id, ev.pubkey, ev.npub, ev.createdAt)
  }

  function TableAfter(zones: seq<ZoneConfig>, table: Table, inc: Incoming, at: Moment): Table {
    var claimed :=
      if inc.claim.Some? then Apply(zones, table, Claim(at.now, at.regs, inc.claim.value, SignedBy(inc.ev))) else table;
    if inc.renewal.Some? then Apply(zones, claimed, Renew(at.now, inc.renewal.value, SignedBy(inc.ev))) else claimed
  }

  /** The registry once the event is handled: its claim, its renewal, then its record and delete tags. */
  function StateAfter(setup: Setup, s: State, inc: Incoming, at: Moment): State {
    var table := TableAfter(setup.zones, s.table, inc, at);
    State(table, Handled(setup, s.world, Turn(table, inc.ev, at.order, at.puts, at.drops, at.now)))
  }

  /** The acts of an event: its claim, its renewal, its record and delete tags. */
  function ActsOf(setup: Setup, s: State, inc: Incoming, at: Moment): seq<Act> {
    (if inc.claim.Some? then [Move(Claim(at.now, at.regs, inc.claim.value, SignedBy(inc.ev)))] else [])
    + (if inc.renewal.Some? then [Move(Renew(at.now, inc.renewal.value, SignedBy(inc.ev)))] else [])
    + [Publish(Turn(TableAfter(setup.zones, s.table, inc, at), inc.ev, at.order, at.puts, at.drops, at.now))]
  }

  /** Handling an event is a run of these acts. */
  lemma EventIsRun(setup: Setup, s: State, inc: Incoming, at: Moment) returns (states: seq<State>)
    requires inc.claim.Some? ==> IsDnsLabel(inc.claim.value.name)
    requires forall zone | zone in at.order :: ZoneOk(zone)
    ensures Run(setup, states, ActsOf(setup, s, inc, at)) && states[0] == s
    ensures states[|states| - 1] == StateAfter(setup, s, inc, at)
  {
    var acts: seq<Act> := [];
    states := [s];
    if inc.claim.Some? {
      states, acts := OneMoreAct(setup, states, acts, Move(Claim(at.now, at.regs, inc.claim.value, SignedBy(inc.ev))));
    }
    if inc.renewal.Some? {
      states, acts := OneMoreAct(setup, states, acts, Move(Renew(at.now, inc.renewal.value, SignedBy(inc.ev))));
    }
    var turn := Turn(states[|acts|].table, inc.ev, at.order, at.puts, at.drops, at.now);
    states, acts := OneMoreAct(setup, states, acts, Publish(turn));
    assert acts == ActsOf(setup, s, inc, at);
  }

  lemma OneMoreAct(setup: Setup, states: seq<State>, acts: seq<Act>, act: Act)
    returns (states': seq<State>, acts': seq<Act>)
    requires Run(setup, states, acts) && Possible(states[|acts|], act)
    ensures acts' == acts + [act] && states' == states + [Next(setup, states[|acts|], act)]
    ensures Run(setup, states', acts')
  {
    acts' := acts + [act];
    states' := states + [Next(setup, states[|acts|], act)];
    forall n: nat | n < |acts'| ensures PassesAt(setup, states', acts', n) {
      if n < |acts| {
        assert PassesAt(setup, states, acts, n);
      }
    }
  }

  /** An event that is not heard changes nothing; any other takes the registry to `StateAfter`. */
  method ProcessEvent(store: Store, knot: Knot, setup: Setup, toll: Toll, inc: Incoming, at: Moment)
    requires Authority.Lawful(setup.codec) && forall zone | zone in at.order :: ZoneOk(zone)
    modifies store, knot
    ensures var before := State(old(store.delegations), World(old(store.events), old(knot.data)));
            State(store.delegations, World(store.events, knot.data)) ==
            if IsHeard(setup, toll, inc.ev.id) then StateAfter(setup, before, inc, at) else before
    ensures forall key: RrKey, other: string ::
              Reserved(setup.codec, store.delegations, key.name, key.zone, other) && other != inc.ev.pubkey ==>
                RRset(knot.data, key) == RRset(old(knot.data), key)
  {
    if !setup.registrarMode && (toll.minPow > 0 || toll.minPobSats > 0) {
      var powOk := false;
      if toll.minPow > 0 {
        powOk := VerifyPow(inc.ev.id, toll.minPow);
      }
      var pobOk := toll.minPobSats > 0 && toll.burned.Some? && toll.burned.value >= toll.minPobSats;
      if !powOk && !pobOk {
        return;
      }
    }
    if inc.claim.Some? {
      var _ := ProcessClaim(store, setup.zones, at.regs, inc.claim.value, SignedBy(inc.ev), at.now);
    }
    if inc.renewal.Some? {
      var _ := ProcessRenewal(store, setup.zones, inc.renewal.value, SignedBy(inc.ev), at.now);
    }
    ProcessTags(store, knot, setup, inc.ev, at.order, at.puts, at.drops, at.now);
  }
}
