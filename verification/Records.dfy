/** What one signed event does to the events table and to the DNS: its record tags, then its delete
    tags, in every zone the bot updates. */
module Records {
  import opened Text
  import opened Delegations
  import opened Authority
  import opened Rdata
  import opened ZoneData
  import opened EventLog
  import TxtPieces

  datatype RecordTag = RecordTag(name: string, rtype: string, ttl: nat, rdata: string)
  datatype DeleteTag = DeleteTag(name: string, rtype: string)

  datatype Event = Event(
    id: string, pubkey: string, npub: string, sig: string, createdAt: nat, kind: nat,
    records: seq<RecordTag>, deletes: seq<DeleteTag>)

  datatype Setup = Setup(
    codec: Bech32, syn: Syntax, zones: seq<ZoneConfig>, registrarMode: bool, maxRecords: nat, rateLimit: nat,
    utf8: TxtPieces.Utf8)

  /** What the bot meets while handling one tag in one zone: the clock, the store's first delegation of
      the signer, whether the gates of a .cv zone let the tag through, and the fate of its messages. */
  datatype Site = Site(now: int, delegated: Option<string>, cvAdmitted: bool, update: Outcome, proof: Outcome)

  /** The sites of an event, by zone and position of the tag. */
  type Sites = (string, nat) -> Site

  datatype World = World(rows: Rows, data: Data)

  predicate IsCv(zone: string) {
    zone == "cv" || EndsWith(zone, ".cv")
  }

  predicate StoresProofs(zones: seq<ZoneConfig>, zone: string) {
    var z := FindZone(zones, zone);
    z.Some? ==> z.value.storeProofs
  }

  // -------------------------------------------------------------------------
  // Proof records
  // -------------------------------------------------------------------------

  function ProofText(ev: Event, tag: RecordTag): string {
    JoinWith(["nostr:v=1", "k=" + Decimal(ev.kind), "p=" + ev.pubkey, "s=" + ev.sig, "i=" + ev.id,
              "ts=" + Decimal(ev.createdAt), "rt=" + tag.rtype, "rn=" + tag.name, "rd=" + tag.rdata], ';')
  }

  /** The character-strings that carry a proof. */
  function ProofStrings(setup: Setup, ev: Event, tag: RecordTag): seq<string> {
    TxtPieces.Chunks(setup.utf8, TxtPieces.Encode(setup.utf8, ProofText(ev, tag)))
  }

  /** Names and proof names are already fully qualified when they reach the updater. */
  lemma NameEndsWithDot(prefix: string, zone: string)
    ensures EnsureFqdn(InZone(prefix, zone)) == InZone(prefix, zone)
    ensures EnsureFqdn(ProofName(InZone(prefix, zone))) == ProofName(InZone(prefix, zone))
  {
    var name := InZone(prefix, zone);
    assert name[|name| - 1..] == ".";
    var proof := ProofName(name);
    assert proof[|proof| - 1..] == ".";
  }

  // -------------------------------------------------------------------------
  // One tag in one zone
  // -------------------------------------------------------------------------

  function SavedRow(ev: Event, zone: string, tag: RecordTag, now: int): EventRow {
    EventRow(ev.id, ev.npub, ev.pubkey, tag.name, tag.rtype, tag.ttl, tag.rdata, zone, ev.createdAt, ev.kind, now,
             false)
  }

  /** What follows once the signer may write the name. */
  function Written(setup: Setup, w: World, ev: Event, zone: string, tag: RecordTag, site: Site, fqdn: string): World {
    var (data, ok) := UpdateRecord(setup.syn, w.data, zone, fqdn, TypeNumber(tag.rtype), tag.rdata, site.update);
    if !ok then World(w.rows, data)
    else
      var proven :=
        if StoresProofs(setup.zones, zone)
        then UpdateTxtMulti(data, zone, ProofName(fqdn), ProofStrings(setup, ev, tag), site.proof).0
        else data;
      World(SaveEvent(w.rows, SavedRow(ev, zone, tag, site.now)), proven)
  }

  function PutRecord(
    setup: Setup, table: Table, w: World, ev: Event, zone: string, tag: RecordTag, site: Site): World
  {
    var fqdn := ResolveFqdn(site.delegated, ev.npub, tag.name, zone);
    if IsCv(zone) && !site.cvAdmitted then w
    else if CheckAuthority(setup.codec, table, fqdn, zone, ev.pubkey).Err? then w
    else if setup.registrarMode then w
    else Written(setup, w, ev, zone, tag, site, fqdn)
  }

  function Erased(setup: Setup, w: World, ev: Event, zone: string, tag: DeleteTag, site: Site, fqdn: string): World {
    var (data, ok) := DeleteRecord(w.data, zone, fqdn, TypeNumber(tag.rtype), site.update);
    if !ok then World(w.rows, data)
    else
      var proven :=
        if StoresProofs(setup.zones, zone)
        then DeleteRecord(data, zone, ProofName(fqdn), TXT_TYPE, site.proof).0
        else data;
      World(DeleteRecordsByKey(w.rows, ev.npub, tag.rtype, tag.name, zone), proven)
  }

  function DropRecord(
    setup: Setup, table: Table, w: World, ev: Event, zone: string, tag: DeleteTag, site: Site): World
  {
    var fqdn := ResolveFqdn(site.delegated, ev.npub, tag.name, zone);
    if CheckAuthority(setup.codec, table, fqdn, zone, ev.pubkey).Err? then w
    else Erased(setup, w, ev, zone, tag, site, fqdn)
  }

  // -------------------------------------------------------------------------
  // A whole event
  // -------------------------------------------------------------------------

  function PutRecords(setup: Setup, table: Table, w: World, ev: Event, zone: string, sites: Sites, n: nat): World
    requires n <= |ev.records|
  {
    if n == 0 then w
    else
      PutRecord(setup, table, PutRecords(setup, table, w, ev, zone, sites, n - 1), ev, zone,
                ev.records[n - 1], sites(zone, n - 1))
  }

  function DropRecords(setup: Setup, table: Table, w: World, ev: Event, zone: string, sites: Sites, n: nat): World
    requires n <= |ev.deletes|
  {
    if n == 0 then w
    else
      DropRecord(setup, table, DropRecords(setup, table, w, ev, zone, sites, n - 1), ev, zone,
                 ev.deletes[n - 1], sites(zone, n - 1))
  }

  function PutInZones(setup: Setup, table: Table, w: World, ev: Event, order: seq<string>, sites: Sites, n: nat): World
    requires n <= |order|
  {
    if n == 0 then w
    else
      PutRecords(setup, table, PutInZones(setup, table, w, ev, order, sites, n - 1), ev, order[n - 1], sites,
                 |ev.records|)
  }

  function DropInZones(setup: Setup, table: Table, w: World, ev: Event, order: seq<string>, sites: Sites, n: nat): World
    requires n <= |order|
  {
    if n == 0 then w
    else
      DropRecords(setup, table, DropInZones(setup, table, w, ev, order, sites, n - 1), ev, order[n - 1], sites,
                  |ev.deletes|)
  }

  /** The record limit and the rate limit of the signer. */
  predicate WithinLimits(setup: Setup, rows: Rows, ev: Event, now: int) {
    && RecordCountByPubkey(rows, ev.pubkey) + |ev.records| <= setup.maxRecords
    && EventsInLastMinute(rows, ev.pubkey, now) < setup.rateLimit
  }

  function Updated(
    setup: Setup, table: Table, w: World, ev: Event, order: seq<string>, sites: Sites, now: int): World
  {
    if ev.records != [] && WithinLimits(setup, w.rows, ev, now)
    then PutInZones(setup, table, w, ev, order, sites, |order|)
    else w
  }

  /** An event handled while the delegation table stands still. The zones are visited in the order the
      updaters' map happens to give. */
  datatype Turn = Turn(table: Table, ev: Event, order: seq<string>, puts: Sites, drops: Sites, now: int)

  function Handled(setup: Setup, w: World, turn: Turn): World {
    var updated := Updated(setup, turn.table, w, turn.ev, turn.order, turn.puts, turn.now);
    DropInZones(setup, turn.table, updated, turn.ev, turn.order, turn.drops, |turn.order|)
  }

  /** The world after the first `n` events. */
  function WorldAt(setup: Setup, w: World, turns: seq<Turn>, n: nat): World
    requires n <= |turns|
  {
    if n == 0 then w else Handled(setup, WorldAt(setup, w, turns, n - 1), turns[n - 1])
  }
}
