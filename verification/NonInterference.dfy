/** Handling one signer's event never disturbs names that belong to another key. */
module NonInterference {
  import opened Delegations
  import opened Authority
  import opened Rdata
  import opened ZoneData
  import opened Records

  // -------------------------------------------------------------------------
  // Events as sequences of tag steps
  // -------------------------------------------------------------------------

  /** A property of the world that every tag of an event keeps, in every zone. */
  ghost predicate KeptByPuts(
    setup: Setup, table: Table, ev: Event, order: seq<string>, sites: Sites, p: World -> bool)
  {
    forall w, zone, i: nat | zone in order && i < |ev.records| && p(w) ::
      p(PutRecord(setup, table, w, ev, zone, ev.records[i], sites(zone, i)))
  }

  ghost predicate KeptByDrops(
    setup: Setup, table: Table, ev: Event, order: seq<string>, sites: Sites, p: World -> bool)
  {
    forall w, zone, i: nat | zone in order && i < |ev.deletes| && p(w) ::
      p(DropRecord(setup, table, w, ev, zone, ev.deletes[i], sites(zone, i)))
  }

  lemma {:induction false} PutsKeep(
    setup: Setup, table: Table, w: World, ev: Event, order: seq<string>, zone: string, sites: Sites, n: nat,
    p: World -> bool)
    requires KeptByPuts(setup, table, ev, order, sites, p) && p(w) && zone in order && n <= |ev.records|
    ensures p(PutRecords(setup, table, w, ev, zone, sites, n))
  {
    if n > 0 {
      PutsKeep(setup, table, w, ev, order, zone, sites, n - 1, p);
    }
  }

  lemma {:induction false} DropsKeep(
    setup: Setup, table: Table, w: World, ev: Event, order: seq<string>, zone: string, sites: Sites, n: nat,
    p: World -> bool)
    requires KeptByDrops(setup, table, ev, order, sites, p) && p(w) && zone in order && n <= |ev.deletes|
    ensures p(DropRecords(setup, table, w, ev, zone, sites, n))
  {
    if n > 0 {
      DropsKeep(setup, table, w, ev, order, zone, sites, n - 1, p);
    }
  }

  lemma {:induction false} PutZonesKeep(
    setup: Setup, table: Table, w: World, ev: Event, order: seq<string>, sites: Sites, n: nat, p: World -> bool)
    requires KeptByPuts(setup, table, ev, order, sites, p) && p(w) && n <= |order|
    ensures p(PutInZones(setup, table, w, ev, order, sites, n))
  {
    if n > 0 {
      PutZonesKeep(setup, table, w, ev, order, sites, n - 1, p);
      var before := PutInZones(setup, table, w, ev, order, sites, n - 1);
      PutsKeep(setup, table, before, ev, order, order[n - 1], sites, |ev.records|, p);
    }
  }

  lemma {:induction false} DropZonesKeep(
    setup: Setup, table: Table, w: World, ev: Event, order: seq<string>, sites: Sites, n: nat, p: World -> bool)
    requires KeptByDrops(setup, table, ev, order, sites, p) && p(w) && n <= |order|
    ensures p(DropInZones(setup, table, w, ev, order, sites, n))
  {
    if n > 0 {
      DropZonesKeep(setup, table, w, ev, order, sites, n - 1, p);
      var before := DropInZones(setup, table, w, ev, order, sites, n - 1);
      DropsKeep(setup, table, before, ev, order, order[n - 1], sites, |ev.deletes|, p);
    }
  }

  /** What every tag keeps, the whole event keeps. */
  lemma HandledKeeps(setup: Setup, w: World, turn: Turn, p: World -> bool)
    requires KeptByPuts(setup, turn.table, turn.ev, turn.order, turn.puts, p)
    requires KeptByDrops(setup, turn.table, turn.ev, turn.order, turn.drops, p)
    requires p(w)
    ensures p(Handled(setup, w, turn))
  {
    PutZonesKeep(setup, turn.table, w, turn.ev, turn.order, turn.puts, |turn.order|, p);
    var updated := Updated(setup, turn.table, w, turn.ev, turn.order, turn.puts, turn.now);
    DropZonesKeep(setup, turn.table, updated, turn.ev, turn.order, turn.drops, |turn.order|, p);
  }

  // -------------------------------------------------------------------------
  // Where a tag writes
  // -------------------------------------------------------------------------

  /** The labels left of the zone in the name a tag resolves to. */
  function PrefixOf(site: Site, npub: string, name: string): string {
    Under(name, if site.delegated.Some? then site.delegated.value else npub)
  }

  lemma WrittenAt(setup: Setup, w: World, ev: Event, zone: string, tag: RecordTag, site: Site, fqdn: string, key: RrKey)
    requires EnsureFqdn(fqdn) == fqdn && EnsureFqdn(ProofName(fqdn)) == ProofName(fqdn)
    requires RRset(Written(setup, w, ev, zone, tag, site, fqdn).data, key) != RRset(w.data, key)
    ensures key.zone == zone
    ensures key.name == fqdn || (key.name == ProofName(fqdn) && StoresProofs(setup.zones, zone))
  {
    var rt := TypeNumber(tag.rtype);
    var parsed := ParseRdata(setup.syn, rt, tag.rdata);
    if parsed.Some? {
      ReplaceAt(w.data, RrKey(zone, fqdn, rt), parsed.value, key);
      var data := UpdateRecord(setup.syn, w.data, zone, fqdn, rt, tag.rdata, site.update).0;
      ReplaceAt(data, RrKey(zone, ProofName(fqdn), TXT_TYPE), TXT(ProofStrings(setup, ev, tag)), key);
    }
  }

  lemma ErasedAt(setup: Setup, w: World, ev: Event, zone: string, tag: DeleteTag, site: Site, fqdn: string, key: RrKey)
    requires EnsureFqdn(fqdn) == fqdn && EnsureFqdn(ProofName(fqdn)) == ProofName(fqdn)
    requires RRset(Erased(setup, w, ev, zone, tag, site, fqdn).data, key) != RRset(w.data, key)
    ensures key.zone == zone
    ensures key.name == fqdn || (key.name == ProofName(fqdn) && StoresProofs(setup.zones, zone))
  {
  }

  /** An RRset a tag may change: in its own zone, at the name it resolves to or at that name's proof, and only when
      the signer owns the name. */
  ghost predicate Reaches(
    setup: Setup, table: Table, ev: Event, zone: string, name: string, site: Site, key: RrKey)
  {
    var fqdn := InZone(PrefixOf(site, ev.npub, name), zone);
    && key.zone == zone
    && (key.name == fqdn || (key.name == ProofName(fqdn) && StoresProofs(setup.zones, zone)))
    && CheckAuthority(setup.codec, table, fqdn, zone, ev.pubkey).Ok?
  }

  lemma PutWrites(
    setup: Setup, table: Table, w: World, ev: Event, zone: string, tag: RecordTag, site: Site, key: RrKey)
    ensures Reaches(setup, table, ev, zone, tag.name, site, key)
            || RRset(PutRecord(setup, table, w, ev, zone, tag, site).data, key) == RRset(w.data, key)
  {
    var prefix := PrefixOf(site, ev.npub, tag.name);
    NameEndsWithDot(prefix, zone);
    if RRset(Written(setup, w, ev, zone, tag, site, InZone(prefix, zone)).data, key) != RRset(w.data, key) {
      WrittenAt(setup, w, ev, zone, tag, site, InZone(prefix, zone), key);
    }
  }

  lemma DropWrites(
    setup: Setup, table: Table, w: World, ev: Event, zone: string, tag: DeleteTag, site: Site, key: RrKey)
    ensures Reaches(setup, table, ev, zone, tag.name, site, key)
            || RRset(DropRecord(setup, table, w, ev, zone, tag, site).data, key) == RRset(w.data, key)
  {
    var prefix := PrefixOf(site, ev.npub, tag.name);
    NameEndsWithDot(prefix, zone);
    if RRset(Erased(setup, w, ev, zone, tag, site, InZone(prefix, zone)).data, key) != RRset(w.data, key) {
      ErasedAt(setup, w, ev, zone, tag, site, InZone(prefix, zone), key);
    }
  }

  /** A name granted to a key, or the proof name of one. */
  ghost predicate Reserved(codec: Bech32, table: Table, name: string, zone: string, pubkey: string) {
    || CheckAuthority(codec, table, name, zone, pubkey).Ok?
    || exists prefix :: IsProofOf(codec, table, prefix, name, zone, pubkey)
  }

  ghost predicate IsProofOf(
    codec: Bech32, table: Table, prefix: string, name: string, zone: string, pubkey: string)
  {
    && name == ProofName(InZone(prefix, zone))
    && CheckAuthority(codec, table, InZone(prefix, zone), zone, pubkey).Ok?
  }

  lemma OwnerIsUnique(codec: Bech32, table: Table, prefix: string, prefix': string, zone: string, k: string, k': string)
    requires Authority.Lawful(codec) && ZoneOk(zone)
    requires CheckAuthority(codec, table, InZone(prefix, zone), zone, k).Ok?
    requires CheckAuthority(codec, table, InZone(prefix', zone), zone, k').Ok?
    requires prefix == prefix' || prefix == "_nodns" + "." + prefix'
    ensures k == k'
  {
    AuthorityIsOwnership(codec, table, InZone(prefix, zone), zone, k);
    AuthorityIsOwnership(codec, table, InZone(prefix', zone), zone, k');
    OwnerInZone(table, prefix, zone);
    OwnerInZone(table, prefix', zone);
    ProofNameOwner(table, prefix', zone);
    ProofIsDeeper(prefix', zone);
  }

  /** Neither an owned name nor its proof is reserved for anyone but the owner. */
  lemma WrittenIsOwned(
    codec: Bech32, table: Table, prefix: string, zone: string, name: string, pubkey: string, other: string)
    requires Authority.Lawful(codec) && ZoneOk(zone)
    requires name == InZone(prefix, zone) || name == ProofName(InZone(prefix, zone))
    requires CheckAuthority(codec, table, InZone(prefix, zone), zone, pubkey).Ok?
    requires Reserved(codec, table, name, zone, other)
    ensures other == pubkey
  {
    ProofIsDeeper(prefix, zone);
    if CheckAuthority(codec, table, name, zone, other).Ok? {
      if name == InZone(prefix, zone) {
        OwnerIsUnique(codec, table, prefix, prefix, zone, pubkey, other);
      } else {
        OwnerIsUnique(codec, table, "_nodns" + "." + prefix, prefix, zone, other, pubkey);
      }
    } else {
      var prefix' :| IsProofOf(codec, table, prefix', name, zone, other);
      ProofIsDeeper(prefix', zone);
      if name == InZone(prefix, zone) {
        InZoneIsInjective(prefix, "_nodns" + "." + prefix', zone);
      } else {
        ProofIsInjective(InZone(prefix, zone), InZone(prefix', zone));
        InZoneIsInjective(prefix, prefix', zone);
      }
      OwnerIsUnique(codec, table, prefix, prefix', zone, pubkey, other);
    }
  }

  lemma ReachedIsOwned(
    setup: Setup, table: Table, ev: Event, zone: string, name: string, site: Site, key: RrKey, other: string)
    requires Authority.Lawful(setup.codec) && ZoneOk(zone)
    requires Reaches(setup, table, ev, zone, name, site, key) && Reserved(setup.codec, table, key.name, key.zone, other)
    ensures other == ev.pubkey
  {
    WrittenIsOwned(setup.codec, table, PrefixOf(site, ev.npub, name), zone, key.name, ev.pubkey, other);
  }

  // -------------------------------------------------------------------------
  // The theorem
  // -------------------------------------------------------------------------

  ghost predicate Unchanged(w: World, w': World, key: RrKey) {
    RRset(w'.data, key) == RRset(w.data, key)
  }

  lemma UnreachedIsUnchanged(setup: Setup, w: World, turn: Turn, key: RrKey)
    requires forall zone, name, site | zone in turn.order ::
               !Reaches(setup, turn.table, turn.ev, zone, name, site, key)
    ensures RRset(Handled(setup, w, turn).data, key) == RRset(w.data, key)
  {
    var p := (w': World) => Unchanged(w, w', key);
    forall w', zone, i: nat | zone in turn.order && i < |turn.ev.records| && p(w')
      ensures p(PutRecord(setup, turn.table, w', turn.ev, zone, turn.ev.records[i], turn.puts(zone, i)))
    {
      PutWrites(setup, turn.table, w', turn.ev, zone, turn.ev.records[i], turn.puts(zone, i), key);
    }
    forall w', zone, i: nat | zone in turn.order && i < |turn.ev.deletes| && p(w')
      ensures p(DropRecord(setup, turn.table, w', turn.ev, zone, turn.ev.deletes[i], turn.drops(zone, i)))
    {
      DropWrites(setup, turn.table, w', turn.ev, zone, turn.ev.deletes[i], turn.drops(zone, i), key);
    }
    HandledKeeps(setup, w, turn, p);
  }

  lemma ReachedIsReserved(
    setup: Setup, table: Table, ev: Event, zone: string, name: string, site: Site, key: RrKey)
    requires Reaches(setup, table, ev, zone, name, site, key)
    ensures key.zone == zone && Reserved(setup.codec, table, key.name, key.zone, ev.pubkey)
  {
    var prefix := PrefixOf(site, ev.npub, name);
    assert key.name == ProofName(InZone(prefix, zone)) ==>
             IsProofOf(setup.codec, table, prefix, key.name, zone, ev.pubkey);
  }

  /** An event changes nothing but what is its signer's: an RRset at a name granted to the signer, or at the proof name
      of one, in a zone the bot updates. */
  lemma EventsWriteTheirOwn(setup: Setup, w: World, turn: Turn, key: RrKey)
    requires key.zone !in turn.order || !Reserved(setup.codec, turn.table, key.name, key.zone, turn.ev.pubkey)
    ensures RRset(Handled(setup, w, turn).data, key) == RRset(w.data, key)
  {
    forall zone, name, site | zone in turn.order ensures !Reaches(setup, turn.table, turn.ev, zone, name, site, key) {
      if Reaches(setup, turn.table, turn.ev, zone, name, site, key) {
        ReachedIsReserved(setup, turn.table, turn.ev, zone, name, site, key);
        assert false;
      }
    }
    UnreachedIsUnchanged(setup, w, turn, key);
  }

  /** Whatever the delegation table, whatever the event asks for, whichever messages are lost on the way:
      handling an event leaves every RRset at a name granted to another key, and at the proof name of one, exactly as
      it was. */
  lemma NonInterferenceHolds(setup: Setup, w: World, turn: Turn, key: RrKey, other: string)
    requires Authority.Lawful(setup.codec)
    requires forall zone | zone in turn.order :: ZoneOk(zone)
    requires Reserved(setup.codec, turn.table, key.name, key.zone, other) && other != turn.ev.pubkey
    ensures RRset(Handled(setup, w, turn).data, key) == RRset(w.data, key)
  {
    forall zone, name, site | zone in turn.order ensures !Reaches(setup, turn.table, turn.ev, zone, name, site, key) {
      if Reaches(setup, turn.table, turn.ev, zone, name, site, key) {
        ReachedIsOwned(setup, turn.table, turn.ev, zone, name, site, key, other);
        assert false;
      }
    }
    UnreachedIsUnchanged(setup, w, turn, key);
  }

  /** Over a run of events none of which `other` signed, under tables that may change but always reserve the
      name for `other`, its RRsets stay as they were. */
  lemma {:induction false} NonInterferenceOverRuns(
    setup: Setup, w: World, turns: seq<Turn>, n: nat, key: RrKey, other: string)
    requires Authority.Lawful(setup.codec) && n <= |turns|
    requires forall t | t in turns :: Foreign(setup, t, key, other)
    ensures RRset(WorldAt(setup, w, turns, n).data, key) == RRset(w.data, key)
  {
    if n > 0 {
      NonInterferenceOverRuns(setup, w, turns, n - 1, key, other);
      assert Foreign(setup, turns[n - 1], key, other);
      NonInterferenceHolds(setup, WorldAt(setup, w, turns, n - 1), turns[n - 1], key, other);
    }
  }

  /** An event signed by someone else while the name is reserved for `other`. */
  ghost predicate Foreign(setup: Setup, turn: Turn, key: RrKey, other: string) {
    && (forall zone | zone in turn.order :: ZoneOk(zone))
    && Reserved(setup.codec, turn.table, key.name, key.zone, other)
    && other != turn.ev.pubkey
  }
}
