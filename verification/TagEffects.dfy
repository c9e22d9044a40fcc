/** What record and delete tags do, exactly, and what of it an event leaves behind. */
module TagEffects {
  import opened Text
  import opened Delegations
  import opened Authority
  import opened Rdata
  import opened ZoneData
  import opened EventLog
  import opened Records
  import opened NonInterference

  // -------------------------------------------------------------------------
  // One tag
  // -------------------------------------------------------------------------

  /** The name a tag resolves to: below the delegated domain, or below the npub where there is none. */
  function NameOf(ev: Event, zone: string, name: string, site: Site): string {
    InZone(PrefixOf(site, ev.npub, name), zone)
  }

  function TargetOf(ev: Event, zone: string, name: string, rtype: string, site: Site): RrKey {
    RrKey(zone, NameOf(ev, zone, name, site), TypeNumber(rtype))
  }

  function ProofOf(ev: Event, zone: string, name: string, site: Site): RrKey {
    RrKey(zone, ProofName(NameOf(ev, zone, name, site)), TXT_TYPE)
  }

  predicate Granted(setup: Setup, table: Table, ev: Event, zone: string, name: string, site: Site) {
    CheckAuthority(setup.codec, table, NameOf(ev, zone, name, site), zone, ev.pubkey).Ok?
  }

  lemma NameOfIsQualified(ev: Event, zone: string, name: string, site: Site)
    ensures EnsureFqdn(NameOf(ev, zone, name, site)) == NameOf(ev, zone, name, site)
    ensures EnsureFqdn(ProofName(NameOf(ev, zone, name, site))) == ProofName(NameOf(ev, zone, name, site))
    ensures ProofName(NameOf(ev, zone, name, site)) != NameOf(ev, zone, name, site)
    ensures ResolveFqdn(site.delegated, ev.npub, name, zone) == NameOf(ev, zone, name, site)
  {
    NameEndsWithDot(PrefixOf(site, ev.npub, name), zone);
    assert |ProofName(NameOf(ev, zone, name, site))| == |NameOf(ev, zone, name, site)| + 7;
  }

  /** A delete tag: with authority over its name, a message that is not rejected empties the RRset; once it is
      acknowledged, the proof goes too where proofs are kept, and the record's rows are marked. */
  lemma DropEffect(
    setup: Setup, table: Table, w: World, ev: Event, zone: string, tag: DeleteTag, site: Site, k: RrKey)
    ensures var (next, granted) :=
              (DropRecord(setup, table, w, ev, zone, tag, site), Granted(setup, table, ev, zone, tag.name, site));
            && RRset(next.data, k) ==
               (if && granted && !site.update.Rejected? && k == TargetOf(ev, zone, tag.name, tag.rtype, site) then {}
                else if && granted && site.update.Applied? && StoresProofs(setup.zones, zone)
                        && !site.proof.Rejected? && k == ProofOf(ev, zone, tag.name, site) then {}
                else RRset(w.data, k))
            && next.rows ==
               (if granted && site.update.Applied?
                then DeleteRecordsByKey(w.rows, ev.npub, tag.rtype, tag.name, zone) else w.rows)
  {
    DropErased(setup, table, w, ev, zone, tag, site);
    if Granted(setup, table, ev, zone, tag.name, site) {
      ErasedEffect(setup, w, ev, zone, tag, site, k);
    }
  }

  lemma DropErased(setup: Setup, table: Table, w: World, ev: Event, zone: string, tag: DeleteTag, site: Site)
    ensures DropRecord(setup, table, w, ev, zone, tag, site) ==
            if Granted(setup, table, ev, zone, tag.name, site)
            then Erased(setup, w, ev, zone, tag, site, NameOf(ev, zone, tag.name, site)) else w
  {
    NameOfIsQualified(ev, zone, tag.name, site);
  }

  lemma ErasedEffect(setup: Setup, w: World, ev: Event, zone: string, tag: DeleteTag, site: Site, k: RrKey)
    ensures var next := Erased(setup, w, ev, zone, tag, site, NameOf(ev, zone, tag.name, site));
            && RRset(next.data, k) ==
               (if !site.update.Rejected? && k == TargetOf(ev, zone, tag.name, tag.rtype, site) then {}
                else if && site.update.Applied? && StoresProofs(setup.zones, zone)
                        && !site.proof.Rejected? && k == ProofOf(ev, zone, tag.name, site) then {}
                else RRset(w.data, k))
            && next.rows ==
               (if site.update.Applied?
                then DeleteRecordsByKey(w.rows, ev.npub, tag.rtype, tag.name, zone) else w.rows)
  {
    NameOfIsQualified(ev, zone, tag.name, site);
  }

  /** Whether a record tag gets as far as its message, and the value it carries. */
  predicate Sends(setup: Setup, table: Table, ev: Event, zone: string, tag: RecordTag, site: Site) {
    && (IsCv(zone) ==> site.cvAdmitted) && !setup.registrarMode
    && Granted(setup, table, ev, zone, tag.name, site)
    && ParseRdata(setup.syn, TypeNumber(tag.rtype), tag.rdata).Some?
  }

  /** The proof text, unless a CNAME stands at its name. */
  function ProofShown(setup: Setup, w: World, ev: Event, tag: RecordTag, k: RrKey): set<RData> {
    if RRset(w.data, k.(rtype := CNAME_TYPE)) != {} then {} else {TXT(ProofStrings(setup, ev, tag))}
  }

  /** The row an acknowledged record tag saves: the signer, the tag, the zone and the times, and alive. */
  lemma RowFields(ev: Event, zone: string, tag: RecordTag, now: int, r: EventRow)
    ensures r == SavedRow(ev, zone, tag, now) <==>
            && (r.eventId, r.npub, r.pubkey, r.createdAt, r.kind) == (ev.id, ev.npub, ev.pubkey, ev.createdAt, ev.kind)
            && (r.name, r.rtype, r.ttl, r.rdata) == (tag.name, tag.rtype, tag.ttl, tag.rdata)
            && r.zone == zone && r.processedAt == now && !r.deleted
  {
  }

  /** A record tag that gets through replaces its RRset, or empties it where a CNAME and other data would meet; once
      acknowledged, its proof is kept where proofs are kept, and its row is saved as live. */
  lemma PutEffect(
    setup: Setup, table: Table, w: World, ev: Event, zone: string, tag: RecordTag, site: Site, k: RrKey)
    ensures var next := PutRecord(setup, table, w, ev, zone, tag, site);
            if !Sends(setup, table, ev, zone, tag, site) || site.update.Rejected? then next == w
            else
              && RRset(next.data, k) ==
                 (if k == TargetOf(ev, zone, tag.name, tag.rtype, site)
                  then (if Blocked(w.data, k) then {}
                        else {ParseRdata(setup.syn, TypeNumber(tag.rtype), tag.rdata).value})
                  else if && site.update.Applied? && StoresProofs(setup.zones, zone) && !site.proof.Rejected?
                          && k == ProofOf(ev, zone, tag.name, site)
                  then ProofShown(setup, w, ev, tag, k)
                  else RRset(w.data, k))
              && next.rows ==
                 (if site.update.Applied?
                  then SaveEvent(w.rows, SavedRow(ev, zone, tag, site.now))
                  else w.rows)
  {
    PutWritten(setup, table, w, ev, zone, tag, site);
    if Sends(setup, table, ev, zone, tag, site) && !site.update.Rejected? {
      PutData(setup, w, ev, zone, tag, site, k);
      PutRow(setup, w, ev, zone, tag, site);
    }
  }

  lemma PutWritten(setup: Setup, table: Table, w: World, ev: Event, zone: string, tag: RecordTag, site: Site)
    ensures PutRecord(setup, table, w, ev, zone, tag, site) ==
            if Sends(setup, table, ev, zone, tag, site) && !site.update.Rejected?
            then Written(setup, w, ev, zone, tag, site, NameOf(ev, zone, tag.name, site)) else w
  {
    NameOfIsQualified(ev, zone, tag.name, site);
  }

  lemma PutRow(setup: Setup, w: World, ev: Event, zone: string, tag: RecordTag, site: Site)
    requires ParseRdata(setup.syn, TypeNumber(tag.rtype), tag.rdata).Some? && !site.update.Rejected?
    ensures Written(setup, w, ev, zone, tag, site, NameOf(ev, zone, tag.name, site)).rows ==
            if site.update.Applied?
            then SaveEvent(w.rows, SavedRow(ev, zone, tag, site.now))
            else w.rows
  {
  }

  lemma PutData(setup: Setup, w: World, ev: Event, zone: string, tag: RecordTag, site: Site, k: RrKey)
    requires ParseRdata(setup.syn, TypeNumber(tag.rtype), tag.rdata).Some? && !site.update.Rejected?
    ensures RRset(Written(setup, w, ev, zone, tag, site, NameOf(ev, zone, tag.name, site)).data, k) ==
            if k == TargetOf(ev, zone, tag.name, tag.rtype, site)
            then (if Blocked(w.data, k) then {} else {ParseRdata(setup.syn, TypeNumber(tag.rtype), tag.rdata).value})
            else if && site.update.Applied? && StoresProofs(setup.zones, zone) && !site.proof.Rejected?
                    && k == ProofOf(ev, zone, tag.name, site)
            then ProofShown(setup, w, ev, tag, k)
            else RRset(w.data, k)
  {
    var (target, proof) := (TargetOf(ev, zone, tag.name, tag.rtype, site), ProofOf(ev, zone, tag.name, site));
    var v := ParseRdata(setup.syn, TypeNumber(tag.rtype), tag.rdata).value;
    var data := Replace(w.data, target, v);
    NameOfIsQualified(ev, zone, tag.name, site);
    ReplaceAt(w.data, target, v, k);
    ReplaceAt(w.data, target, v, proof.(rtype := CNAME_TYPE));
    ReplaceAt(data, proof, TXT(ProofStrings(setup, ev, tag)), k);
  }

  // -------------------------------------------------------------------------
  // The delete tags of an event
  // -------------------------------------------------------------------------

  /** What one delete tag brings about in any world, and the rest keep, holds at the end of the event. */
  lemma {:induction false} DropEstablishes(
    setup: Setup, table: Table, w: World, ev: Event, order: seq<string>, zone: string, sites: Sites, i: nat, n: nat,
    p: World -> bool)
    requires KeptByDrops(setup, table, ev, order, sites, p) && zone in order && i < n <= |ev.deletes|
    requires forall w' :: p(DropRecord(setup, table, w', ev, zone, ev.deletes[i], sites(zone, i)))
    ensures p(DropRecords(setup, table, w, ev, zone, sites, n))
  {
    if i < n - 1 {
      DropEstablishes(setup, table, w, ev, order, zone, sites, i, n - 1, p);
    }
  }

  lemma {:induction false} DropZonesEstablish(
    setup: Setup, table: Table, w: World, ev: Event, order: seq<string>, z: nat, sites: Sites, i: nat, n: nat,
    p: World -> bool)
    requires KeptByDrops(setup, table, ev, order, sites, p) && z < n <= |order| && i < |ev.deletes|
    requires forall w' :: p(DropRecord(setup, table, w', ev, order[z], ev.deletes[i], sites(order[z], i)))
    ensures p(DropInZones(setup, table, w, ev, order, sites, n))
  {
    var before := DropInZones(setup, table, w, ev, order, sites, n - 1);
    if z < n - 1 {
      DropZonesEstablish(setup, table, w, ev, order, z, sites, i, n - 1, p);
      DropsKeep(setup, table, before, ev, order, order[n - 1], sites, |ev.deletes|, p);
    } else {
      DropEstablishes(setup, table, before, ev, order, order[z], sites, i, |ev.deletes|, p);
    }
  }

  ghost predicate IsEmptyAt(w: World, k: RrKey) {
    RRset(w.data, k) == {}
  }

  ghost predicate NoneLives(w: World, npub: string, rtype: string, name: string, zone: string) {
    forall r | r in w.rows :: !IsLive(r, npub, rtype, name, zone)
  }

  lemma EmptyStaysEmpty(setup: Setup, turn: Turn, k: RrKey)
    ensures KeptByDrops(setup, turn.table, turn.ev, turn.order, turn.drops, (w: World) => IsEmptyAt(w, k))
  {
    forall w, zone, i: nat | zone in turn.order && i < |turn.ev.deletes| && IsEmptyAt(w, k)
      ensures IsEmptyAt(DropRecord(setup, turn.table, w, turn.ev, zone, turn.ev.deletes[i], turn.drops(zone, i)), k)
    {
      DropEffect(setup, turn.table, w, turn.ev, zone, turn.ev.deletes[i], turn.drops(zone, i), k);
    }
  }

  lemma DeadStaysDead(rows: Rows, n: string, t: string, a: string, z: string, r: EventRow)
    requires r in DeleteRecordsByKey(rows, n, t, a, z)
    ensures r.deleted || r in rows
    ensures !IsLive(r, n, t, a, z)
  {
    var next := DeleteRecordsByKey(rows, n, t, a, z);
    var i :| 0 <= i < |next| && next[i] == r;
    assert rows[i] in rows;
  }

  lemma NoneLivesStays(setup: Setup, turn: Turn, npub: string, rtype: string, name: string, zone: string)
    ensures KeptByDrops(setup, turn.table, turn.ev, turn.order, turn.drops,
                        (w: World) => NoneLives(w, npub, rtype, name, zone))
  {
    forall w, zone', i: nat | zone' in turn.order && i < |turn.ev.deletes| && NoneLives(w, npub, rtype, name, zone)
      ensures NoneLives(DropRecord(setup, turn.table, w, turn.ev, zone', turn.ev.deletes[i], turn.drops(zone', i)),
                        npub, rtype, name, zone)
    {
      DropKeepsDead(setup, turn.table, w, turn.ev, zone', turn.ev.deletes[i], turn.drops(zone', i),
                    npub, rtype, name, zone);
    }
  }

  lemma DropKeepsDead(
    setup: Setup, table: Table, w: World, ev: Event, zone': string, tag: DeleteTag, site: Site,
    npub: string, rtype: string, name: string, zone: string)
    requires NoneLives(w, npub, rtype, name, zone)
    ensures NoneLives(DropRecord(setup, table, w, ev, zone', tag, site), npub, rtype, name, zone)
  {
    DropEffect(setup, table, w, ev, zone', tag, site, ProofOf(ev, zone', tag.name, site));
    var rows := DeleteRecordsByKey(w.rows, ev.npub, tag.rtype, tag.name, zone');
    forall r | r in rows ensures !IsLive(r, npub, rtype, name, zone) {
      DeadStaysDead(w.rows, ev.npub, tag.rtype, tag.name, zone', r);
    }
  }

  /** A delete tag deletes. For any delete tag of an event and any zone the bot updates: if the signer has authority
      over the name the tag resolves to, delegated or below its npub, and the message is not rejected, the RRset is
      empty once the event is handled; if it is acknowledged, no row of the record is live, and neither is its proof
      left unless the message for that is rejected. */
  lemma DeleteTagDeletes(setup: Setup, w: World, turn: Turn, z: nat, i: nat)
    requires z < |turn.order| && i < |turn.ev.deletes|
    requires Granted(setup, turn.table, turn.ev, turn.order[z], turn.ev.deletes[i].name, turn.drops(turn.order[z], i))
    ensures var (ev, zone, tag, site) :=
              (turn.ev, turn.order[z], turn.ev.deletes[i], turn.drops(turn.order[z], i));
            var after := Handled(setup, w, turn);
            && (!site.update.Rejected? ==> RRset(after.data, TargetOf(ev, zone, tag.name, tag.rtype, site)) == {})
            && (site.update.Applied? ==> NoneLives(after, ev.npub, tag.rtype, tag.name, zone))
            && (site.update.Applied? && StoresProofs(setup.zones, zone) && !site.proof.Rejected? ==>
                  RRset(after.data, ProofOf(ev, zone, tag.name, site)) == {})
  {
    var (zone, tag, site) := (turn.order[z], turn.ev.deletes[i], turn.drops(turn.order[z], i));
    var (target, proof) := (TargetOf(turn.ev, zone, tag.name, tag.rtype, site), ProofOf(turn.ev, zone, tag.name, site));
    if !site.update.Rejected? {
      EmptiedByTag(setup, w, turn, z, i, target);
    }
    if site.update.Applied? {
      KilledByTag(setup, w, turn, z, i);
    }
    if site.update.Applied? && StoresProofs(setup.zones, zone) && !site.proof.Rejected? {
      EmptiedByTag(setup, w, turn, z, i, proof);
    }
  }

  lemma EmptiedByTag(setup: Setup, w: World, turn: Turn, z: nat, i: nat, k: RrKey)
    requires z < |turn.order| && i < |turn.ev.deletes|
    requires var (ev, zone, tag, site) :=
               (turn.ev, turn.order[z], turn.ev.deletes[i], turn.drops(turn.order[z], i));
             && Granted(setup, turn.table, ev, zone, tag.name, site) && !site.update.Rejected?
             && (|| k == TargetOf(ev, zone, tag.name, tag.rtype, site)
                 || (&& site.update.Applied? && StoresProofs(setup.zones, zone) && !site.proof.Rejected?
                     && k == ProofOf(ev, zone, tag.name, site)))
    ensures RRset(Handled(setup, w, turn).data, k) == {}
  {
    var (zone, tag, site) := (turn.order[z], turn.ev.deletes[i], turn.drops(turn.order[z], i));
    var p := (w': World) => IsEmptyAt(w', k);
    EmptyStaysEmpty(setup, turn, k);
    forall w' ensures p(DropRecord(setup, turn.table, w', turn.ev, zone, tag, site)) {
      DropEffect(setup, turn.table, w', turn.ev, zone, tag, site, k);
    }
    var updated := Updated(setup, turn.table, w, turn.ev, turn.order, turn.puts, turn.now);
    DropZonesEstablish(setup, turn.table, updated, turn.ev, turn.order, z, turn.drops, i, |turn.order|, p);
  }

  lemma KilledByTag(setup: Setup, w: World, turn: Turn, z: nat, i: nat)
    requires z < |turn.order| && i < |turn.ev.deletes|
    requires var site := turn.drops(turn.order[z], i);
             && Granted(setup, turn.table, turn.ev, turn.order[z], turn.ev.deletes[i].name, site)
             && site.update.Applied?
    ensures NoneLives(Handled(setup, w, turn), turn.ev.npub, turn.ev.deletes[i].rtype, turn.ev.deletes[i].name,
                      turn.order[z])
  {
    var (ev, zone, tag, site) := (turn.ev, turn.order[z], turn.ev.deletes[i], turn.drops(turn.order[z], i));
    var p := (w': World) => NoneLives(w', ev.npub, tag.rtype, tag.name, zone);
    NoneLivesStays(setup, turn, ev.npub, tag.rtype, tag.name, zone);
    forall w' ensures p(DropRecord(setup, turn.table, w', ev, zone, tag, site)) {
      DropEffect(setup, turn.table, w', ev, zone, tag, site, ProofOf(ev, zone, tag.name, site));
      forall r | r in DeleteRecordsByKey(w'.rows, ev.npub, tag.rtype, tag.name, zone)
        ensures !IsLive(r, ev.npub, tag.rtype, tag.name, zone)
      {
        DeadStaysDead(w'.rows, ev.npub, tag.rtype, tag.name, zone, r);
      }
    }
    var updated := Updated(setup, turn.table, w, ev, turn.order, turn.puts, turn.now);
    DropZonesEstablish(setup, turn.table, updated, ev, turn.order, z, turn.drops, i, |turn.order|, p);
  }

  // -------------------------------------------------------------------------
  // The record tags of an event
  // -------------------------------------------------------------------------

  /** A tag whose RRset, or whose proof, is at `k`. */
  predicate Touches(ev: Event, zone: string, name: string, rtype: string, site: Site, k: RrKey) {
    k == TargetOf(ev, zone, name, rtype, site) || k == ProofOf(ev, zone, name, site)
  }

  ghost predicate Misses(ev: Event, zone: string, tag: RecordTag, site: Site, k: RrKey) {
    k.zone != zone || !Touches(ev, zone, tag.name, tag.rtype, site, k)
  }

  /** Record tags from the `i`th on leave `k` alone. */
  ghost predicate MissedFrom(ev: Event, zone: string, sites: Sites, i: nat, k: RrKey) {
    forall j: nat | i <= j < |ev.records| :: Misses(ev, zone, ev.records[j], sites(zone, j), k)
  }

  lemma UntouchedByPut(
    setup: Setup, table: Table, w: World, ev: Event, zone: string, tag: RecordTag, site: Site, k: RrKey)
    requires Misses(ev, zone, tag, site, k)
    ensures Unchanged(w, PutRecord(setup, table, w, ev, zone, tag, site), k)
  {
    PutEffect(setup, table, w, ev, zone, tag, site, k);
  }

  /** A property that record tags from the `i`th on keep in a zone. */
  ghost predicate KeptFrom(
    setup: Setup, table: Table, ev: Event, zone: string, sites: Sites, i: nat, p: World -> bool)
  {
    forall w, j: nat | i <= j < |ev.records| && p(w) ::
      p(PutRecord(setup, table, w, ev, zone, ev.records[j], sites(zone, j)))
  }

  lemma {:induction false} PutsKeepFrom(
    setup: Setup, table: Table, w: World, ev: Event, zone: string, sites: Sites, i: nat, n: nat, p: World -> bool)
    requires KeptFrom(setup, table, ev, zone, sites, i, p)
    requires i <= n <= |ev.records| && p(PutRecords(setup, table, w, ev, zone, sites, i))
    ensures p(PutRecords(setup, table, w, ev, zone, sites, n))
    decreases n
  {
    if i < n {
      PutsKeepFrom(setup, table, w, ev, zone, sites, i, n - 1, p);
      var before := PutRecords(setup, table, w, ev, zone, sites, n - 1);
      assert p(PutRecord(setup, table, before, ev, zone, ev.records[n - 1], sites(zone, n - 1)));
    } else {
      assert i == n;
    }
  }

  lemma MissedIsKept(
    setup: Setup, table: Table, ev: Event, zone: string, sites: Sites, i: nat, k: RrKey, start: World)
    requires MissedFrom(ev, zone, sites, i, k)
    ensures KeptFrom(setup, table, ev, zone, sites, i, (w: World) => Unchanged(start, w, k))
  {
    forall w, j: nat | i <= j < |ev.records| && Unchanged(start, w, k)
      ensures Unchanged(start, PutRecord(setup, table, w, ev, zone, ev.records[j], sites(zone, j)), k)
    {
      assert Misses(ev, zone, ev.records[j], sites(zone, j), k);
      UntouchedByPut(setup, table, w, ev, zone, ev.records[j], sites(zone, j), k);
    }
  }

  lemma UntouchedByPuts(
    setup: Setup, table: Table, w: World, ev: Event, zone: string, sites: Sites, i: nat, k: RrKey)
    requires i <= |ev.records| && MissedFrom(ev, zone, sites, i, k)
    ensures Unchanged(PutRecords(setup, table, w, ev, zone, sites, i),
                      PutRecords(setup, table, w, ev, zone, sites, |ev.records|), k)
  {
    var start := PutRecords(setup, table, w, ev, zone, sites, i);
    MissedIsKept(setup, table, ev, zone, sites, i, k, start);
    PutsKeepFrom(setup, table, w, ev, zone, sites, i, |ev.records|, (w': World) => Unchanged(start, w', k));
  }

  lemma OtherZone(setup: Setup, table: Table, w: World, ev: Event, zone: string, sites: Sites, k: RrKey)
    requires k.zone != zone
    ensures Unchanged(w, PutRecords(setup, table, w, ev, zone, sites, |ev.records|), k)
  {
    UntouchedByPuts(setup, table, w, ev, zone, sites, 0, k);
  }

  /** A property that the record tags keep in the zones from the `z`th on. */
  ghost predicate ZonesKeep(
    setup: Setup, table: Table, ev: Event, order: seq<string>, sites: Sites, z: nat, p: World -> bool)
  {
    forall w, m: nat | z <= m < |order| && p(w) :: p(PutRecords(setup, table, w, ev, order[m], sites, |ev.records|))
  }

  lemma NextZone(
    setup: Setup, table: Table, w: World, ev: Event, order: seq<string>, sites: Sites, z: nat, n: nat, p: World -> bool)
    requires ZonesKeep(setup, table, ev, order, sites, z, p)
    requires z < n <= |order| && p(PutInZones(setup, table, w, ev, order, sites, n - 1))
    ensures p(PutInZones(setup, table, w, ev, order, sites, n))
  {
  }

  lemma {:induction false} ZonesKeepFrom(
    setup: Setup, table: Table, w: World, ev: Event, order: seq<string>, sites: Sites, z: nat, n: nat, p: World -> bool)
    requires ZonesKeep(setup, table, ev, order, sites, z, p)
    requires z <= n <= |order| && p(PutInZones(setup, table, w, ev, order, sites, z))
    ensures p(PutInZones(setup, table, w, ev, order, sites, n))
    decreases n
  {
    if z == n {
      return;
    }
    ZonesKeepFrom(setup, table, w, ev, order, sites, z, n - 1, p);
    NextZone(setup, table, w, ev, order, sites, z, n, p);
  }

  lemma OthersKeep(
    setup: Setup, table: Table, ev: Event, order: seq<string>, sites: Sites, z: nat, k: RrKey, start: World)
    requires forall m | z <= m < |order| :: order[m] != k.zone
    ensures ZonesKeep(setup, table, ev, order, sites, z, (w: World) => Unchanged(start, w, k))
  {
    forall w, m: nat | z <= m < |order| && Unchanged(start, w, k)
      ensures Unchanged(start, PutRecords(setup, table, w, ev, order[m], sites, |ev.records|), k)
    {
      OtherZone(setup, table, w, ev, order[m], sites, k);
    }
  }

  lemma UntouchedByZones(
    setup: Setup, table: Table, w: World, ev: Event, order: seq<string>, sites: Sites, z: nat, k: RrKey)
    requires z <= |order| && forall m | z <= m < |order| :: order[m] != k.zone
    ensures Unchanged(PutInZones(setup, table, w, ev, order, sites, z),
                      PutInZones(setup, table, w, ev, order, sites, |order|), k)
  {
    var start := PutInZones(setup, table, w, ev, order, sites, z);
    OthersKeep(setup, table, ev, order, sites, z, k, start);
    ZonesKeepFrom(setup, table, w, ev, order, sites, z, |order|, (w': World) => Unchanged(start, w', k));
  }

  lemma UntouchedByDrops(setup: Setup, turn: Turn, w: World, k: RrKey)
    requires forall zone, j: nat | zone in turn.order && j < |turn.ev.deletes| ::
               !Touches(turn.ev, zone, turn.ev.deletes[j].name, turn.ev.deletes[j].rtype, turn.drops(zone, j), k)
    ensures RRset(DropInZones(setup, turn.table, w, turn.ev, turn.order, turn.drops, |turn.order|).data, k) ==
            RRset(w.data, k)
  {
    var p := (w': World) => Unchanged(w, w', k);
    forall w', zone, i: nat | zone in turn.order && i < |turn.ev.deletes| && p(w')
      ensures p(DropRecord(setup, turn.table, w', turn.ev, zone, turn.ev.deletes[i], turn.drops(zone, i)))
    {
      DropEffect(setup, turn.table, w', turn.ev, zone, turn.ev.deletes[i], turn.drops(zone, i), k);
    }
    DropZonesKeep(setup, turn.table, w, turn.ev, turn.order, turn.drops, |turn.order|, p);
  }

  /** The world just before record tag `i` is handled in the `z`th zone. */
  function Before(setup: Setup, w: World, turn: Turn, z: nat, i: nat): World
    requires z < |turn.order| && i < |turn.ev.records|
  {
    PutRecords(setup, turn.table, PutInZones(setup, turn.table, w, turn.ev, turn.order, turn.puts, z), turn.ev,
               turn.order[z], turn.puts, i)
  }

  /** A record tag shows. For a tag of an event within the limits that no later record tag and no delete tag of the
      event touches: if the signer has authority over the name it resolves to, delegated or below its npub, and the
      message is not rejected, the RRset is exactly its data once the event is handled - or empty, exactly when a CNAME
      and other data met at the name. */
  lemma RecordTagShows(setup: Setup, w: World, turn: Turn, z: nat, i: nat)
    requires z < |turn.order| && i < |turn.ev.records| && WithinLimits(setup, w.rows, turn.ev, turn.now)
    requires forall a, b | 0 <= a < b < |turn.order| :: turn.order[a] != turn.order[b]
    requires Sends(setup, turn.table, turn.ev, turn.order[z], turn.ev.records[i], turn.puts(turn.order[z], i))
    requires !turn.puts(turn.order[z], i).update.Rejected?
    requires var (ev, zone) := (turn.ev, turn.order[z]);
             var k := TargetOf(ev, zone, ev.records[i].name, ev.records[i].rtype, turn.puts(zone, i));
             && (forall j: nat | i < j < |ev.records| ::
                   !Touches(ev, zone, ev.records[j].name, ev.records[j].rtype, turn.puts(zone, j), k))
             && (forall zone', j: nat | zone' in turn.order && j < |ev.deletes| ::
                   !Touches(ev, zone', ev.deletes[j].name, ev.deletes[j].rtype, turn.drops(zone', j), k))
    ensures var (ev, zone, tag) := (turn.ev, turn.order[z], turn.ev.records[i]);
            var k := TargetOf(ev, zone, tag.name, tag.rtype, turn.puts(zone, i));
            RRset(Handled(setup, w, turn).data, k) ==
            if Blocked(Before(setup, w, turn, z, i).data, k) then {}
            else {ParseRdata(setup.syn, TypeNumber(tag.rtype), tag.rdata).value}
  {
    var (table, ev, zone, tag, site) :=
      (turn.table, turn.ev, turn.order[z], turn.ev.records[i], turn.puts(turn.order[z], i));
    var k := TargetOf(ev, zone, tag.name, tag.rtype, site);
    var start := PutInZones(setup, table, w, ev, turn.order, turn.puts, z);
    var updated := PutInZones(setup, table, w, ev, turn.order, turn.puts, |turn.order|);
    ShownInZone(setup, table, start, ev, zone, turn.puts, i, k);
    UntouchedByZones(setup, table, w, ev, turn.order, turn.puts, z + 1, k);
    UntouchedByDrops(setup, turn, updated, k);
  }

  lemma ShownInZone(
    setup: Setup, table: Table, w: World, ev: Event, zone: string, sites: Sites, i: nat, k: RrKey)
    requires i < |ev.records| && Sends(setup, table, ev, zone, ev.records[i], sites(zone, i))
    requires !sites(zone, i).update.Rejected?
    requires k == TargetOf(ev, zone, ev.records[i].name, ev.records[i].rtype, sites(zone, i))
    requires forall j: nat | i < j < |ev.records| ::
               !Touches(ev, zone, ev.records[j].name, ev.records[j].rtype, sites(zone, j), k)
    ensures RRset(PutRecords(setup, table, w, ev, zone, sites, |ev.records|).data, k) ==
            if Blocked(PutRecords(setup, table, w, ev, zone, sites, i).data, k) then {}
            else {ParseRdata(setup.syn, TypeNumber(ev.records[i].rtype), ev.records[i].rdata).value}
  {
    var before := PutRecords(setup, table, w, ev, zone, sites, i);
    PutEffect(setup, table, before, ev, zone, ev.records[i], sites(zone, i), k);
    UntouchedByPuts(setup, table, w, ev, zone, sites, i + 1, k);
  }

  /** An event over the record limit or the rate limit changes nothing by its record tags: the limit counts the live
      rows of the key and the tags to come, the rate its rows of the last 60 seconds. */
  lemma OverLimitIsIgnored(setup: Setup, w: World, turn: Turn)
    requires turn.ev.deletes == []
    requires || |LiveIndices(w.rows, turn.ev.pubkey)| + |turn.ev.records| > setup.maxRecords
             || |RecentIndices(w.rows, turn.ev.pubkey, turn.now)| >= setup.rateLimit
    ensures Handled(setup, w, turn) == w
  {
    LiveRowsCounted(w.rows, turn.ev.pubkey);
    RecentRowsCounted(w.rows, turn.ev.pubkey, turn.now);
    NothingToDrop(setup, turn.table, w, turn.ev, turn.order, turn.drops, |turn.order|);
  }

  /** Any other event is handled. */
  lemma WithinLimitsIff(setup: Setup, rows: Rows, ev: Event, now: int)
    ensures WithinLimits(setup, rows, ev, now) <==>
            && |LiveIndices(rows, ev.pubkey)| + |ev.records| <= setup.maxRecords
            && |RecentIndices(rows, ev.pubkey, now)| < setup.rateLimit
  {
    LiveRowsCounted(rows, ev.pubkey);
    RecentRowsCounted(rows, ev.pubkey, now);
  }

  lemma {:induction false} NothingToDrop(
    setup: Setup, table: Table, w: World, ev: Event, order: seq<string>, sites: Sites, n: nat)
    requires ev.deletes == [] && n <= |order|
    ensures DropInZones(setup, table, w, ev, order, sites, n) == w
  {
    if n > 0 {
      NothingToDrop(setup, table, w, ev, order, sites, n - 1);
    }
  }

  // -------------------------------------------------------------------------
  // The proof text
  // -------------------------------------------------------------------------

  /** The fields of a proof, in order; the data is whatever follows the eighth semicolon. */
  lemma ProofFields(ev: Event, tag: RecordTag)
    requires ';' !in ev.pubkey && ';' !in ev.sig && ';' !in ev.id && ';' !in tag.rtype && ';' !in tag.name
    ensures SplitN(ProofText(ev, tag), 9, ';') ==
            ["nostr:v=1", "k=" + Decimal(ev.kind), "p=" + ev.pubkey, "s=" + ev.sig, "i=" + ev.id,
             "ts=" + Decimal(ev.createdAt), "rt=" + tag.rtype, "rn=" + tag.name, "rd=" + tag.rdata]
  {
    assert ';' !in Decimal(ev.kind) && ';' !in Decimal(ev.createdAt);
    SplitJoined(["nostr:v=1", "k=" + Decimal(ev.kind), "p=" + ev.pubkey, "s=" + ev.sig, "i=" + ev.id,
                 "ts=" + Decimal(ev.createdAt), "rt=" + tag.rtype, "rn=" + tag.name, "rd=" + tag.rdata], ';');
  }
}
