/** The whole registry as one state machine: claims, renewals, sweeps with their effect on the DNS, and published
    events, in any order. */
module Registry {
  import opened Text
  import opened Delegations
  import opened Authority
  import opened Leases
  import opened LeaseAuthority
  import opened Rdata
  import opened ZoneData
  import opened EventLog
  import opened Records
  import opened NonInterference
  import opened LeaseExpiry

  datatype State = State(table: Table, world: World)

  /** A claim or renewal, a sweep, or an event with record and delete tags. */
  datatype Act = Move(step: Step) | Expire(pass: Pass) | Publish(turn: Turn)

  ghost function Next(setup: Setup, s: State, act: Act): State {
    match act
    case Move(step) => s.(table := Apply(setup.zones, s.table, step))
    case Expire(pass) =>
      State(Apply(setup.zones, s.table, Sweep(pass.now)), SweptWorld(setup.zones, s.table, pass, s.world))
    case Publish(turn) => s.(world := Handled(setup, s.world, turn))
  }

  /** What may happen in a state. Claim tags carry a DNS label, which their parser checks. */
  ghost predicate Possible(s: State, act: Act) {
    match act
    case Move(step) => !step.Sweep? && (step.Claim? ==> IsDnsLabel(step.claim.name))
    case Expire(pass) => PastDueInOrder(s.table, pass.now, pass.due)
    case Publish(turn) => turn.table == s.table && forall zone | zone in turn.order :: ZoneOk(zone)
  }

  ghost predicate Passes(setup: Setup, s: State, act: Act, s': State) {
    Possible(s, act) && s' == Next(setup, s, act)
  }

  ghost predicate PassesAt(setup: Setup, states: seq<State>, acts: seq<Act>, n: nat) {
    n < |acts| && n + 1 < |states| && Passes(setup, states[n], acts[n], states[n + 1])
  }

  /** A run: the states before, between and after its acts. */
  ghost predicate Run(setup: Setup, states: seq<State>, acts: seq<Act>) {
    && |states| == |acts| + 1
    && forall n: nat | n < |acts| :: PassesAt(setup, states, acts, n)
  }

  /** A table of single labels that are no npubs, which is all that claims create. */
  ghost predicate Labelled(table: Table) {
    forall key | key in table :: IsDnsLabel(key.domain) && !IsNpubName(key.domain)
  }

  lemma StaysLabelled(setup: Setup, s: State, act: Act)
    requires Labelled(s.table) && Possible(s, act)
    ensures Labelled(Next(setup, s, act).table)
  {
  }

  // -------------------------------------------------------------------------
  // A lease protects what its holder wrote
  // -------------------------------------------------------------------------

  /** Anything that may happen before `end` other than an event the holder signs. */
  predicate ByOthers(act: Act, holder: string, end: int) {
    match act
    case Move(step) => step.at < end
    case Expire(pass) => pass.now < end
    case Publish(turn) => turn.ev.pubkey != holder
  }

  /** A sweep leaves a leased label alone: no other domain contains it. */
  lemma SweepSpares(zones: seq<ZoneConfig>, table: Table, pass: Pass, w: World, key: NameKey, rt: nat)
    requires '.' !in key.domain && !Lapses(zones, table, key, pass.now)
    ensures var k := RrKey(key.zone, InZone(key.domain, key.zone), rt);
            RRset(SweptWorld(zones, table, pass, w).data, k) == RRset(w.data, k)
  {
    var k := RrKey(key.zone, InZone(key.domain, key.zone), rt);
    EmptiedAt(w.data, Cleared(zones, table, pass, w.rows, |pass.due|), k);
    if n: nat :| n < |pass.due| && ClearedBy(zones, table, pass, w.rows, n, k) {
      ClearedIsUnder(zones, table, pass, w.rows, n, k);
      LabelIsApex(key, pass.due[n], k);
      assert false;
    }
  }

  lemma LabelIsApex(key: NameKey, other: NameKey, k: RrKey)
    requires '.' !in key.domain && k.name == InZone(key.domain, key.zone) && k.zone == key.zone && UnderDomain(other, k)
    ensures other == key
  {
    var name :| k.name == InZone(Under(name, other.domain), other.zone);
    InZoneIsInjective(key.domain, Under(name, other.domain), key.zone);
  }

  /** Nor does it touch the proofs there, since other domains are single labels. */
  lemma SweepSparesProof(zones: seq<ZoneConfig>, table: Table, pass: Pass, w: World, key: NameKey, rt: nat)
    requires Labelled(table) && '.' !in key.domain && !Lapses(zones, table, key, pass.now)
    ensures var k := RrKey(key.zone, ProofName(InZone(key.domain, key.zone)), rt);
            RRset(SweptWorld(zones, table, pass, w).data, k) == RRset(w.data, k)
  {
    var k := RrKey(key.zone, ProofName(InZone(key.domain, key.zone)), rt);
    EmptiedAt(w.data, Cleared(zones, table, pass, w.rows, |pass.due|), k);
    if n: nat :| n < |pass.due| && ClearedBy(zones, table, pass, w.rows, n, k) {
      ClearedIsUnder(zones, table, pass, w.rows, n, k);
      ProofIsDeeper(key.domain, key.zone);
      assert k.name == InZone(Under("_nodns", key.domain), key.zone);
      LabelsAreDotFree(pass.due[n].domain);
      OneDomain(pass.due[n], key, k);
      assert false;
    }
  }

  /** The RRsets at a leased name are as they were. */
  ghost predicate Spared(s: State, s': State, key: NameKey, rt: nat) {
    var k := RrKey(key.zone, InZone(key.domain, key.zone), rt);
    RRset(s'.world.data, k) == RRset(s.world.data, k)
  }

  /** So are those at its proof name. */
  ghost predicate ProofSpared(s: State, s': State, key: NameKey, rt: nat) {
    var k := RrKey(key.zone, ProofName(InZone(key.domain, key.zone)), rt);
    RRset(s'.world.data, k) == RRset(s.world.data, k)
  }

  lemma SweepsSpare(setup: Setup, s: State, pass: Pass, key: NameKey, rt: nat)
    requires IsDnsLabel(key.domain) && !Lapses(setup.zones, s.table, key, pass.now)
    ensures Spared(s, Next(setup, s, Expire(pass)), key, rt)
    ensures Labelled(s.table) ==> ProofSpared(s, Next(setup, s, Expire(pass)), key, rt)
  {
    LabelsAreDotFree(key.domain);
    SweepSpares(setup.zones, s.table, pass, s.world, key, rt);
    if Labelled(s.table) {
      SweepSparesProof(setup.zones, s.table, pass, s.world, key, rt);
    }
  }

  lemma EventsSpare(setup: Setup, s: State, turn: Turn, key: NameKey, holder: Signed, from: int, end: int, rt: nat)
    requires Authority.Lawful(setup.codec) && setup.codec.encode(holder.pubkey) == Some(holder.npub)
    requires IsDnsLabel(key.domain) && ZoneOk(key.zone) && !IsNpubName(key.domain)
    requires HeldUntil(s.table, key, holder, from, end)
    requires Possible(s, Publish(turn)) && turn.ev.pubkey != holder.pubkey
    ensures Spared(s, Next(setup, s, Publish(turn)), key, rt)
    ensures ProofSpared(s, Next(setup, s, Publish(turn)), key, rt)
  {
    var name := InZone(key.domain, key.zone);
    HolderIsGranted(setup.codec, s.table, key, holder, from, end, holder.pubkey);
    NonInterferenceHolds(setup, s.world, turn, RrKey(key.zone, name, rt), holder.pubkey);
    assert IsProofOf(setup.codec, s.table, key.domain, ProofName(name), key.zone, holder.pubkey);
    NonInterferenceHolds(setup, s.world, turn, RrKey(key.zone, ProofName(name), rt), holder.pubkey);
  }

  lemma OthersSpare(setup: Setup, s: State, act: Act, key: NameKey, holder: Signed, from: int, end: int, rt: nat)
    requires Authority.Lawful(setup.codec) && setup.codec.encode(holder.pubkey) == Some(holder.npub)
    requires IsDnsLabel(key.domain) && ZoneOk(key.zone) && !IsNpubName(key.domain)
    requires HeldUntil(s.table, key, holder, from, end)
    requires Possible(s, act) && ByOthers(act, holder.pubkey, end)
    ensures HeldUntil(Next(setup, s, act).table, key, holder, from, end)
    ensures Spared(s, Next(setup, s, act), key, rt)
    ensures Labelled(s.table) ==> ProofSpared(s, Next(setup, s, act), key, rt)
  {
    match act
    case Move(step) => HeldThroughStep(setup.zones, s.table, step, key, holder, from, end);
    case Expire(pass) =>
      HeldThroughStep(setup.zones, s.table, Sweep(pass.now), key, holder, from, end);
      SweepsSpare(setup, s, pass, key, rt);
    case Publish(turn) => EventsSpare(setup, s, turn, key, holder, from, end, rt);
  }

  lemma {:induction false} HeldIsSpared(
    setup: Setup, states: seq<State>, acts: seq<Act>, key: NameKey, holder: Signed, from: int, end: int,
    i: nat, j: nat, rt: nat)
    requires Authority.Lawful(setup.codec) && setup.codec.encode(holder.pubkey) == Some(holder.npub)
    requires IsDnsLabel(key.domain) && ZoneOk(key.zone) && !IsNpubName(key.domain)
    requires Run(setup, states, acts) && i <= j <= |acts|
    requires HeldUntil(states[i].table, key, holder, from, end)
    requires forall m | i <= m < j :: ByOthers(acts[m], holder.pubkey, end)
    ensures HeldUntil(states[j].table, key, holder, from, end)
    ensures Spared(states[i], states[j], key, rt)
    ensures Labelled(states[i].table) ==> Labelled(states[j].table) && ProofSpared(states[i], states[j], key, rt)
    decreases j
  {
    if i < j {
      HeldIsSpared(setup, states, acts, key, holder, from, end, i, j - 1, rt);
      assert PassesAt(setup, states, acts, j - 1);
      OthersSpare(setup, states[j - 1], acts[j - 1], key, holder, from, end, rt);
      if Labelled(states[j - 1].table) {
        StaysLabelled(setup, states[j - 1], acts[j - 1]);
      }
    }
  }

  /** From the claim that grants a lease until the end it asked for, nothing others do - claims, renewals, events, or
      the sweeps that expire other leases - changes an RRset at the leased name, nor, when every delegated domain is a
      single label as claims make them, at its proof name. */
  lemma LeaseProtectsRecords(
    setup: Setup, states: seq<State>, acts: seq<Act>, key: NameKey, i: nat, j: nat, rt: nat)
    requires Authority.Lawful(setup.codec) && Run(setup, states, acts)
    requires i < j <= |acts| && acts[i].Move? && Claims(setup.zones, states[i].table, acts[i].step, key)
    requires ZoneOk(key.zone) && setup.codec.encode(acts[i].step.event.pubkey) == Some(acts[i].step.event.npub)
    requires forall m | i < m < j :: ByOthers(acts[m], acts[i].step.event.pubkey, acts[i].step.claim.validUntil)
    ensures var step := acts[i].step;
            HeldUntil(states[j].table, key, step.event, step.at, step.claim.validUntil)
    ensures Spared(states[i], states[j], key, rt)
    ensures Labelled(states[i].table) ==> ProofSpared(states[i], states[j], key, rt)
  {
    var step := acts[i].step;
    ClaimedIsNotNpub(setup.zones, states[i].table, step, key);
    ClaimedIsHeld(setup.zones, states[i].table, step, key);
    assert PassesAt(setup, states, acts, i);
    if Labelled(states[i].table) {
      StaysLabelled(setup, states[i], acts[i]);
    }
    HeldIsSpared(setup, states, acts, key, step.event, step.at, step.claim.validUntil, i + 1, j, rt);
  }

  // -------------------------------------------------------------------------
  // So does its grace
  // -------------------------------------------------------------------------

  /** Before `graceEnd`, anything but an event the holder signs or an accepted claim of the name. */
  ghost predicate SparesGrace(setup: Setup, s: State, act: Act, key: NameKey, holder: string, graceEnd: int) {
    match act
    case Move(step) => step.at < graceEnd && !Claims(setup.zones, s.table, step, key)
    case Expire(pass) => pass.now < graceEnd
    case Publish(turn) => turn.ev.pubkey != holder
  }

  lemma HolderOrNobody(codec: Bech32, table: Table, key: NameKey, holder: Signed, end: int, pubkey: string)
    requires Authority.Lawful(codec) && KeptUntil(table, key, holder, end)
    requires IsDnsLabel(key.domain) && ZoneOk(key.zone) && !IsNpubName(key.domain)
    requires codec.encode(holder.pubkey) == Some(holder.npub) && pubkey != holder.pubkey
    ensures !Reserved(codec, table, InZone(key.domain, key.zone), key.zone, pubkey)
    ensures !Reserved(codec, table, ProofName(InZone(key.domain, key.zone)), key.zone, pubkey)
  {
    LabelsAreDotFree(key.domain);
    assert key == NameKey(key.domain, key.zone);
    OwnerInZone(table, key.domain, key.zone);
    AuthorityIsOwnership(codec, table, InZone(key.domain, key.zone), key.zone, pubkey);
    NotAProof(codec, table, key, pubkey);
    ProofOfHeld(codec, table, key, pubkey);
  }

  lemma NotAProof(codec: Bech32, table: Table, key: NameKey, pubkey: string)
    requires '.' !in key.domain
    ensures forall prefix :: !IsProofOf(codec, table, prefix, InZone(key.domain, key.zone), key.zone, pubkey)
  {
    forall prefix ensures !IsProofOf(codec, table, prefix, InZone(key.domain, key.zone), key.zone, pubkey) {
      ProofIsDeeper(prefix, key.zone);
      if InZone(key.domain, key.zone) == InZone("_nodns" + "." + prefix, key.zone) {
        InZoneIsInjective(key.domain, "_nodns" + "." + prefix, key.zone);
        assert false;
      }
    }
  }

  lemma ProofOfHeld(codec: Bech32, table: Table, key: NameKey, pubkey: string)
    requires Authority.Lawful(codec) && ZoneOk(key.zone) && '.' !in key.domain && !IsNpubName(key.domain)
    requires CheckAuthority(codec, table, InZone(key.domain, key.zone), key.zone, pubkey).Err?
    ensures !Reserved(codec, table, ProofName(InZone(key.domain, key.zone)), key.zone, pubkey)
  {
    var name := ProofName(InZone(key.domain, key.zone));
    ProofIsDeeper(key.domain, key.zone);
    OwnerInZone(table, "_nodns" + "." + key.domain, key.zone);
    DeeperOwner(table, key.domain, key.zone);
    AuthorityIsOwnership(codec, table, name, key.zone, pubkey);
    forall prefix ensures !IsProofOf(codec, table, prefix, name, key.zone, pubkey) {
      if IsProofOf(codec, table, prefix, name, key.zone, pubkey) {
        ProofIsInjective(InZone(key.domain, key.zone), InZone(prefix, key.zone));
        InZoneIsInjective(key.domain, prefix, key.zone);
        assert false;
      }
    }
  }

  lemma GraceStep(setup: Setup, s: State, act: Act, key: NameKey, holder: Signed, end: int, rt: nat)
    requires Authority.Lawful(setup.codec) && setup.codec.encode(holder.pubkey) == Some(holder.npub)
    requires IsDnsLabel(key.domain) && ZoneOk(key.zone) && !IsNpubName(key.domain)
    requires KeptUntil(s.table, key, holder, end) && Possible(s, act)
    requires SparesGrace(setup, s, act, key, holder.pubkey, end + GraceSeconds(setup.zones, key.zone))
    ensures KeptUntil(Next(setup, s, act).table, key, holder, end)
    ensures Spared(s, Next(setup, s, act), key, rt)
    ensures Labelled(s.table) ==> ProofSpared(s, Next(setup, s, act), key, rt)
  {
    match act
    case Move(step) => KeptThroughStep(setup.zones, s.table, step, key, holder, end);
    case Expire(pass) =>
      KeptThroughStep(setup.zones, s.table, Sweep(pass.now), key, holder, end);
      SweepsSpare(setup, s, pass, key, rt);
    case Publish(turn) =>
      var name := InZone(key.domain, key.zone);
      HolderOrNobody(setup.codec, s.table, key, holder, end, turn.ev.pubkey);
      EventsWriteTheirOwn(setup, s.world, turn, RrKey(key.zone, name, rt));
      EventsWriteTheirOwn(setup, s.world, turn, RrKey(key.zone, ProofName(name), rt));
  }

  /** From a holder's active or grace row until the end of its grace, unless the name is claimed meanwhile, nothing but
      the holder's own events changes an RRset at the name: no sweep deletes its records before grace is over. */
  lemma {:induction false} GraceProtectsRecords(
    setup: Setup, states: seq<State>, acts: seq<Act>, key: NameKey, holder: Signed, end: int, i: nat, j: nat, rt: nat)
    requires Authority.Lawful(setup.codec) && setup.codec.encode(holder.pubkey) == Some(holder.npub)
    requires IsDnsLabel(key.domain) && ZoneOk(key.zone) && !IsNpubName(key.domain)
    requires Run(setup, states, acts) && i <= j <= |acts| && KeptUntil(states[i].table, key, holder, end)
    requires forall m | i <= m < j ::
               SparesGrace(setup, states[m], acts[m], key, holder.pubkey, end + GraceSeconds(setup.zones, key.zone))
    ensures KeptUntil(states[j].table, key, holder, end)
    ensures Spared(states[i], states[j], key, rt)
    ensures Labelled(states[i].table) ==> Labelled(states[j].table) && ProofSpared(states[i], states[j], key, rt)
    decreases j
  {
    if i < j {
      GraceProtectsRecords(setup, states, acts, key, holder, end, i, j - 1, rt);
      assert PassesAt(setup, states, acts, j - 1);
      GraceStep(setup, states[j - 1], acts[j - 1], key, holder, end, rt);
      if Labelled(states[j - 1].table) {
        StaysLabelled(setup, states[j - 1], acts[j - 1]);
      }
    }
  }

  // -------------------------------------------------------------------------
  // A lease that ends without taking its records along
  // -------------------------------------------------------------------------

  const STRANDING_ZONES := [ZoneConfig("z", 0, 365, None, 0, false)]
  const LOST := NameKey("a", "z")
  const KEPT := NameKey("b", "z")

  function LeaseRow(id: string, npub: string, pubkey: string, from: int, end: int): Row {
    Row(id, npub, pubkey, from, end, end - 30 * DAY, pubkey, 0, Active, from)
  }

  function TwoLeases(npub: string, pubkey: string): Table {
    map[LOST := LeaseRow("e1", npub, pubkey, 0, 10), KEPT := LeaseRow("e2", npub, pubkey, 1, 100)]
  }

  function Note(npub: string, pubkey: string): Event {
    Event("e3", pubkey, npub, "", 2, 0, [RecordTag("@", "TXT", 60, "hi")], [])
  }

  function NoteTurn(npub: string, pubkey: string): Turn {
    var sites := (zone: string, i: nat) => Site(2, Some("b"), true, Applied, Applied);
    Turn(TwoLeases(npub, pubkey), Note(npub, pubkey), ["z"], sites, sites, 2)
  }

  /** One holder claims a until 10 and b until 100, publishes a record, and two sweeps pass. */
  function StrandingRun(npub: string, pubkey: string): seq<Act> {
    var regs := Registrars(map[], map["z" := pubkey]);
    [ Move(Claim(0, regs, ClaimRequest("a", "z", 10), Signed("e1", pubkey, npub, 0))),
      Move(Claim(1, regs, ClaimRequest("b", "z", 100), Signed("e2", pubkey, npub, 1))),
      Publish(NoteTurn(npub, pubkey)),
      Expire(Pass(10, {"z"}, [LOST], _ => Applied)),
      Expire(Pass(100, {"z"}, [KEPT], _ => Applied)) ]
  }

  /** An event with one record tag and one zone. */
  lemma OneTag(setup: Setup, w: World, turn: Turn, zone: string)
    requires turn.order == [zone] && |turn.ev.records| == 1 && turn.ev.deletes == []
    requires WithinLimits(setup, w.rows, turn.ev, turn.now)
    ensures Handled(setup, w, turn) ==
            PutRecord(setup, turn.table, w, turn.ev, zone, turn.ev.records[0], turn.puts(zone, 0))
  {
    var (t, ev) := (turn.table, turn.ev);
    var put := PutRecord(setup, t, w, ev, zone, ev.records[0], turn.puts(zone, 0));
    assert PutRecords(setup, t, w, ev, zone, turn.puts, 0) == w;
    assert PutRecords(setup, t, w, ev, zone, turn.puts, 1) == put;
    assert PutInZones(setup, t, w, ev, turn.order, turn.puts, 0) == w;
    assert PutInZones(setup, t, w, ev, turn.order, turn.puts, 1) == put;
    assert DropInZones(setup, t, put, ev, turn.order, turn.drops, 0) == put;
    assert DropRecords(setup, t, put, ev, zone, turn.drops, 0) == put;
  }

  lemma TextIntoEmpty(syn: Syntax, zone: string, fqdn: string, text: string)
    requires EnsureFqdn(fqdn) == fqdn
    ensures UpdateRecord(syn, map[], zone, fqdn, TXT_TYPE, text, Applied) ==
            (map[RrKey(zone, fqdn, TXT_TYPE) := {TXT([text])}], true)
  {
    var none: Data := map[];
    var k := RrKey(zone, fqdn, TXT_TYPE);
    assert DeleteRRset(none, k) == none && !Blocked(none, k);
    assert RRset(none, k) + {TXT([text])} == {TXT([text])};
  }

  /** A text record written into an empty world, without proofs. */
  lemma TextWritten(setup: Setup, ev: Event, zone: string, tag: RecordTag, site: Site, fqdn: string)
    requires !StoresProofs(setup.zones, zone)
    requires TypeNumber(tag.rtype) == TXT_TYPE && site.update.Applied? && EnsureFqdn(fqdn) == fqdn
    ensures Written(setup, EMPTY, ev, zone, tag, site, fqdn) ==
            World([SavedRow(ev, zone, tag, site.now)], map[RrKey(zone, fqdn, TXT_TYPE) := {TXT([tag.rdata])}])
  {
    TextIntoEmpty(setup.syn, zone, fqdn, tag.rdata);
    assert SaveEvent([], SavedRow(ev, zone, tag, site.now)) == [SavedRow(ev, zone, tag, site.now)];
  }

  lemma PutWhenGranted(
    setup: Setup, table: Table, w: World, ev: Event, zone: string, tag: RecordTag, site: Site, fqdn: string)
    requires !IsCv(zone) && !setup.registrarMode
    requires ResolveFqdn(site.delegated, ev.npub, tag.name, zone) == fqdn
    requires CheckAuthority(setup.codec, table, fqdn, zone, ev.pubkey).Ok?
    ensures PutRecord(setup, table, w, ev, zone, tag, site) == Written(setup, w, ev, zone, tag, site, fqdn)
  {
  }

  /** The world once the record is published: it went to the newer name. */
  function NoteWorld(npub: string, pubkey: string): World {
    World([SavedRow(Note(npub, pubkey), "z", Note(npub, pubkey).records[0], 2)],
          map[RrKey("z", InZone("b", "z"), TXT_TYPE) := {TXT(["hi"])}])
  }

  lemma NoteIsGranted(setup: Setup, npub: string, pubkey: string)
    requires PlainSetup(setup, npub, pubkey)
    ensures CheckAuthority(setup.codec, TwoLeases(npub, pubkey), InZone("b", "z"), "z", pubkey).Ok?
  {
    HolderIsGranted(setup.codec, TwoLeases(npub, pubkey), KEPT, Signed("e2", pubkey, npub, 1), 1, 100, pubkey);
  }

  lemma NoProofs()
    ensures !StoresProofs(STRANDING_ZONES, "z")
  {
    assert FindZone(STRANDING_ZONES, "z") == Some(STRANDING_ZONES[0]);
  }

  /** An event with one text record, for a name in one zone that keeps no proofs. */
  ghost predicate OneText(setup: Setup, turn: Turn, zone: string, prefix: string) {
    && turn.order == [zone] && |turn.ev.records| == 1 && turn.ev.deletes == []
    && WithinLimits(setup, [], turn.ev, turn.now) && TypeNumber(turn.ev.records[0].rtype) == TXT_TYPE
    && !IsCv(zone) && !setup.registrarMode && !StoresProofs(setup.zones, zone)
    && turn.puts(zone, 0).update.Applied?
    && ResolveFqdn(turn.puts(zone, 0).delegated, turn.ev.npub, turn.ev.records[0].name, zone) == InZone(prefix, zone)
  }

  lemma TextHandled(setup: Setup, turn: Turn, zone: string, prefix: string)
    requires OneText(setup, turn, zone, prefix)
    requires CheckAuthority(setup.codec, turn.table, InZone(prefix, zone), zone, turn.ev.pubkey).Ok?
    ensures var (tag, site) := (turn.ev.records[0], turn.puts(zone, 0));
            Handled(setup, EMPTY, turn) ==
            World([SavedRow(turn.ev, zone, tag, site.now)],
                  map[RrKey(zone, InZone(prefix, zone), TXT_TYPE) := {TXT([tag.rdata])}])
  {
    var (tag, site, w) := (turn.ev.records[0], turn.puts(zone, 0), EMPTY);
    OneTag(setup, w, turn, zone);
    PutWhenGranted(setup, turn.table, w, turn.ev, zone, tag, site, InZone(prefix, zone));
    NameEndsWithDot(prefix, zone);
    TextWritten(setup, turn.ev, zone, tag, site, InZone(prefix, zone));
  }

  lemma NoteIsOneText(setup: Setup, npub: string, pubkey: string)
    requires PlainSetup(setup, npub, pubkey)
    ensures OneText(setup, NoteTurn(npub, pubkey), "z", "b")
  {
    NoProofs();
  }

  lemma NoteIsWritten(setup: Setup, npub: string, pubkey: string)
    requires PlainSetup(setup, npub, pubkey)
    ensures Handled(setup, EMPTY, NoteTurn(npub, pubkey)) == NoteWorld(npub, pubkey)
  {
    NoteIsGranted(setup, npub, pubkey);
    NoteIsOneText(setup, npub, pubkey);
    TextHandled(setup, NoteTurn(npub, pubkey), "z", "b");
  }

  function StrandedTable(npub: string, pubkey: string): Table {
    TwoLeases(npub, pubkey)[LOST := LeaseRow("e1", npub, pubkey, 0, 10).(status := Expired)]
  }

  /** The first sweep takes a, and with it the live row of the record at b. */
  lemma FirstSweep(npub: string, pubkey: string)
    ensures PastDueInOrder(TwoLeases(npub, pubkey), 10, [LOST])
    ensures SweepTable(STRANDING_ZONES, TwoLeases(npub, pubkey), 10) == StrandedTable(npub, pubkey)
    ensures Lapses(STRANDING_ZONES, TwoLeases(npub, pubkey), LOST, 10)
  {
    assert FindZone(STRANDING_ZONES, "z") == Some(STRANDING_ZONES[0]);
    assert LOST in [LOST];
  }

  lemma SecondSweep(npub: string, pubkey: string)
    ensures PastDueInOrder(StrandedTable(npub, pubkey), 100, [KEPT])
    ensures Lapses(STRANDING_ZONES, StrandedTable(npub, pubkey), KEPT, 100)
  {
    assert FindZone(STRANDING_ZONES, "z") == Some(STRANDING_ZONES[0]);
    assert KEPT in [KEPT];
  }

  ghost predicate PlainSetup(setup: Setup, npub: string, pubkey: string) {
    && Authority.Lawful(setup.codec) && setup.codec.encode(pubkey) == Some(npub)
    && setup.zones == STRANDING_ZONES && !setup.registrarMode && setup.maxRecords > 0 && setup.rateLimit > 0
  }

  const EMPTY := World([], map[])

  ghost function StrandingStates(npub: string, pubkey: string): seq<State> {
    var (acts, noted) := (StrandingRun(npub, pubkey), NoteWorld(npub, pubkey));
    var (two, stranded) := (TwoLeases(npub, pubkey), StrandedTable(npub, pubkey));
    var swept := SweptWorld(STRANDING_ZONES, two, acts[3].pass, noted);
    [ State(map[], EMPTY),
      State(map[LOST := LeaseRow("e1", npub, pubkey, 0, 10)], EMPTY),
      State(two, EMPTY),
      State(two, noted),
      State(stranded, swept),
      State(SweepTable(STRANDING_ZONES, stranded, 100), SweptWorld(STRANDING_ZONES, stranded, acts[4].pass, swept)) ]
  }

  lemma ClaimsPass(setup: Setup, npub: string, pubkey: string)
    requires PlainSetup(setup, npub, pubkey)
    ensures var (states, acts) := (StrandingStates(npub, pubkey), StrandingRun(npub, pubkey));
            Passes(setup, states[0], acts[0], states[1]) && Passes(setup, states[1], acts[1], states[2])
  {
    assert FindZone(setup.zones, "z") == Some(STRANDING_ZONES[0]);
  }

  lemma NotePasses(setup: Setup, npub: string, pubkey: string)
    requires PlainSetup(setup, npub, pubkey)
    ensures var (states, acts) := (StrandingStates(npub, pubkey), StrandingRun(npub, pubkey));
            Passes(setup, states[2], acts[2], states[3])
  {
    NoteIsWritten(setup, npub, pubkey);
    assert forall zone | zone in ["z"] :: ZoneOk(zone);
  }

  lemma SweepsPass(setup: Setup, npub: string, pubkey: string)
    requires PlainSetup(setup, npub, pubkey)
    ensures var (states, acts) := (StrandingStates(npub, pubkey), StrandingRun(npub, pubkey));
            Passes(setup, states[3], acts[3], states[4]) && Passes(setup, states[4], acts[4], states[5])
  {
    FirstSweep(npub, pubkey);
    SecondSweep(npub, pubkey);
  }

  lemma FivePasses(setup: Setup, states: seq<State>, acts: seq<Act>)
    requires |states| == 6 && |acts| == 5
    requires Passes(setup, states[0], acts[0], states[1]) && Passes(setup, states[1], acts[1], states[2])
    requires Passes(setup, states[2], acts[2], states[3])
    requires Passes(setup, states[3], acts[3], states[4]) && Passes(setup, states[4], acts[4], states[5])
    ensures Run(setup, states, acts)
  {
    forall n: nat | n < 5 ensures PassesAt(setup, states, acts, n) {
      assert n == 0 || n == 1 || n == 2 || n == 3 || n == 4;
    }
  }

  lemma NoteSurvives(npub: string, pubkey: string)
    ensures RRset(StrandingStates(npub, pubkey)[5].world.data, RrKey("z", InZone("b", "z"), TXT_TYPE)) == {TXT(["hi"])}
  {
    var (acts, noted) := (StrandingRun(npub, pubkey), NoteWorld(npub, pubkey));
    var k := RrKey("z", InZone("b", "z"), TXT_TYPE);
    FirstSweep(npub, pubkey);
    SecondSweep(npub, pubkey);
    SweepSpares(STRANDING_ZONES, TwoLeases(npub, pubkey), acts[3].pass, noted, KEPT, TXT_TYPE);
    assert k.name == InZone(Under("@", KEPT.domain), KEPT.zone);
    EarlierLossStrands(STRANDING_ZONES, TwoLeases(npub, pubkey), acts[3].pass, noted, LOST,
                       StrandedTable(npub, pubkey), acts[4].pass, KEPT, k);
  }

  /** From empty tables: the last sweep expires b, b is the only name its holder loses then, every message gets
      through, and the record at b is still there. */
  lemma LapsedNameKeepsItsRecords(setup: Setup, npub: string, pubkey: string)
    requires PlainSetup(setup, npub, pubkey)
    ensures var (states, acts) := (StrandingStates(npub, pubkey), StrandingRun(npub, pubkey));
            && Run(setup, states, acts) && states[0] == State(map[], EMPTY)
            && FirstDelegation(states[2].table, npub, "z", 2, Some("b"))
            && IsFirst(setup.zones, states[4].table, acts[4].pass, 0)
            && KEPT in states[5].table && states[5].table[KEPT].status.Expired?
            && RRset(states[5].world.data, RrKey("z", InZone("b", "z"), TXT_TYPE)) == {TXT(["hi"])}
  {
    ClaimsPass(setup, npub, pubkey);
    NotePasses(setup, npub, pubkey);
    SweepsPass(setup, npub, pubkey);
    FivePasses(setup, StrandingStates(npub, pubkey), StrandingRun(npub, pubkey));
    SecondSweep(npub, pubkey);
    NoteSurvives(npub, pubkey);
  }
}
