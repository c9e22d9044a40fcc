/** The DNS shows exactly what the events table says, for a signer who writes under its own npub. */
module Agreement {
  import opened Text
  import opened Delegations
  import opened Authority
  import opened Leases
  import opened Rdata
  import opened ZoneData
  import opened EventLog
  import opened Records
  import opened NonInterference
  import opened LeaseExpiry
  import opened Registry

  // -------------------------------------------------------------------------
  // Names and types
  // -------------------------------------------------------------------------

  /** A record name of a signer in a zone. */
  datatype Place = Place(npub: string, name: string, zone: string)

  function OwnName(p: Place): string {
    InZone(Under(p.name, p.npub), p.zone)
  }

  function OwnKey(p: Place, rt: nat): RrKey {
    RrKey(p.zone, OwnName(p), rt)
  }

  /** Another spelling of the place: "@" and the empty name are the same place. */
  predicate Respelled(p: Place, name: string) {
    name != p.name && IsApex(name) && IsApex(p.name)
  }

  lemma UnderIsInjective(p: Place, name: string)
    requires Under(name, p.npub) == Under(p.name, p.npub)
    ensures name == p.name || Respelled(p, name)
  {
    if !IsApex(name) && !IsApex(p.name) {
      assert |name| == |p.name|;
      assert name == Under(name, p.npub)[..|name|] && p.name == Under(p.name, p.npub)[..|name|];
    }
  }

  /** A name under which proofs of other records are kept. */
  predicate ProofLike(name: string) {
    name == "_nodns" || StartsWith(name, "_nodns.")
  }

  lemma ProofPrefix(p: Place, prefix: string)
    requires IsNpubName(p.npub) && Under(p.name, p.npub) == "_nodns" + "." + prefix
    ensures ProofLike(p.name)
  {
    var full := Under(p.name, p.npub);
    assert full[0] == '_' && p.npub[0] == "npub1"[0] == 'n';
    assert full[..7] == "_nodns." && full[|p.name|] == '.' && full[..|p.name|] == p.name;
    assert forall i | 0 <= i < 6 :: full[i] == "_nodns"[i] != '.';
  }

  lemma ProofsMissPlace(p: Place, prefix: string)
    requires IsNpubName(p.npub) && !ProofLike(p.name)
    ensures OwnName(p) != ProofName(InZone(prefix, p.zone))
  {
    ProofIsDeeper(prefix, p.zone);
    if OwnName(p) == InZone("_nodns" + "." + prefix, p.zone) {
      InZoneIsInjective(Under(p.name, p.npub), "_nodns" + "." + prefix, p.zone);
      ProofPrefix(p, prefix);
      assert false;
    }
  }

  /** The type name of a number, empty for numbers without one. */
  function TypeName(rt: nat): string {
    if rt == 1 then "A"
    else if rt == 2 then "NS"
    else if rt == 5 then "CNAME"
    else if rt == 12 then "PTR"
    else if rt == 15 then "MX"
    else if rt == 16 then "TXT"
    else if rt == 28 then "AAAA"
    else if rt == 33 then "SRV"
    else ""
  }

  lemma NameOfNumber(rtype: string)
    ensures TypeName(TypeNumber(rtype)) == if TypeNumber(rtype) == 0 then "" else rtype
  {
  }

  lemma NumberOfName(rt: nat)
    ensures TypeName(rt) != "" ==> TypeNumber(TypeName(rt)) == rt
  {
  }

  lemma NoDataWithoutType(syn: Syntax, rdata: string)
    ensures ParseRdata(syn, 0, rdata).None?
    ensures TypeNumber("") == 0 && TypeNumber("CNAME") == CNAME_TYPE
  {
  }

  lemma TypesOfParsed(syn: Syntax, rtype: string, rt: nat, rdata: string)
    requires ParseRdata(syn, TypeNumber(rtype), rdata).Some?
    ensures TypeName(rt) == rtype <==> rt == TypeNumber(rtype)
    ensures TypeNumber(rtype) == CNAME_TYPE <==> rtype == "CNAME"
  {
    NoDataWithoutType(syn, rdata);
    NameOfNumber(rtype);
    NumberOfName(rt);
    NameOfNumber("CNAME");
  }

  lemma TypeNameOfNumber(rtype: string, rt: nat)
    ensures TypeName(TypeNumber(rtype)) == rtype || TypeName(TypeNumber(rtype)) == ""
    ensures rt != TypeNumber(rtype) && TypeName(rt) == rtype ==> rtype == ""
    ensures TypeName(rt) == "CNAME" <==> rt == CNAME_TYPE
  {
    NameOfNumber(rtype);
    NumberOfName(rt);
    NumberOfName(CNAME_TYPE);
  }

  // -------------------------------------------------------------------------
  // Agreement
  // -------------------------------------------------------------------------

  /** The latest live row of a type at a place. */
  function LatestAt(rows: Rows, p: Place, rtype: string): Option<EventRow> {
    Latest(rows, p.npub, rtype, p.name, p.zone)
  }

  /** The RRset the latest live row calls for. */
  ghost function Wanted(syn: Syntax, rows: Rows, p: Place, rt: nat): set<RData> {
    match LatestAt(rows, p, TypeName(rt))
    case None => {}
    case Some(r) => var v := ParseRdata(syn, rt, r.rdata); if v.Some? then {v.value} else {}
  }

  ghost predicate LiveRowsParse(syn: Syntax, rows: Rows, p: Place) {
    forall rtype :: LatestAt(rows, p, rtype).Some? ==>
      ParseRdata(syn, TypeNumber(rtype), LatestAt(rows, p, rtype).value.rdata).Some?
  }

  ghost predicate Mirrors(syn: Syntax, w: World, p: Place) {
    forall rt: nat :: RRset(w.data, OwnKey(p, rt)) == Wanted(syn, w.rows, p, rt)
  }

  /** Store and DNS agree at a place. */
  ghost predicate Agrees(syn: Syntax, w: World, p: Place) {
    LiveRowsParse(syn, w.rows, p) && Mirrors(syn, w, p)
  }

  lemma UntypedIsDead(syn: Syntax, rows: Rows, p: Place)
    requires LiveRowsParse(syn, rows, p)
    ensures LatestAt(rows, p, "").None?
  {
    if LatestAt(rows, p, "").Some? {
      NoDataWithoutType(syn, LatestAt(rows, p, "").value.rdata);
      assert false;
    }
  }

  lemma AgreesByLatest(syn: Syntax, w: World, p: Place, rtype: string)
    requires Agrees(syn, w, p)
    ensures var shown := RRset(w.data, OwnKey(p, TypeNumber(rtype)));
            match LatestAt(w.rows, p, rtype)
            case None => shown == {}
            case Some(r) => ParseRdata(syn, TypeNumber(rtype), r.rdata).Some?
                            && shown == {ParseRdata(syn, TypeNumber(rtype), r.rdata).value}
  {
    var rt := TypeNumber(rtype);
    assert RRset(w.data, OwnKey(p, rt)) == Wanted(syn, w.rows, p, rt);
    if LatestAt(w.rows, p, rtype).Some? {
      TypesOfParsed(syn, rtype, rt, LatestAt(w.rows, p, rtype).value.rdata);
    } else {
      TypeNameOfNumber(rtype, rt);
      UntypedIsDead(syn, w.rows, p);
    }
  }

  /** The RRset of a record is empty exactly when none of its rows lives, and is the data of the last live row
      otherwise. */
  ghost predicate ShowsLastRow(syn: Syntax, w: World, p: Place, rtype: string) {
    var shown := RRset(w.data, OwnKey(p, TypeNumber(rtype)));
    && (shown == {} <==> forall i | 0 <= i < |w.rows| :: !IsLive(w.rows[i], p.npub, rtype, p.name, p.zone))
    && forall i: nat | IsLastLive(w.rows, i, p.npub, rtype, p.name, p.zone) ::
         var v := ParseRdata(syn, TypeNumber(rtype), w.rows[i].rdata);
         v.Some? && shown == {v.value}
  }

  lemma AgreementMeans(syn: Syntax, w: World, p: Place, rtype: string)
    requires Agrees(syn, w, p)
    ensures ShowsLastRow(syn, w, p, rtype)
  {
    AgreesByLatest(syn, w, p, rtype);
    LatestMissing(w.rows, p.npub, rtype, p.name, p.zone);
    forall i: nat | IsLastLive(w.rows, i, p.npub, rtype, p.name, p.zone)
      ensures LatestAt(w.rows, p, rtype) == Some(w.rows[i])
    {
      LatestIsLast(w.rows, i, p.npub, rtype, p.name, p.zone);
    }
  }

  lemma AgreesByLookups(syn: Syntax, w: World, w': World, p: Place)
    requires forall rtype :: LatestAt(w'.rows, p, rtype) == LatestAt(w.rows, p, rtype)
    requires forall rt: nat :: RRset(w'.data, OwnKey(p, rt)) == RRset(w.data, OwnKey(p, rt))
    ensures Agrees(syn, w', p) <==> Agrees(syn, w, p)
  {
    assert forall rt: nat :: Wanted(syn, w'.rows, p, rt) == Wanted(syn, w.rows, p, rt);
  }

  // -------------------------------------------------------------------------
  // CNAMEs
  // -------------------------------------------------------------------------

  /** A live row of the signer at this place that cannot share it with the given type. */
  ghost predicate Conflict(rows: Rows, p: Place, rtype: string) {
    exists t :: LatestAt(rows, p, t).Some? && (t == "CNAME") != (rtype == "CNAME")
  }

  /** Under agreement, the server ignores an addition exactly when the store holds a conflicting row. */
  lemma BlockedIffConflict(syn: Syntax, w: World, p: Place, rtype: string, rdata: string)
    requires Agrees(syn, w, p) && ParseRdata(syn, TypeNumber(rtype), rdata).Some?
    ensures Blocked(w.data, OwnKey(p, TypeNumber(rtype))) <==> Conflict(w.rows, p, rtype)
  {
    TypesOfParsed(syn, rtype, CNAME_TYPE, rdata);
    if rtype != "CNAME" {
      AgreesByLatest(syn, w, p, "CNAME");
      assert OwnKey(p, TypeNumber(rtype)).(rtype := CNAME_TYPE) == OwnKey(p, CNAME_TYPE);
    } else {
      OtherDataIffOtherRows(syn, w, p);
    }
  }

  lemma OtherDataIffOtherRows(syn: Syntax, w: World, p: Place)
    requires Agrees(syn, w, p)
    ensures HasOtherThanCname(w.data, p.zone, OwnName(p)) <==> Conflict(w.rows, p, "CNAME")
  {
    if HasOtherThanCname(w.data, p.zone, OwnName(p)) {
      var key :| key in w.data && key.zone == p.zone && key.name == OwnName(p)
                 && key.rtype != CNAME_TYPE && w.data[key] != {};
      assert key == OwnKey(p, key.rtype);
      assert RRset(w.data, key) == Wanted(syn, w.rows, p, key.rtype);
      TypeNameOfNumber("CNAME", key.rtype);
      assert LatestAt(w.rows, p, TypeName(key.rtype)).Some?;
    }
    if Conflict(w.rows, p, "CNAME") {
      var t :| LatestAt(w.rows, p, t).Some? && t != "CNAME";
      AgreesByLatest(syn, w, p, t);
      TypesOfParsed(syn, t, CNAME_TYPE, LatestAt(w.rows, p, t).value.rdata);
      var key := OwnKey(p, TypeNumber(t));
      assert RRset(w.data, key) != {} && key.rtype != CNAME_TYPE;
      assert key in w.data && key.zone == p.zone && key.name == OwnName(p);
    }
  }

  // -------------------------------------------------------------------------
  // The signer's own tags
  // -------------------------------------------------------------------------

  /** Each event id belongs to one signer, being a hash of what the signer signed. */
  ghost predicate IdsBelong(rows: Rows, signerOf: string -> string) {
    forall r | r in rows :: signerOf(r.eventId) == r.npub
  }

  /** A tag whose update is applied: what it leaves in store and zone. */
  lemma OwnPutLatest(
    setup: Setup, w: World, ev: Event, zone: string, tag: RecordTag, now: int, signerOf: string -> string,
    rtype: string, name: string)
    requires IdsBelong(w.rows, signerOf) && signerOf(ev.id) == ev.npub
    ensures var rows := SaveEvent(w.rows, SavedRow(ev, zone, tag, now));
            && IdsBelong(rows, signerOf)
            && Latest(rows, ev.npub, rtype, name, zone) ==
               if rtype == tag.rtype && name == tag.name then Some(SavedRow(ev, zone, tag, now))
               else Latest(w.rows, ev.npub, rtype, name, zone)
  {
    var row := SavedRow(ev, zone, tag, now);
    LatestAfterSave(w.rows, row, ev.npub, rtype, name, zone);
    forall r | r in SaveEvent(w.rows, row) ensures signerOf(r.eventId) == r.npub {
      RowsOfSave(w.rows, row, r);
    }
  }

  function PlaceOf(ev: Event, zone: string, name: string): Place {
    Place(ev.npub, name, zone)
  }

  /** Store and zone after an applied update of the signer's own name. */
  function OwnPut(w: World, ev: Event, zone: string, tag: RecordTag, v: RData, now: int): World {
    World(SaveEvent(w.rows, SavedRow(ev, zone, tag, now)),
          Replace(w.data, OwnKey(PlaceOf(ev, zone, tag.name), TypeNumber(tag.rtype)), v))
  }

  /** The agreement of store and DNS survives an applied update exactly when no live row of the signer at
      that name is a CNAME beside other data. */
  lemma OwnPutAgreesIff(
    setup: Setup, w: World, ev: Event, zone: string, tag: RecordTag, v: RData, now: int, signerOf: string -> string)
    requires IdsBelong(w.rows, signerOf) && signerOf(ev.id) == ev.npub
    requires Agrees(setup.syn, w, PlaceOf(ev, zone, tag.name))
    requires ParseRdata(setup.syn, TypeNumber(tag.rtype), tag.rdata) == Some(v)
    ensures Agrees(setup.syn, OwnPut(w, ev, zone, tag, v, now), PlaceOf(ev, zone, tag.name)) <==>
            !Conflict(w.rows, PlaceOf(ev, zone, tag.name), tag.rtype)
  {
    var (rt, p) := (TypeNumber(tag.rtype), PlaceOf(ev, zone, tag.name));
    var next := OwnPut(w, ev, zone, tag, v, now);
    BlockedIffConflict(setup.syn, w, p, tag.rtype, tag.rdata);
    ReplaceAt(w.data, OwnKey(p, rt), v, OwnKey(p, rt));
    TypesOfParsed(setup.syn, tag.rtype, rt, tag.rdata);
    OwnPutLatest(setup, w, ev, zone, tag, now, signerOf, tag.rtype, tag.name);
    assert Wanted(setup.syn, next.rows, p, rt) == {v};
    if Conflict(w.rows, p, tag.rtype) {
      assert RRset(next.data, OwnKey(p, rt)) != Wanted(setup.syn, next.rows, p, rt);
    } else {
      OwnPutAgrees(setup, w, ev, zone, tag, v, now, signerOf);
    }
  }

  lemma OwnPutAgrees(
    setup: Setup, w: World, ev: Event, zone: string, tag: RecordTag, v: RData, now: int, signerOf: string -> string)
    requires IdsBelong(w.rows, signerOf) && signerOf(ev.id) == ev.npub
    requires Agrees(setup.syn, w, PlaceOf(ev, zone, tag.name))
    requires ParseRdata(setup.syn, TypeNumber(tag.rtype), tag.rdata) == Some(v)
    requires !Blocked(w.data, OwnKey(PlaceOf(ev, zone, tag.name), TypeNumber(tag.rtype)))
    ensures Agrees(setup.syn, OwnPut(w, ev, zone, tag, v, now), PlaceOf(ev, zone, tag.name))
  {
    var p := PlaceOf(ev, zone, tag.name);
    var next := OwnPut(w, ev, zone, tag, v, now);
    forall rtype | LatestAt(next.rows, p, rtype).Some?
      ensures ParseRdata(setup.syn, TypeNumber(rtype), LatestAt(next.rows, p, rtype).value.rdata).Some?
    {
      OwnPutLatest(setup, w, ev, zone, tag, now, signerOf, rtype, tag.name);
    }
    forall rt: nat ensures RRset(next.data, OwnKey(p, rt)) == Wanted(setup.syn, next.rows, p, rt) {
      ReplaceAt(w.data, OwnKey(p, TypeNumber(tag.rtype)), v, OwnKey(p, rt));
      TypesOfParsed(setup.syn, tag.rtype, rt, tag.rdata);
      OwnPutLatest(setup, w, ev, zone, tag, now, signerOf, TypeName(rt), tag.name);
      assert RRset(w.data, OwnKey(p, rt)) == Wanted(setup.syn, w.rows, p, rt);
    }
  }

  function OwnDrop(w: World, ev: Event, zone: string, tag: DeleteTag): World {
    World(DeleteRecordsByKey(w.rows, ev.npub, tag.rtype, tag.name, zone),
          DeleteRRset(w.data, OwnKey(PlaceOf(ev, zone, tag.name), TypeNumber(tag.rtype))))
  }

  lemma OwnDropAgrees(syn: Syntax, w: World, ev: Event, zone: string, tag: DeleteTag)
    requires Agrees(syn, w, PlaceOf(ev, zone, tag.name))
    ensures Agrees(syn, OwnDrop(w, ev, zone, tag), PlaceOf(ev, zone, tag.name))
  {
    var p := PlaceOf(ev, zone, tag.name);
    var next := OwnDrop(w, ev, zone, tag);
    forall rtype | LatestAt(next.rows, p, rtype).Some?
      ensures ParseRdata(syn, TypeNumber(rtype), LatestAt(next.rows, p, rtype).value.rdata).Some?
    {
      LatestAfterDelete(w.rows, ev.npub, tag.rtype, tag.name, zone, ev.npub, rtype, tag.name, zone);
    }
    forall rt: nat ensures RRset(next.data, OwnKey(p, rt)) == Wanted(syn, next.rows, p, rt) {
      LatestAfterDelete(w.rows, ev.npub, tag.rtype, tag.name, zone, ev.npub, TypeName(rt), tag.name, zone);
      assert RRset(w.data, OwnKey(p, rt)) == Wanted(syn, w.rows, p, rt);
      TypeNameOfNumber(tag.rtype, rt);
      UntypedIsDead(syn, w.rows, p);
    }
  }

  /** An update that is applied with its acknowledgement lost leaves the store behind. The agreement survives exactly
      when the update changes nothing: it repeats the latest live row's data, or is ignored where there is no live
      row. */
  lemma LostPutAgreesIff(syn: Syntax, w: World, p: Place, rtype: string, rdata: string, v: RData)
    requires Agrees(syn, w, p) && ParseRdata(syn, TypeNumber(rtype), rdata) == Some(v)
    ensures Agrees(syn, World(w.rows, Replace(w.data, OwnKey(p, TypeNumber(rtype)), v)), p) <==>
            var latest := LatestAt(w.rows, p, rtype);
            if Conflict(w.rows, p, rtype) then latest.None?
            else latest.Some? && ParseRdata(syn, TypeNumber(rtype), latest.value.rdata) == Some(v)
  {
    var key := OwnKey(p, TypeNumber(rtype));
    var next := World(w.rows, Replace(w.data, key, v));
    BlockedIffConflict(syn, w, p, rtype, rdata);
    AgreesByLatest(syn, w, p, rtype);
    ReplaceAt(w.data, key, v, key);
    if RRset(next.data, key) == RRset(w.data, key) {
      forall rt: nat ensures RRset(next.data, OwnKey(p, rt)) == RRset(w.data, OwnKey(p, rt)) {
        ReplaceAt(w.data, key, v, OwnKey(p, rt));
      }
      AgreesByLookups(syn, w, next, p);
    } else if Agrees(syn, next, p) {
      AgreesByLatest(syn, next, p, rtype);
      assert false;
    }
  }

  /** Likewise for a deletion: exactly when there was no live row. */
  lemma LostDropAgreesIff(syn: Syntax, w: World, p: Place, rtype: string)
    requires Agrees(syn, w, p)
    ensures Agrees(syn, World(w.rows, DeleteRRset(w.data, OwnKey(p, TypeNumber(rtype)))), p) <==>
            LatestAt(w.rows, p, rtype).None?
  {
    var key := OwnKey(p, TypeNumber(rtype));
    var next := World(w.rows, DeleteRRset(w.data, key));
    AgreesByLatest(syn, w, p, rtype);
    if LatestAt(w.rows, p, rtype).None? {
      AgreesByLookups(syn, w, next, p);
    } else if Agrees(syn, next, p) {
      AgreesByLatest(syn, next, p, rtype);
      assert false;
    }
  }

  // -------------------------------------------------------------------------
  // Whole runs, all signers
  // -------------------------------------------------------------------------

  /** The place is either for a CNAME or for other data. */
  ghost predicate Segregated(rows: Rows, p: Place, cname: bool) {
    forall rtype :: LatestAt(rows, p, rtype).Some? ==> ((rtype == "CNAME") == cname)
  }

  ghost predicate Settled(setup: Setup, w: World, p: Place, signerOf: string -> string, cname: bool) {
    IdsBelong(w.rows, signerOf) && Agrees(setup.syn, w, p) && Segregated(w.rows, p, cname)
  }

  /** The bot's answers for a tag of the signer: the store finds its delegations; and at the place itself
      every update that is applied is also acknowledged. */
  ghost predicate FairSite(table: Table, p: Place, name: string, site: Site) {
    && FirstDelegation(table, p.npub, p.zone, site.now, site.delegated)
    && (name == p.name ==> !site.update.Unacknowledged?)
  }

  /** An event of any signer. For the signer of the place, one that spells the place in one way, and that
      asks there for CNAMEs only or for none. */
  ghost predicate Orderly(setup: Setup, turn: Turn, p: Place, signerOf: string -> string, cname: bool) {
    var ev := turn.ev;
    && setup.codec.encode(ev.pubkey) == Some(ev.npub) && signerOf(ev.id) == ev.npub
    && (ev.npub == p.npub ==>
          && (forall i: nat | i < |ev.records| ::
                && !Respelled(p, ev.records[i].name)
                && (ev.records[i].name == p.name ==> (ev.records[i].rtype == "CNAME") == cname)
                && FairSite(turn.table, p, ev.records[i].name, turn.puts(p.zone, i)))
          && (forall i: nat | i < |ev.deletes| ::
                && !Respelled(p, ev.deletes[i].name)
                && FairSite(turn.table, p, ev.deletes[i].name, turn.drops(p.zone, i))))
  }

  /** Claims, renewals and sweeps as they come, except that the signer never claims a name in the zone. */
  ghost predicate OrderlyAct(setup: Setup, act: Act, p: Place, signerOf: string -> string, cname: bool) {
    match act
    case Move(step) => step.Claim? && step.claim.zone == p.zone ==> step.event.npub != p.npub
    case Expire(_) => true
    case Publish(turn) => Orderly(setup, turn, p, signerOf, cname)
  }

  ghost predicate NeverDelegated(table: Table, p: Place) {
    forall key | key in table && key.zone == p.zone :: table[key].npub != p.npub
  }

  /** Lawful encoding, a proper zone, and a name the zone does not keep proofs under. */
  ghost predicate Grounds(setup: Setup, p: Place) {
    && Authority.Lawful(setup.codec) && IsNpubName(p.npub) && '.' !in p.npub && ZoneOk(p.zone)
    && (StoresProofs(setup.zones, p.zone) ==> !ProofLike(p.name))
  }

  lemma UndelegatedResolves(table: Table, p: Place, name: string, site: Site)
    requires NeverDelegated(table, p) && FairSite(table, p, name, site)
    ensures site.delegated.None?
  {
  }

  lemma SettledByLookups(setup: Setup, w: World, w': World, p: Place, signerOf: string -> string, cname: bool)
    requires Settled(setup, w, p, signerOf, cname) && IdsBelong(w'.rows, signerOf)
    requires forall rtype :: LatestAt(w'.rows, p, rtype) == LatestAt(w.rows, p, rtype)
    requires forall rt: nat :: RRset(w'.data, OwnKey(p, rt)) == RRset(w.data, OwnKey(p, rt))
    ensures Settled(setup, w', p, signerOf, cname)
  {
    AgreesByLookups(setup.syn, w, w', p);
  }

  /** A tag that concerns the place: the signer's, in its zone, by its name. */
  predicate Concerns(p: Place, ev: Event, zone: string, name: string) {
    ev.npub == p.npub && zone == p.zone && name == p.name
  }

  /** What a tag writes, at its resolved name or that name's proof, is never a place it does not concern. */
  lemma MissesPlace(setup: Setup, table: Table, ev: Event, zone: string, name: string, site: Site, p: Place, rt: nat)
    requires Grounds(setup, p) && setup.codec.encode(ev.pubkey) == Some(ev.npub)
    requires !Concerns(p, ev, zone, name) && (ev.npub == p.npub ==> !Respelled(p, name))
    requires ev.npub == p.npub && zone == p.zone ==> site.delegated.None?
    ensures !Reaches(setup, table, ev, zone, name, site, OwnKey(p, rt))
  {
    var prefix := PrefixOf(site, ev.npub, name);
    if Reaches(setup, table, ev, zone, name, site, OwnKey(p, rt)) {
      if OwnName(p) == InZone(prefix, zone) {
        InZoneIsInjective(Under(p.name, p.npub), prefix, zone);
        if ev.npub == p.npub {
          UnderIsInjective(p, name);
        } else {
          AuthorityIsOwnership(setup.codec, table, InZone(prefix, zone), zone, ev.pubkey);
          OwnerInZone(table, prefix, zone);
          OwnerUnderNpub(table, p.name, p.npub, zone);
        }
      } else {
        ProofsMissPlace(p, prefix);
      }
      assert false;
    }
  }

  lemma PutRows(setup: Setup, table: Table, w: World, ev: Event, zone: string, tag: RecordTag, site: Site)
    ensures var rows := PutRecord(setup, table, w, ev, zone, tag, site).rows;
            rows == w.rows || rows == SaveEvent(w.rows, SavedRow(ev, zone, tag, site.now))
  {
  }

  lemma DropRows(setup: Setup, table: Table, w: World, ev: Event, zone: string, tag: DeleteTag, site: Site)
    ensures var rows := DropRecord(setup, table, w, ev, zone, tag, site).rows;
            rows == w.rows || rows == DeleteRecordsByKey(w.rows, ev.npub, tag.rtype, tag.name, zone)
  {
  }

  lemma DeleteKeepsIds(
    rows: Rows, npub: string, rtype: string, name: string, zone: string, signerOf: string -> string)
    requires IdsBelong(rows, signerOf)
    ensures IdsBelong(DeleteRecordsByKey(rows, npub, rtype, name, zone), signerOf)
  {
    var next := DeleteRecordsByKey(rows, npub, rtype, name, zone);
    forall r | r in next ensures signerOf(r.eventId) == r.npub {
      var i :| 0 <= i < |next| && next[i] == r;
      assert rows[i] in rows;
    }
  }

  lemma OtherPutKeepsRows(
    setup: Setup, table: Table, w: World, ev: Event, zone: string, tag: RecordTag, site: Site, p: Place,
    signerOf: string -> string, rtype: string)
    requires IdsBelong(w.rows, signerOf) && signerOf(ev.id) == ev.npub && !Concerns(p, ev, zone, tag.name)
    ensures var rows := PutRecord(setup, table, w, ev, zone, tag, site).rows;
            IdsBelong(rows, signerOf) && LatestAt(rows, p, rtype) == LatestAt(w.rows, p, rtype)
  {
    var rows := PutRecord(setup, table, w, ev, zone, tag, site).rows;
    var row := SavedRow(ev, zone, tag, site.now);
    PutRows(setup, table, w, ev, zone, tag, site);
    forall r | r in rows ensures signerOf(r.eventId) == r.npub {
      if rows == SaveEvent(w.rows, row) {
        RowsOfSave(w.rows, row, r);
      }
    }
    LatestAfterSave(w.rows, row, p.npub, rtype, p.name, p.zone);
  }

  lemma OtherPutKeepsRRsets(
    setup: Setup, table: Table, w: World, ev: Event, zone: string, tag: RecordTag, site: Site, p: Place, rt: nat)
    requires Grounds(setup, p) && setup.codec.encode(ev.pubkey) == Some(ev.npub)
    requires !Concerns(p, ev, zone, tag.name) && (ev.npub == p.npub ==> !Respelled(p, tag.name))
    requires ev.npub == p.npub && zone == p.zone ==> site.delegated.None?
    ensures RRset(PutRecord(setup, table, w, ev, zone, tag, site).data, OwnKey(p, rt)) == RRset(w.data, OwnKey(p, rt))
  {
    MissesPlace(setup, table, ev, zone, tag.name, site, p, rt);
    PutWrites(setup, table, w, ev, zone, tag, site, OwnKey(p, rt));
  }

  lemma OtherPutSettled(
    setup: Setup, table: Table, w: World, ev: Event, zone: string, tag: RecordTag, site: Site, p: Place,
    signerOf: string -> string, cname: bool)
    requires Grounds(setup, p) && Settled(setup, w, p, signerOf, cname)
    requires setup.codec.encode(ev.pubkey) == Some(ev.npub) && signerOf(ev.id) == ev.npub
    requires !Concerns(p, ev, zone, tag.name) && (ev.npub == p.npub ==> !Respelled(p, tag.name))
    requires ev.npub == p.npub && zone == p.zone ==> site.delegated.None?
    ensures Settled(setup, PutRecord(setup, table, w, ev, zone, tag, site), p, signerOf, cname)
  {
    var w' := PutRecord(setup, table, w, ev, zone, tag, site);
    OtherPutKeepsRows(setup, table, w, ev, zone, tag, site, p, signerOf, "");
    forall rtype ensures LatestAt(w'.rows, p, rtype) == LatestAt(w.rows, p, rtype) {
      OtherPutKeepsRows(setup, table, w, ev, zone, tag, site, p, signerOf, rtype);
    }
    forall rt: nat ensures RRset(w'.data, OwnKey(p, rt)) == RRset(w.data, OwnKey(p, rt)) {
      OtherPutKeepsRRsets(setup, table, w, ev, zone, tag, site, p, rt);
    }
    SettledByLookups(setup, w, w', p, signerOf, cname);
  }

  lemma OtherDropKeepsRRsets(
    setup: Setup, table: Table, w: World, ev: Event, zone: string, tag: DeleteTag, site: Site, p: Place, rt: nat)
    requires Grounds(setup, p) && setup.codec.encode(ev.pubkey) == Some(ev.npub)
    requires !Concerns(p, ev, zone, tag.name) && (ev.npub == p.npub ==> !Respelled(p, tag.name))
    requires ev.npub == p.npub && zone == p.zone ==> site.delegated.None?
    ensures RRset(DropRecord(setup, table, w, ev, zone, tag, site).data, OwnKey(p, rt)) == RRset(w.data, OwnKey(p, rt))
  {
    MissesPlace(setup, table, ev, zone, tag.name, site, p, rt);
    DropWrites(setup, table, w, ev, zone, tag, site, OwnKey(p, rt));
  }

  lemma OtherDropSettled(
    setup: Setup, table: Table, w: World, ev: Event, zone: string, tag: DeleteTag, site: Site, p: Place,
    signerOf: string -> string, cname: bool)
    requires Grounds(setup, p) && Settled(setup, w, p, signerOf, cname)
    requires setup.codec.encode(ev.pubkey) == Some(ev.npub)
    requires !Concerns(p, ev, zone, tag.name) && (ev.npub == p.npub ==> !Respelled(p, tag.name))
    requires ev.npub == p.npub && zone == p.zone ==> site.delegated.None?
    ensures Settled(setup, DropRecord(setup, table, w, ev, zone, tag, site), p, signerOf, cname)
  {
    var w' := DropRecord(setup, table, w, ev, zone, tag, site);
    DropRows(setup, table, w, ev, zone, tag, site);
    DeleteKeepsIds(w.rows, ev.npub, tag.rtype, tag.name, zone, signerOf);
    forall rtype ensures LatestAt(w'.rows, p, rtype) == LatestAt(w.rows, p, rtype) {
      LatestAfterDelete(w.rows, ev.npub, tag.rtype, tag.name, zone, p.npub, rtype, p.name, p.zone);
    }
    forall rt: nat ensures RRset(w'.data, OwnKey(p, rt)) == RRset(w.data, OwnKey(p, rt)) {
      OtherDropKeepsRRsets(setup, table, w, ev, zone, tag, site, p, rt);
    }
    SettledByLookups(setup, w, w', p, signerOf, cname);
  }

  lemma ProofIsElsewhere(fqdn: string)
    ensures ProofName(fqdn) != fqdn
  {
    assert |ProofName(fqdn)| == |fqdn| + 7;
  }

  /** A tag of the signer at the place either changes nothing or updates store and DNS together; its proof goes
      elsewhere. */
  lemma OwnPutShape(
    setup: Setup, table: Table, w: World, ev: Event, zone: string, tag: RecordTag, site: Site, rt: nat)
    requires site.delegated.None? && !site.update.Unacknowledged?
    ensures var parsed := ParseRdata(setup.syn, TypeNumber(tag.rtype), tag.rdata);
            var (w', k) := (PutRecord(setup, table, w, ev, zone, tag, site), OwnKey(PlaceOf(ev, zone, tag.name), rt));
            || w' == w
            || (&& parsed.Some?
                && w'.rows == OwnPut(w, ev, zone, tag, parsed.value, site.now).rows
                && RRset(w'.data, k) == RRset(OwnPut(w, ev, zone, tag, parsed.value, site.now).data, k))
  {
    var fqdn := OwnName(PlaceOf(ev, zone, tag.name));
    NameEndsWithDot(Under(tag.name, ev.npub), zone);
    ProofIsElsewhere(fqdn);
    var data := UpdateRecord(setup.syn, w.data, zone, fqdn, TypeNumber(tag.rtype), tag.rdata, site.update).0;
    ReplaceAt(data, RrKey(zone, ProofName(fqdn), TXT_TYPE), TXT(ProofStrings(setup, ev, tag)),
              OwnKey(PlaceOf(ev, zone, tag.name), rt));
  }

  lemma OwnPutSettled(
    setup: Setup, table: Table, w: World, ev: Event, zone: string, tag: RecordTag, site: Site,
    signerOf: string -> string, cname: bool)
    requires Settled(setup, w, PlaceOf(ev, zone, tag.name), signerOf, cname)
    requires signerOf(ev.id) == ev.npub && (tag.rtype == "CNAME") == cname
    requires site.delegated.None? && !site.update.Unacknowledged?
    ensures Settled(setup, PutRecord(setup, table, w, ev, zone, tag, site), PlaceOf(ev, zone, tag.name), signerOf,
                    cname)
  {
    var (w', p) := (PutRecord(setup, table, w, ev, zone, tag, site), PlaceOf(ev, zone, tag.name));
    OwnPutShape(setup, table, w, ev, zone, tag, site, 0);
    if w' != w {
      var v := ParseRdata(setup.syn, TypeNumber(tag.rtype), tag.rdata).value;
      var next := OwnPut(w, ev, zone, tag, v, site.now);
      OwnPutAgreesIff(setup, w, ev, zone, tag, v, site.now, signerOf);
      forall rtype | LatestAt(w'.rows, p, rtype).Some? ensures (rtype == "CNAME") == cname {
        OwnPutLatest(setup, w, ev, zone, tag, site.now, signerOf, rtype, tag.name);
      }
      OwnPutLatest(setup, w, ev, zone, tag, site.now, signerOf, tag.rtype, tag.name);
      forall rt: nat ensures RRset(w'.data, OwnKey(p, rt)) == RRset(next.data, OwnKey(p, rt)) {
        OwnPutShape(setup, table, w, ev, zone, tag, site, rt);
      }
      AgreesByLookups(setup.syn, next, w', p);
    }
  }

  lemma OwnDropShape(
    setup: Setup, table: Table, w: World, ev: Event, zone: string, tag: DeleteTag, site: Site, rt: nat)
    requires site.delegated.None? && !site.update.Unacknowledged?
    ensures var (w', k) := (DropRecord(setup, table, w, ev, zone, tag, site), OwnKey(PlaceOf(ev, zone, tag.name), rt));
            || w' == w
            || (&& w'.rows == OwnDrop(w, ev, zone, tag).rows
                && RRset(w'.data, k) == RRset(OwnDrop(w, ev, zone, tag).data, k))
  {
    NameEndsWithDot(Under(tag.name, ev.npub), zone);
    ProofIsElsewhere(OwnName(PlaceOf(ev, zone, tag.name)));
  }

  lemma OwnDropSettled(
    setup: Setup, table: Table, w: World, ev: Event, zone: string, tag: DeleteTag, site: Site,
    signerOf: string -> string, cname: bool)
    requires Settled(setup, w, PlaceOf(ev, zone, tag.name), signerOf, cname)
    requires site.delegated.None? && !site.update.Unacknowledged?
    ensures Settled(setup, DropRecord(setup, table, w, ev, zone, tag, site), PlaceOf(ev, zone, tag.name), signerOf,
                    cname)
  {
    var (w', p) := (DropRecord(setup, table, w, ev, zone, tag, site), PlaceOf(ev, zone, tag.name));
    OwnDropShape(setup, table, w, ev, zone, tag, site, 0);
    if w' != w {
      var next := OwnDrop(w, ev, zone, tag);
      OwnDropAgrees(setup.syn, w, ev, zone, tag);
      DeleteKeepsIds(w.rows, ev.npub, tag.rtype, tag.name, zone, signerOf);
      forall rtype | LatestAt(w'.rows, p, rtype).Some? ensures (rtype == "CNAME") == cname {
        LatestAfterDelete(w.rows, ev.npub, tag.rtype, tag.name, zone, ev.npub, rtype, tag.name, zone);
      }
      forall rt: nat ensures RRset(w'.data, OwnKey(p, rt)) == RRset(next.data, OwnKey(p, rt)) {
        OwnDropShape(setup, table, w, ev, zone, tag, site, rt);
      }
      AgreesByLookups(setup.syn, next, w', p);
    }
  }

  lemma TurnSettled(setup: Setup, w: World, turn: Turn, p: Place, signerOf: string -> string, cname: bool)
    requires Grounds(setup, p) && Settled(setup, w, p, signerOf, cname)
    requires Orderly(setup, turn, p, signerOf, cname) && NeverDelegated(turn.table, p)
    ensures Settled(setup, Handled(setup, w, turn), p, signerOf, cname)
  {
    var (table, ev) := (turn.table, turn.ev);
    ghost var q := (w': World) => Settled(setup, w', p, signerOf, cname);
    forall w', z, i: nat | z in turn.order && i < |ev.records| && q(w')
      ensures q(PutRecord(setup, table, w', ev, z, ev.records[i], turn.puts(z, i)))
    {
      if ev.npub == p.npub && z == p.zone {
        UndelegatedResolves(table, p, ev.records[i].name, turn.puts(z, i));
      }
      if Concerns(p, ev, z, ev.records[i].name) {
        OwnPutSettled(setup, table, w', ev, z, ev.records[i], turn.puts(z, i), signerOf, cname);
      } else {
        OtherPutSettled(setup, table, w', ev, z, ev.records[i], turn.puts(z, i), p, signerOf, cname);
      }
    }
    forall w', z, i: nat | z in turn.order && i < |ev.deletes| && q(w')
      ensures q(DropRecord(setup, table, w', ev, z, ev.deletes[i], turn.drops(z, i)))
    {
      if ev.npub == p.npub && z == p.zone {
        UndelegatedResolves(table, p, ev.deletes[i].name, turn.drops(z, i));
      }
      if Concerns(p, ev, z, ev.deletes[i].name) {
        OwnDropSettled(setup, table, w', ev, z, ev.deletes[i], turn.drops(z, i), signerOf, cname);
      } else {
        OtherDropSettled(setup, table, w', ev, z, ev.deletes[i], turn.drops(z, i), p, signerOf, cname);
      }
    }
    HandledKeeps(setup, w, turn, q);
  }

  // -------------------------------------------------------------------------
  // Sweeps
  // -------------------------------------------------------------------------

  lemma {:induction false} LatestPurged(
    zones: seq<ZoneConfig>, table: Table, now: int, done: set<NameKey>, rows: Rows, p: Place, rtype: string)
    requires forall key | key in done && key in table && key.zone == p.zone :: table[key].npub != p.npub
    ensures LatestAt(Purged(zones, table, now, done, rows), p, rtype) == LatestAt(rows, p, rtype)
  {
    if rows != [] {
      var n := |rows| - 1;
      var next := Purged(zones, table, now, done, rows);
      assert next[..n] == Purged(zones, table, now, done, rows[..n]);
      LatestPurged(zones, table, now, done, rows[..n], p, rtype);
    }
  }

  lemma PurgedKeepsIds(
    zones: seq<ZoneConfig>, table: Table, now: int, done: set<NameKey>, rows: Rows, signerOf: string -> string)
    requires IdsBelong(rows, signerOf)
    ensures IdsBelong(Purged(zones, table, now, done, rows), signerOf)
  {
    var next := Purged(zones, table, now, done, rows);
    forall r | r in next ensures signerOf(r.eventId) == r.npub {
      var i :| 0 <= i < |next| && next[i] == r;
      assert rows[i] in rows;
    }
  }

  lemma SweepMissesPlace(zones: seq<ZoneConfig>, table: Table, pass: Pass, w: World, p: Place, rt: nat)
    requires Labelled(table) && IsNpubName(p.npub) && '.' !in p.npub
    ensures RRset(SweptWorld(zones, table, pass, w).data, OwnKey(p, rt)) == RRset(w.data, OwnKey(p, rt))
  {
    EmptiedAt(w.data, Cleared(zones, table, pass, w.rows, |pass.due|), OwnKey(p, rt));
    if n: nat :| n < |pass.due| && ClearedBy(zones, table, pass, w.rows, n, OwnKey(p, rt)) {
      ClearedIsUnder(zones, table, pass, w.rows, n, OwnKey(p, rt));
      var domain := pass.due[n].domain;
      var name :| OwnName(p) == InZone(Under(name, domain), p.zone);
      InZoneIsInjective(Under(p.name, p.npub), Under(name, domain), p.zone);
      LabelsAreDotFree(domain);
      LastLabelUnder(p.name, p.npub);
      LastLabelUnder(name, domain);
      assert false;
    }
  }

  lemma SweepSettled(
    setup: Setup, table: Table, pass: Pass, w: World, p: Place, signerOf: string -> string, cname: bool)
    requires Grounds(setup, p) && Settled(setup, w, p, signerOf, cname)
    requires Labelled(table) && NeverDelegated(table, p)
    ensures Settled(setup, SweptWorld(setup.zones, table, pass, w), p, signerOf, cname)
  {
    var w' := SweptWorld(setup.zones, table, pass, w);
    PurgedKeepsIds(setup.zones, table, pass.now, table.Keys, w.rows, signerOf);
    forall rtype ensures LatestAt(w'.rows, p, rtype) == LatestAt(w.rows, p, rtype) {
      LatestPurged(setup.zones, table, pass.now, table.Keys, w.rows, p, rtype);
    }
    forall rt: nat ensures RRset(w'.data, OwnKey(p, rt)) == RRset(w.data, OwnKey(p, rt)) {
      SweepMissesPlace(setup.zones, table, pass, w, p, rt);
    }
    SettledByLookups(setup, w, w', p, signerOf, cname);
  }

  lemma PurgedIsDead(
    zones: seq<ZoneConfig>, table: Table, now: int, rows: Rows, lost: NameKey, p: Place, rtype: string)
    requires Lapses(zones, table, lost, now) && lost.zone == p.zone && table[lost].npub == p.npub
    ensures LatestAt(Purged(zones, table, now, table.Keys, rows), p, rtype).None?
  {
    var next := Purged(zones, table, now, table.Keys, rows);
    forall i | 0 <= i < |next| ensures !IsLive(next[i], p.npub, rtype, p.name, p.zone) {
      assert rows[i].npub == p.npub && rows[i].zone == p.zone ==> Lost(zones, table, now, table.Keys, rows[i]);
    }
    LatestMissing(next, p.npub, rtype, p.name, p.zone);
  }

  /** Same RRsets, no live rows left: in agreement exactly when there were none before. */
  lemma BereftAgreesIff(syn: Syntax, w: World, w': World, p: Place)
    requires Agrees(syn, w, p)
    requires forall rtype :: LatestAt(w'.rows, p, rtype).None?
    requires forall rt: nat :: RRset(w'.data, OwnKey(p, rt)) == RRset(w.data, OwnKey(p, rt))
    ensures Agrees(syn, w', p) <==> forall rtype :: LatestAt(w.rows, p, rtype).None?
  {
    if forall rtype :: LatestAt(w.rows, p, rtype).None? {
      AgreesByLookups(syn, w, w', p);
    }
    if Agrees(syn, w', p) {
      forall rtype ensures LatestAt(w.rows, p, rtype).None? {
        AgreesByLatest(syn, w, p, rtype);
        AgreesByLatest(syn, w', p, rtype);
      }
    }
  }

  /** A signer that loses a name in the zone loses the rows of its own names with it, and the sweep leaves their RRsets
      alone: they stay in agreement exactly when there were no live rows. */
  lemma LosingSweepAgreesIff(
    syn: Syntax, zones: seq<ZoneConfig>, table: Table, pass: Pass, w: World, lost: NameKey, p: Place)
    requires Labelled(table) && IsNpubName(p.npub) && '.' !in p.npub && Agrees(syn, w, p)
    requires Lapses(zones, table, lost, pass.now) && lost.zone == p.zone && table[lost].npub == p.npub
    ensures Agrees(syn, SweptWorld(zones, table, pass, w), p) <==> forall rtype :: LatestAt(w.rows, p, rtype).None?
  {
    var w' := SweptWorld(zones, table, pass, w);
    forall rtype ensures LatestAt(w'.rows, p, rtype).None? {
      PurgedIsDead(zones, table, pass.now, w.rows, lost, p, rtype);
    }
    forall rt: nat ensures RRset(w'.data, OwnKey(p, rt)) == RRset(w.data, OwnKey(p, rt)) {
      SweepMissesPlace(zones, table, pass, w, p, rt);
    }
    BereftAgreesIff(syn, w, w', p);
  }

  // -------------------------------------------------------------------------
  // The theorem
  // -------------------------------------------------------------------------

  ghost predicate InOrder(setup: Setup, s: State, p: Place, signerOf: string -> string, cname: bool) {
    Labelled(s.table) && NeverDelegated(s.table, p) && Settled(setup, s.world, p, signerOf, cname)
  }

  lemma StepStaysUndelegated(zones: seq<ZoneConfig>, table: Table, step: Step, p: Place)
    requires NeverDelegated(table, p)
    requires step.Claim? && step.claim.zone == p.zone ==> step.event.npub != p.npub
    ensures NeverDelegated(Apply(zones, table, step), p)
  {
  }

  lemma ActStaysInOrder(setup: Setup, s: State, act: Act, p: Place, signerOf: string -> string, cname: bool)
    requires Grounds(setup, p) && InOrder(setup, s, p, signerOf, cname)
    requires Possible(s, act) && OrderlyAct(setup, act, p, signerOf, cname)
    ensures InOrder(setup, Next(setup, s, act), p, signerOf, cname)
  {
    StaysLabelled(setup, s, act);
    match act
    case Move(step) => StepStaysUndelegated(setup.zones, s.table, step, p);
    case Expire(pass) =>
      StepStaysUndelegated(setup.zones, s.table, Sweep(pass.now), p);
      SweepSettled(setup, s.table, pass, s.world, p, signerOf, cname);
    case Publish(turn) => TurnSettled(setup, s.world, turn, p, signerOf, cname);
  }

  /** Over every run of claims, renewals, sweeps and events by all signers, from empty tables and an empty zone: what
      the DNS shows at a name under the npub of a signer that claims nothing in the zone is, record by record, the data
      of its last live row, and nothing where no row lives. It takes that the signer's own events ask at this name for
      CNAMEs only or for none, that no update of this name is applied without its acknowledgement, and that the zone
      does not keep other records' proofs there. */
  lemma StoreAndDnsAgree(
    setup: Setup, states: seq<State>, acts: seq<Act>, n: nat, p: Place, signerOf: string -> string, cname: bool,
    rtype: string)
    requires Run(setup, states, acts) && n <= |acts| && states[0] == State(map[], EMPTY)
    requires Grounds(setup, p) && forall i | 0 <= i < n :: OrderlyAct(setup, acts[i], p, signerOf, cname)
    ensures ShowsLastRow(setup.syn, states[n].world, p, rtype)
  {
    RunStaysInOrder(setup, states, acts, n, p, signerOf, cname);
    AgreementMeans(setup.syn, states[n].world, p, rtype);
  }

  lemma PassStaysInOrder(
    setup: Setup, states: seq<State>, acts: seq<Act>, n: nat, p: Place, signerOf: string -> string, cname: bool)
    requires Run(setup, states, acts) && n < |acts| && Grounds(setup, p)
    requires InOrder(setup, states[n], p, signerOf, cname) && OrderlyAct(setup, acts[n], p, signerOf, cname)
    ensures InOrder(setup, states[n + 1], p, signerOf, cname)
  {
    assert PassesAt(setup, states, acts, n);
    ActStaysInOrder(setup, states[n], acts[n], p, signerOf, cname);
  }

  lemma StartsInOrder(setup: Setup, p: Place, signerOf: string -> string, cname: bool)
    ensures InOrder(setup, State(map[], EMPTY), p, signerOf, cname)
  {
  }

  lemma {:induction false} RunStaysInOrder(
    setup: Setup, states: seq<State>, acts: seq<Act>, n: nat, p: Place, signerOf: string -> string, cname: bool)
    requires Run(setup, states, acts) && n <= |acts| && states[0] == State(map[], EMPTY)
    requires Grounds(setup, p) && forall i | 0 <= i < n :: OrderlyAct(setup, acts[i], p, signerOf, cname)
    ensures InOrder(setup, states[n], p, signerOf, cname)
  {
    if n == 0 {
      StartsInOrder(setup, p, signerOf, cname);
    } else {
      RunStaysInOrder(setup, states, acts, n - 1, p, signerOf, cname);
      PassStaysInOrder(setup, states, acts, n - 1, p, signerOf, cname);
    }
  }

  // -------------------------------------------------------------------------
  // A run on which they do not
  // -------------------------------------------------------------------------

  /** An admitted and applied tag of a signer without delegation, in a zone that keeps no proofs. */
  ghost predicate PlainSite(setup: Setup, zone: string, site: Site) {
    && !setup.registrarMode && (IsCv(zone) ==> site.cvAdmitted) && !StoresProofs(setup.zones, zone)
    && site.delegated.None? && site.update.Applied?
  }

  lemma AppliedPut(
    setup: Setup, table: Table, w: World, ev: Event, zone: string, tag: RecordTag, v: RData, site: Site)
    requires Authority.Lawful(setup.codec) && setup.codec.encode(ev.pubkey) == Some(ev.npub) && ZoneOk(zone)
    requires PlainSite(setup, zone, site) && !IsApex(tag.name) && !IsNpubName(tag.name + "." + ev.npub)
    requires ParseRdata(setup.syn, TypeNumber(tag.rtype), tag.rdata) == Some(v)
    ensures PutRecord(setup, table, w, ev, zone, tag, site) == OwnPut(w, ev, zone, tag, v, site.now)
  {
    var prefix := Under(tag.name, ev.npub);
    NameEndsWithDot(prefix, zone);
    assert IsNpubName(ev.npub) && '.' !in ev.npub;
    AuthorityIsOwnership(setup.codec, table, InZone(prefix, zone), zone, ev.pubkey);
    OwnerInZone(table, prefix, zone);
    OwnerUnderNpub(table, tag.name, ev.npub, zone);
  }

  /** A text record at a name of an empty world. */
  lemma TextAlone(setup: Setup, ev: Event, zone: string, text: RecordTag, now: int, signerOf: string -> string)
    requires signerOf(ev.id) == ev.npub && text.rtype == "TXT"
    ensures var (p, one) := (PlaceOf(ev, zone, text.name), OwnPut(EMPTY, ev, zone, text, TXT([text.rdata]), now));
            IdsBelong(one.rows, signerOf) && Agrees(setup.syn, one, p) && Conflict(one.rows, p, "CNAME")
  {
    OwnPutAgreesIff(setup, EMPTY, ev, zone, text, TXT([text.rdata]), now, signerOf);
    OwnPutLatest(setup, EMPTY, ev, zone, text, now, signerOf, "TXT", text.name);
    var one := OwnPut(EMPTY, ev, zone, text, TXT([text.rdata]), now);
    assert LatestAt(one.rows, PlaceOf(ev, zone, text.name), "TXT").Some?;
  }

  /** A CNAME saved beside other data: it is the latest live row and the DNS does not have it. */
  lemma CnameBreaks(
    setup: Setup, w: World, ev: Event, zone: string, alias: RecordTag, v: RData, now: int, signerOf: string -> string)
    requires IdsBelong(w.rows, signerOf) && signerOf(ev.id) == ev.npub && alias.rtype == "CNAME"
    requires ParseRdata(setup.syn, CNAME_TYPE, alias.rdata) == Some(v)
    requires Agrees(setup.syn, w, PlaceOf(ev, zone, alias.name))
    requires Conflict(w.rows, PlaceOf(ev, zone, alias.name), "CNAME")
    ensures var (p, next) := (PlaceOf(ev, zone, alias.name), OwnPut(w, ev, zone, alias, v, now));
            && !Agrees(setup.syn, next, p)
            && LatestAt(next.rows, p, "CNAME").Some? && RRset(next.data, OwnKey(p, CNAME_TYPE)) == {}
  {
    var p := PlaceOf(ev, zone, alias.name);
    OwnPutAgreesIff(setup, w, ev, zone, alias, v, now, signerOf);
    OwnPutLatest(setup, w, ev, zone, alias, now, signerOf, "CNAME", alias.name);
    BlockedIffConflict(setup.syn, w, p, "CNAME", alias.rdata);
    ReplaceAt(w.data, OwnKey(p, CNAME_TYPE), v, OwnKey(p, CNAME_TYPE));
  }

  /** From an empty world, a published text record agrees. */
  lemma TextPublished(
    setup: Setup, table: Table, ev: Event, zone: string, text: RecordTag, site: Site, one: World,
    signerOf: string -> string)
    requires Publishes(setup, ev, zone, text, TXT([text.rdata]), site, signerOf) && text.rtype == "TXT"
    requires one == PutRecord(setup, table, EMPTY, ev, zone, text, site)
    ensures var p := PlaceOf(ev, zone, text.name);
            IdsBelong(one.rows, signerOf) && Agrees(setup.syn, one, p) && Conflict(one.rows, p, "CNAME")
  {
    AppliedPut(setup, table, EMPTY, ev, zone, text, TXT([text.rdata]), site);
    TextAlone(setup, ev, zone, text, site.now, signerOf);
  }

  /** A signer's tag for a name below its npub, such as www, that is admitted and applied. */
  ghost predicate Publishes(
    setup: Setup, ev: Event, zone: string, tag: RecordTag, v: RData, site: Site, signerOf: string -> string)
  {
    && Authority.Lawful(setup.codec) && setup.codec.encode(ev.pubkey) == Some(ev.npub) && signerOf(ev.id) == ev.npub
    && ZoneOk(zone) && PlainSite(setup, zone, site) && !IsApex(tag.name) && !IsNpubName(tag.name + "." + ev.npub)
    && ParseRdata(setup.syn, TypeNumber(tag.rtype), tag.rdata) == Some(v)
  }

  /** Beside other live data, a published CNAME is saved and ignored by the server. */
  lemma CnamePublished(
    setup: Setup, table: Table, w: World, ev: Event, zone: string, alias: RecordTag, v: RData, site: Site, two: World,
    signerOf: string -> string)
    requires Publishes(setup, ev, zone, alias, v, site, signerOf) && alias.rtype == "CNAME"
    requires IdsBelong(w.rows, signerOf) && Agrees(setup.syn, w, PlaceOf(ev, zone, alias.name))
    requires Conflict(w.rows, PlaceOf(ev, zone, alias.name), "CNAME")
    requires two == PutRecord(setup, table, w, ev, zone, alias, site)
    ensures var p := PlaceOf(ev, zone, alias.name);
            && !Agrees(setup.syn, two, p)
            && LatestAt(two.rows, p, "CNAME").Some? && RRset(two.data, OwnKey(p, CNAME_TYPE)) == {}
  {
    AppliedPut(setup, table, w, ev, zone, alias, v, site);
    CnameBreaks(setup, w, ev, zone, alias, v, site.now, signerOf);
  }

  /** From empty tables, a text record at a name agrees; the CNAME its signer publishes there in its next event is saved
      and does not show. */
  lemma CnameBesideText(
    setup: Setup, table: Table, first: Event, second: Event, zone: string, text: RecordTag, alias: RecordTag, v: RData,
    site: Site, one: World, two: World, signerOf: string -> string)
    requires Publishes(setup, first, zone, text, TXT([text.rdata]), site, signerOf) && text.rtype == "TXT"
    requires Publishes(setup, second, zone, alias, v, site, signerOf) && alias.rtype == "CNAME"
    requires second.npub == first.npub && alias.name == text.name
    requires one == PutRecord(setup, table, EMPTY, first, zone, text, site)
    requires two == PutRecord(setup, table, one, second, zone, alias, site)
    ensures Agrees(setup.syn, one, PlaceOf(first, zone, text.name))
    ensures !Agrees(setup.syn, two, PlaceOf(first, zone, text.name))
    ensures LatestAt(two.rows, PlaceOf(first, zone, text.name), "CNAME").Some?
    ensures RRset(two.data, OwnKey(PlaceOf(first, zone, text.name), CNAME_TYPE)) == {}
  {
    TextPublished(setup, table, first, zone, text, site, one, signerOf);
    CnamePublished(setup, table, one, second, zone, alias, v, site, two, signerOf);
  }
}
