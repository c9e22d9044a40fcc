/** The Cloudflare backend: record ids cached by name and type in front of the zone they index. */
module RecordCache {
  import opened Text

  function Lower(c: char): char {
    if 'A' <= c <= 'Z' then (c as int + 32) as char else c
  }

  function Upper(c: char): char {
    if 'a' <= c <= 'z' then (c as int - 32) as char else c
  }

  function ToLower(s: string): (r: string)
    ensures |r| == |s| && forall i | 0 <= i < |s| :: r[i] == Lower(s[i])
  {
    seq(|s|, i requires 0 <= i < |s| => Lower(s[i]))
  }

  function ToUpper(s: string): (r: string)
    ensures |r| == |s| && forall i | 0 <= i < |s| :: r[i] == Upper(s[i])
  {
    seq(|s|, i requires 0 <= i < |s| => Upper(s[i]))
  }

  /** A normalised name and type: what the server and the cache tell records apart by. */
  datatype Slot = Slot(name: string, rtype: string)

  function SlotOf(fqdn: string, rtype: string): Slot {
    Slot(ToLower(TrimEnd(fqdn, '.')), ToUpper(rtype))
  }

  function KeyOf(slot: Slot): string {
    slot.name + "|" + slot.rtype
  }

  function CacheKey(fqdn: string, rtype: string): string {
    KeyOf(SlotOf(fqdn, rtype))
  }

  lemma LastBar(a: string, t: string)
    requires '|' !in t
    ensures LastIndex(a + "|" + t, '|') == Some(|a|)
  {
    LastIndexIs(a + "|" + t, '|', |a|);
  }

  /** Keys tell slots apart when record types hold no bar. */
  lemma KeyIsInjective(x: Slot, y: Slot)
    requires '|' !in x.rtype && '|' !in y.rtype
    requires KeyOf(x) == KeyOf(y)
    ensures x == y
  {
    LastBar(x.name, x.rtype);
    LastBar(y.name, y.rtype);
    assert x.name == KeyOf(x)[..|x.name|] && x.rtype == KeyOf(x)[|x.name| + 1..];
    assert y.name == KeyOf(y)[..|y.name|] && y.rtype == KeyOf(y)[|y.name| + 1..];
  }

  /** Two texts that differ in the case of ASCII letters at most. */
  predicate SameLetters(a: string, b: string) {
    && |a| == |b|
    && forall i | 0 <= i < |a| ::
         || a[i] == b[i]
         || ('A' <= a[i] <= 'Z' && b[i] as int == a[i] as int + 32)
         || ('A' <= b[i] <= 'Z' && a[i] as int == b[i] as int + 32)
  }

  lemma LowerIff(a: string, b: string)
    ensures ToLower(a) == ToLower(b) <==> SameLetters(a, b)
    ensures ToUpper(a) == ToUpper(b) <==> SameLetters(a, b)
  {
    if |a| == |b| {
      forall i | 0 <= i < |a|
        ensures Lower(a[i]) == Lower(b[i]) <==>
                || a[i] == b[i]
                || ('A' <= a[i] <= 'Z' && b[i] as int == a[i] as int + 32)
                || ('A' <= b[i] <= 'Z' && a[i] as int == b[i] as int + 32)
        ensures Upper(a[i]) == Upper(b[i]) <==> Lower(a[i]) == Lower(b[i])
      {
      }
      if SameLetters(a, b) {
        assert forall i | 0 <= i < |a| :: ToLower(a)[i] == ToLower(b)[i] && ToUpper(a)[i] == ToUpper(b)[i];
      } else {
        var i :| 0 <= i < |a| && a[i] != b[i] && !('A' <= a[i] <= 'Z' && b[i] as int == a[i] as int + 32)
                 && !('A' <= b[i] <= 'Z' && a[i] as int == b[i] as int + 32);
        assert ToLower(a)[i] != ToLower(b)[i] && ToUpper(a)[i] != ToUpper(b)[i];
      }
    }
  }

  /** Names and types are told apart up to case and final dots, and no further. */
  lemma SameSlotIff(fqdn: string, rtype: string, fqdn': string, rtype': string)
    ensures SlotOf(fqdn, rtype) == SlotOf(fqdn', rtype') <==>
            SameLetters(TrimEnd(fqdn, '.'), TrimEnd(fqdn', '.')) && SameLetters(rtype, rtype')
  {
    LowerIff(TrimEnd(fqdn, '.'), TrimEnd(fqdn', '.'));
    LowerIff(rtype, rtype');
  }

  lemma UpperKeepsBars(rtype: string)
    requires '|' !in rtype
    ensures '|' !in ToUpper(rtype)
  {
  }

  /** A record on the server. */
  datatype Rec = Rec(slot: Slot, content: string, ttl: nat)

  type Zone = map<string, Rec>

  /** The record a create or patch request describes: a TTL of 1 (automatic) passes, others are at least 60. */
  function Payload(slot: Slot, content: string, ttl: nat): (r: Rec)
    ensures r.slot == slot && r.content == content
    ensures r.ttl == ttl || (r.ttl == 60 && ttl < 60)
    ensures r.ttl < 60 <==> ttl == 1
  {
    Rec(slot, content, if ttl == 1 then 1 else if ttl < 60 then 60 else ttl)
  }

  /** At most one server record per slot, and no bar in a record type. */
  ghost predicate Tidy(zone: Zone) {
    && (forall a, b | a in zone && b in zone && zone[a].slot == zone[b].slot :: a == b)
    && (forall a | a in zone :: '|' !in zone[a].slot.rtype)
  }

  /** Every cached id is a live record of exactly the name and type it is cached for. */
  ghost predicate Coherent(cache: map<string, string>, zone: Zone) {
    forall key | key in cache :: cache[key] in zone && KeyOf(zone[cache[key]].slot) == key
  }

  /** Whether a cache key is of a name, of whatever type. */
  predicate IsOfName(key: string, fqdn: string) {
    StartsWith(key, ToLower(TrimEnd(fqdn, '.')) + "|")
  }

  /** The cache without the ids of a name. */
  function Evicted(cache: map<string, string>, fqdn: string): map<string, string> {
    map key | key in cache && !IsOfName(key, fqdn) :: cache[key]
  }

  lemma KeyIsOfName(fqdn: string, rtype: string)
    ensures IsOfName(CacheKey(fqdn, rtype), fqdn)
  {
    var name := ToLower(TrimEnd(fqdn, '.'));
    assert CacheKey(fqdn, rtype) == (name + "|") + ToUpper(rtype);
  }

  /** An upsert caches its id when it succeeds and forgets none. */
  ghost predicate AfterUpsert(before: map<string, string>, after: map<string, string>, key: string, ok: bool) {
    && (ok ==> key in after)
    && (forall k | k in before :: k in after && after[k] == before[k])
    && (forall k | k in after :: k in before || k == key)
  }

  /** A deletion that succeeds leaves its key uncached, and may forget ids of its name only. */
  ghost predicate AfterDelete(
    before: map<string, string>, after: map<string, string>, fqdn: string, key: string, ok: bool)
  {
    && (ok ==> key !in after)
    && (forall k | k in before && (!ok || !IsOfName(k, fqdn)) :: k in after && after[k] == before[k])
    && (forall k | k in after :: k in before || k == key)
  }

  predicate Listed(zone: Zone, slot: Slot, id: string) {
    id in zone && zone[id].slot == slot
  }

  // -------------------------------------------------------------------------
  // A backend without a cache
  // -------------------------------------------------------------------------

  ghost function PlainUpsert(zone: Zone, slot: Slot, content: string, ttl: nat, newId: string): Zone {
    if exists id :: Listed(zone, slot, id)
    then var id :| Listed(zone, slot, id); zone[id := Payload(slot, content, ttl)]
    else zone[newId := Payload(slot, content, ttl)]
  }

  function PlainDelete(zone: Zone, slot: Slot): Zone {
    map id | id in zone && zone[id].slot != slot :: zone[id]
  }

  // -------------------------------------------------------------------------
  // The cached backend
  // -------------------------------------------------------------------------

  /** Requests to the API either take effect and report success or report an error and have no
      effect; the Boolean arguments say which, and `newId` is the id the server would assign. */
  class CloudflareBackend {
    var recordIds: map<string, string>
    var zone: Zone

    ghost predicate Valid()
      reads this
    {
      Tidy(zone) && Coherent(recordIds, zone)
    }

    constructor (zone: Zone)
      requires Tidy(zone)
      ensures Valid() && this.zone == zone && recordIds == map[]
    {
      this.zone := zone;
      recordIds := map[];
    }

    method FindRecordId(fqdn: string, rtype: string, listOk: bool) returns (r: Result<Option<string>, ()>)
      requires Valid() && '|' !in rtype
      modifies this`recordIds
      ensures Valid()
      ensures r.Err? <==> CacheKey(fqdn, rtype) !in old(recordIds) && !listOk
      ensures r.Ok? && r.value.Some? ==> Listed(zone, SlotOf(fqdn, rtype), r.value.value)
      ensures r.Ok? && r.value.None? ==> forall id :: !Listed(zone, SlotOf(fqdn, rtype), id)
      ensures recordIds ==
              if r.Ok? && r.value.Some? then old(recordIds)[CacheKey(fqdn, rtype) := r.value.value] else old(recordIds)
      ensures CacheKey(fqdn, rtype) in old(recordIds) ==> r == Ok(Some(old(recordIds)[CacheKey(fqdn, rtype)]))
    {
      var slot := SlotOf(fqdn, rtype);
      var key := KeyOf(slot);
      if key in recordIds {
        UpperKeepsBars(rtype);
        KeyIsInjective(zone[recordIds[key]].slot, slot);
        return Ok(Some(recordIds[key]));
      }
      if !listOk {
        return Err(());
      }
      var result := set id | id in zone && Listed(zone, slot, id);
      if result == {} {
        assert forall id :: Listed(zone, slot, id) ==> id in result;
        return Ok(None);
      }
      var id :| id in result;
      recordIds := recordIds[key := id];
      return Ok(Some(id));
    }

    method CreateRecord(
      fqdn: string, rtype: string, content: string, ttl: nat, newId: string, createOk: bool)
      returns (r: Result<(), ()>)
      requires Valid() && newId !in zone && '|' !in rtype
      requires forall id :: !Listed(zone, SlotOf(fqdn, rtype), id)
      modifies this
      ensures Valid()
      ensures r.Ok? <==> createOk
      ensures zone == if createOk then old(zone)[newId := Payload(SlotOf(fqdn, rtype), content, ttl)] else old(zone)
      ensures recordIds == if createOk then old(recordIds)[CacheKey(fqdn, rtype) := newId] else old(recordIds)
    {
      if !createOk {
        return Err(());
      }
      var slot := SlotOf(fqdn, rtype);
      UpperKeepsBars(rtype);
      assert forall id | id in zone :: !Listed(zone, slot, id);
      zone := zone[newId := Payload(slot, content, ttl)];
      recordIds := recordIds[CacheKey(fqdn, rtype) := newId];
      return Ok(());
    }

    method PatchRecord(
      recordId: string, fqdn: string, rtype: string, content: string, ttl: nat, patchOk: bool)
      returns (r: Result<(), ()>)
      requires Valid() && Listed(zone, SlotOf(fqdn, rtype), recordId)
      modifies this`zone
      ensures Valid()
      ensures r.Ok? <==> patchOk
      ensures zone == if patchOk then old(zone)[recordId := Payload(SlotOf(fqdn, rtype), content, ttl)] else old(zone)
    {
      if !patchOk {
        return Err(());
      }
      zone := zone[recordId := Payload(SlotOf(fqdn, rtype), content, ttl)];
      return Ok(());
    }

    method DeleteRecordById(recordId: string, fqdn: string, ghost rtype: string, deleteOk: bool)
      returns (r: Result<(), ()>)
      requires Valid() && Listed(zone, SlotOf(fqdn, rtype), recordId)
      modifies this
      ensures Valid()
      ensures r.Ok? <==> deleteOk
      ensures zone == if deleteOk then old(zone) - {recordId} else old(zone)
      ensures recordIds == if deleteOk then Evicted(old(recordIds), fqdn) else old(recordIds)
    {
      if !deleteOk {
        return Err(());
      }
      var name := ToLower(TrimEnd(fqdn, '.'));
      ghost var key := CacheKey(fqdn, rtype);
      assert StartsWith(key, name + "|");
      zone := zone - {recordId};
      recordIds := map k | k in recordIds && !StartsWith(k, name + "|") :: recordIds[k];
      assert recordIds == Evicted(old(recordIds), fqdn);
      return Ok(());
    }

    /** The zone ends as a backend without a cache would leave it. */
    method UpsertRecord(
      fqdn: string, rtype: string, rdata: string, ttl: nat, newId: string, listOk: bool, writeOk: bool)
      returns (r: Result<(), ()>)
      requires Valid() && newId !in zone && '|' !in rtype
      modifies this
      ensures Valid()
      ensures r.Ok? <==> writeOk && (CacheKey(fqdn, rtype) in old(recordIds) || listOk)
      ensures zone == if r.Ok? then PlainUpsert(old(zone), SlotOf(fqdn, rtype), rdata, ttl, newId) else old(zone)
      ensures AfterUpsert(old(recordIds), recordIds, CacheKey(fqdn, rtype), r.Ok?)
    {
      var found := FindRecordId(fqdn, rtype, listOk);
      match found
      case Err(_) => r := Err(());
      case Ok(Some(id)) => r := PatchRecord(id, fqdn, rtype, rdata, ttl, writeOk);
      case Ok(None) => r := CreateRecord(fqdn, rtype, rdata, ttl, newId, writeOk);
    }

    method DeleteRecord(fqdn: string, rtype: string, listOk: bool, deleteOk: bool) returns (r: Result<(), ()>)
      requires Valid() && '|' !in rtype
      modifies this
      ensures Valid()
      ensures zone == if r.Ok? then PlainDelete(old(zone), SlotOf(fqdn, rtype)) else old(zone)
      ensures r.Err? <==> || (CacheKey(fqdn, rtype) !in old(recordIds) && !listOk)
                          || (!deleteOk && exists id :: Listed(old(zone), SlotOf(fqdn, rtype), id))
      ensures AfterDelete(old(recordIds), recordIds, fqdn, CacheKey(fqdn, rtype), r.Ok?)
    {
      KeyIsOfName(fqdn, rtype);
      var found := FindRecordId(fqdn, rtype, listOk);
      match found
      case Err(_) => r := Err(());
      case Ok(None) =>
        assert forall id | id in zone :: !Listed(zone, SlotOf(fqdn, rtype), id);
        r := Ok(());
      case Ok(Some(id)) => r := DeleteRecordById(id, fqdn, rtype, deleteOk);
    }
  }

  // -------------------------------------------------------------------------
  // What the zone means
  // -------------------------------------------------------------------------

  /** The zone as a map from slot to content and TTL. */
  ghost function Lookup(zone: Zone, slot: Slot): Option<(string, nat)> {
    if exists id :: Listed(zone, slot, id)
    then var id :| Listed(zone, slot, id); Some((zone[id].content, zone[id].ttl))
    else None
  }

  lemma LookupAt(zone: Zone, slot: Slot, id: string)
    requires Tidy(zone) && Listed(zone, slot, id)
    ensures Lookup(zone, slot) == Some((zone[id].content, zone[id].ttl))
  {
  }

  lemma LookupSame(zone: Zone, next: Zone, slot: Slot)
    requires Tidy(zone) && Tidy(next)
    requires forall id :: Listed(next, slot, id) ==> Listed(zone, slot, id)
    requires forall id :: Listed(zone, slot, id) ==> Listed(next, slot, id) && zone[id] == next[id]
    ensures Lookup(next, slot) == Lookup(zone, slot)
  {
    if id :| Listed(zone, slot, id) {
      LookupAt(zone, slot, id);
      LookupAt(next, slot, id);
    }
  }

  /** The one record an upsert writes. */
  lemma UpsertWrites(zone: Zone, slot: Slot, content: string, ttl: nat, newId: string) returns (id: string)
    requires newId !in zone && Tidy(zone)
    ensures PlainUpsert(zone, slot, content, ttl, newId) == zone[id := Payload(slot, content, ttl)]
    ensures id in zone ==> zone[id].slot == slot
    ensures forall x | x in zone && x != id :: zone[x].slot != slot
  {
    if exists x :: Listed(zone, slot, x) {
      id :| Listed(zone, slot, id)
            && PlainUpsert(zone, slot, content, ttl, newId) == zone[id := Payload(slot, content, ttl)];
    } else {
      id := newId;
      assert forall x | x in zone :: !Listed(zone, slot, x);
    }
  }

  lemma RewrittenIsTidy(zone: Zone, id: string, rec: Rec)
    requires Tidy(zone) && '|' !in rec.slot.rtype
    requires forall x | x in zone && x != id :: zone[x].slot != rec.slot
    ensures Tidy(zone[id := rec])
  {
  }

  /** Upsert is map update, keeping one record per slot. */
  lemma UpsertIsMapUpdate(zone: Zone, slot: Slot, content: string, ttl: nat, newId: string, k: Slot)
    requires Tidy(zone) && newId !in zone && '|' !in slot.rtype
    ensures var next := PlainUpsert(zone, slot, content, ttl, newId);
            && Tidy(next)
            && Lookup(next, k) ==
               if k == slot then Some((content, Payload(slot, content, ttl).ttl)) else Lookup(zone, k)
  {
    var id := UpsertWrites(zone, slot, content, ttl, newId);
    var p := Payload(slot, content, ttl);
    RewrittenIsTidy(zone, id, p);
    if k == slot {
      LookupAt(zone[id := p], slot, id);
    } else {
      LookupSame(zone, zone[id := p], k);
    }
  }

  /** Delete is map removal. */
  lemma DeleteIsMapRemoval(zone: Zone, slot: Slot, k: Slot)
    requires Tidy(zone)
    ensures var next := PlainDelete(zone, slot);
            && Tidy(next)
            && Lookup(next, k) == if k == slot then None else Lookup(zone, k)
  {
    if k != slot {
      LookupSame(zone, PlainDelete(zone, slot), k);
    }
  }

  datatype Op = Upsert(slot: Slot, content: string, ttl: nat, newId: string) | Delete(slot: Slot)

  ghost function PlainStep(zone: Zone, op: Op): Zone {
    match op
    case Upsert(slot, content, ttl, newId) => PlainUpsert(zone, slot, content, ttl, newId)
    case Delete(slot) => PlainDelete(zone, slot)
  }

  ghost function PlainRun(zone: Zone, ops: seq<Op>): Zone {
    if ops == [] then zone else PlainStep(PlainRun(zone, ops[..|ops| - 1]), ops[|ops| - 1])
  }

  /** Every id the server assigns is new to it, and types hold no bar. */
  ghost predicate Proper(zone: Zone, ops: seq<Op>) {
    ops != [] ==>
      var (before, op) := (ops[..|ops| - 1], ops[|ops| - 1]);
      && Proper(zone, before)
      && '|' !in op.slot.rtype
      && (op.Upsert? ==> op.newId !in PlainRun(zone, before))
  }

  /** The last operation on a slot, if any. */
  function LastOn(ops: seq<Op>, slot: Slot): Option<Op> {
    if ops == [] then None
    else if ops[|ops| - 1].slot == slot then Some(ops[|ops| - 1])
    else LastOn(ops[..|ops| - 1], slot)
  }

  /** What a slot holds once `ops` have been performed on a zone. */
  ghost function Left(zone: Zone, ops: seq<Op>, slot: Slot): Option<(string, nat)> {
    match LastOn(ops, slot)
    case None => Lookup(zone, slot)
    case Some(Upsert(_, content, ttl, _)) => Some((content, Payload(slot, content, ttl).ttl))
    case Some(Delete(_)) => None
  }

  /** After any sequence of operations each slot holds what the last operation on it left, and what it held at first
      otherwise. */
  lemma {:induction false} LastWriterWins(zone: Zone, ops: seq<Op>, slot: Slot)
    requires Tidy(zone) && Proper(zone, ops)
    ensures Tidy(PlainRun(zone, ops))
    ensures Lookup(PlainRun(zone, ops), slot) == Left(zone, ops, slot)
  {
    if ops != [] {
      var before := PlainRun(zone, ops[..|ops| - 1]);
      LastWriterWins(zone, ops[..|ops| - 1], slot);
      match ops[|ops| - 1] {
        case Upsert(s, content, ttl, newId) => UpsertIsMapUpdate(before, s, content, ttl, newId, slot);
        case Delete(s) => DeleteIsMapRemoval(before, s, slot);
      }
    }
  }

  // -------------------------------------------------------------------------
  // Whole runs of the cached backend
  // -------------------------------------------------------------------------

  /** A call on the backend, and which of its requests the API answers well. */
  datatype Call =
    | Put(fqdn: string, rtype: string, content: string, ttl: nat, newId: string, listOk: bool, writeOk: bool)
    | Remove(fqdn: string, rtype: string, listOk: bool, deleteOk: bool)

  function OpOf(call: Call): Op {
    match call
    case Put(fqdn, rtype, content, ttl, newId, _, _) => Upsert(SlotOf(fqdn, rtype), content, ttl, newId)
    case Remove(fqdn, rtype, _, _) => Delete(SlotOf(fqdn, rtype))
  }

  /** The operations of the calls that returned Ok. */
  function Succeeded(calls: seq<Call>, oks: seq<bool>): seq<Op>
    requires |oks| == |calls|
  {
    if calls == [] then []
    else
      var n := |calls| - 1;
      Succeeded(calls[..n], oks[..n]) + (if oks[n] then [OpOf(calls[n])] else [])
  }

  /** The server never assigns an id it has used before, and types hold no bar. */
  ghost predicate FreshIds(zone: Zone, calls: seq<Call>) {
    && (forall i | 0 <= i < |calls| :: '|' !in calls[i].rtype)
    && (forall i | 0 <= i < |calls| && calls[i].Put? :: calls[i].newId !in zone)
    && (forall i, j | 0 <= i < j < |calls| && calls[i].Put? && calls[j].Put? :: calls[i].newId != calls[j].newId)
  }

  lemma UpsertAddsOneId(zone: Zone, slot: Slot, content: string, ttl: nat, newId: string)
    requires newId !in zone && Tidy(zone)
    ensures PlainUpsert(zone, slot, content, ttl, newId).Keys <= zone.Keys + {newId}
  {
    var _ := UpsertWrites(zone, slot, content, ttl, newId);
  }

  lemma OneMoreSucceeded(calls: seq<Call>, oks: seq<bool>, n: nat, ok: bool)
    requires n < |calls| && |oks| == n
    ensures Succeeded(calls[..n + 1], oks + [ok]) ==
            Succeeded(calls[..n], oks) + (if ok then [OpOf(calls[n])] else [])
  {
    assert calls[..n + 1][..n] == calls[..n] && (oks + [ok])[..n] == oks;
  }

  lemma OneMoreStep(zone: Zone, ops: seq<Op>, op: Op)
    ensures PlainRun(zone, ops + [op]) == PlainStep(PlainRun(zone, ops), op)
    ensures Proper(zone, ops + [op]) <==>
            Proper(zone, ops) && '|' !in op.slot.rtype && (op.Upsert? ==> op.newId !in PlainRun(zone, ops))
  {
    assert (ops + [op])[..|ops|] == ops;
  }

  /** The zone after the first `n` calls, as a backend without a cache would have it. */
  ghost predicate InStep(start: Zone, zone: Zone, calls: seq<Call>, oks: seq<bool>, n: nat) {
    && n <= |calls| && |oks| == n
    && Proper(start, Succeeded(calls[..n], oks)) && zone == PlainRun(start, Succeeded(calls[..n], oks))
    && forall i | n <= i < |calls| && calls[i].Put? :: calls[i].newId !in zone
  }

  lemma OneMoreCall(start: Zone, calls: seq<Call>, oks: seq<bool>, n: nat, ok: bool)
    requires n < |calls| && |oks| == n && FreshIds(start, calls) && Proper(start, Succeeded(calls[..n], oks))
    requires calls[n].Put? ==> calls[n].newId !in PlainRun(start, Succeeded(calls[..n], oks))
    ensures var (before, after) := (Succeeded(calls[..n], oks), Succeeded(calls[..n + 1], oks + [ok]));
            && Proper(start, after)
            && PlainRun(start, after) ==
               if ok then PlainStep(PlainRun(start, before), OpOf(calls[n])) else PlainRun(start, before)
  {
    var done := Succeeded(calls[..n], oks);
    UpperKeepsBars(calls[n].rtype);
    OneMoreStep(start, done, OpOf(calls[n]));
    OneMoreSucceeded(calls, oks, n, ok);
    assert done + [] == done;
  }

  lemma StaysInStep(start: Zone, zone: Zone, zone': Zone, calls: seq<Call>, oks: seq<bool>, n: nat, ok: bool)
    requires n < |calls| && FreshIds(start, calls) && InStep(start, zone, calls, oks, n)
    requires zone' == if ok then PlainStep(zone, OpOf(calls[n])) else zone
    requires zone'.Keys <= zone.Keys + (if calls[n].Put? then {calls[n].newId} else {})
    ensures InStep(start, zone', calls, oks + [ok], n + 1)
  {
    OneMoreCall(start, calls, oks, n, ok);
  }

  /** Every request of the call is answered well. */
  predicate Answered(call: Call) {
    call.listOk && (if call.Put? then call.writeOk else call.deleteOk)
  }

  /** One call: the zone moves as without a cache when it succeeds, and not at all otherwise. */
  method Perform(backend: CloudflareBackend, call: Call) returns (ok: bool)
    requires backend.Valid() && '|' !in call.rtype && (call.Put? ==> call.newId !in backend.zone)
    modifies backend
    ensures backend.Valid()
    ensures backend.zone == if ok then PlainStep(old(backend.zone), OpOf(call)) else old(backend.zone)
    ensures Answered(call) ==> ok
    ensures call.Put? && !call.writeOk ==> !ok
    ensures call.Put? && call.writeOk && CacheKey(call.fqdn, call.rtype) in old(backend.recordIds) ==> ok
    ensures call.Put? && ok ==> CacheKey(call.fqdn, call.rtype) in backend.recordIds
    ensures forall key | key in old(backend.recordIds) && (call.Remove? ==> !IsOfName(key, call.fqdn)) ::
              key in backend.recordIds
    ensures backend.zone.Keys <= old(backend.zone).Keys + (if call.Put? then {call.newId} else {})
  {
    match call
    case Put(fqdn, rtype, content, ttl, newId, listOk, writeOk) =>
      UpsertAddsOneId(backend.zone, SlotOf(fqdn, rtype), content, ttl, newId);
      var r := backend.UpsertRecord(fqdn, rtype, content, ttl, newId, listOk, writeOk);
      ok := r.Ok?;
    case Remove(fqdn, rtype, listOk, deleteOk) =>
      var r := backend.DeleteRecord(fqdn, rtype, listOk, deleteOk);
      ok := r.Ok?;
  }

  /** Call `i` wrote a record, and no call up to the `n`th has removed a record of its name. */
  ghost predicate StillCached(calls: seq<Call>, oks: seq<bool>, i: nat, n: nat)
    requires |oks| <= |calls|
  {
    && i < n <= |calls| && i < |oks| && calls[i].Put? && oks[i]
    && forall j | i < j < n && calls[j].Remove? :: !IsOfName(CacheKey(calls[i].fqdn, calls[i].rtype), calls[j].fqdn)
  }

  ghost predicate InCache(calls: seq<Call>, oks: seq<bool>, n: nat, cache: map<string, string>)
    requires |oks| <= |calls|
  {
    forall i: nat | StillCached(calls, oks, i, n) :: CacheKey(calls[i].fqdn, calls[i].rtype) in cache
  }

  /** Once written, a record is written again without a listing until its name is removed. */
  ghost predicate Served(calls: seq<Call>, oks: seq<bool>, n: nat)
    requires n == |oks| <= |calls|
  {
    forall i: nat, j: nat | i < j < n && StillCached(calls, oks, i, j) && Repeats(calls[i], calls[j]) :: oks[j]
  }

  predicate Repeats(first: Call, second: Call) {
    && second.Put? && second.writeOk
    && CacheKey(first.fqdn, first.rtype) == CacheKey(second.fqdn, second.rtype)
  }

  lemma StaysServed(
    calls: seq<Call>, oks: seq<bool>, n: nat, ok: bool, cache: map<string, string>, cache': map<string, string>)
    requires n == |oks| < |calls| && InCache(calls, oks, n, cache) && Served(calls, oks, n)
    requires var key := CacheKey(calls[n].fqdn, calls[n].rtype);
             && (calls[n].Put? && calls[n].writeOk && key in cache ==> ok)
             && (calls[n].Put? && ok ==> key in cache')
    requires forall key | key in cache && (calls[n].Remove? ==> !IsOfName(key, calls[n].fqdn)) :: key in cache'
    ensures InCache(calls, oks + [ok], n + 1, cache') && Served(calls, oks + [ok], n + 1)
  {
    var more := oks + [ok];
    forall i: nat | StillCached(calls, more, i, n + 1) ensures CacheKey(calls[i].fqdn, calls[i].rtype) in cache' {
      if i < n {
        assert StillCached(calls, oks, i, n);
      }
    }
    forall i: nat, j: nat | i < j < n + 1 && StillCached(calls, more, i, j) && Repeats(calls[i], calls[j])
      ensures more[j]
    {
      assert StillCached(calls, oks, i, j);
    }
  }

  /** Any sequence of upserts and deletes, with any of their requests failing: the cache stays coherent, the zone is
      what a backend without a cache makes of the calls that returned Ok, and each slot holds what the last of
      those on it left; and a record once written is written again whether or not listing works. */
  method PerformAll(backend: CloudflareBackend, calls: seq<Call>) returns (oks: seq<bool>)
    requires backend.Valid() && FreshIds(backend.zone, calls)
    modifies backend
    ensures backend.Valid() && |oks| == |calls|
    ensures backend.zone == PlainRun(old(backend.zone), Succeeded(calls, oks))
    ensures forall slot :: Lookup(backend.zone, slot) == Left(old(backend.zone), Succeeded(calls, oks), slot)
    ensures forall i | 0 <= i < |calls| :: Answered(calls[i]) ==> oks[i]
    ensures Served(calls, oks, |calls|)
  {
    ghost var start := backend.zone;
    oks := [];
    for n := 0 to |calls|
      invariant backend.Valid() && InStep(start, backend.zone, calls, oks, n)
      invariant forall i | 0 <= i < n :: Answered(calls[i]) ==> oks[i]
      invariant InCache(calls, oks, n, backend.recordIds) && Served(calls, oks, n)
    {
      ghost var (before, cache) := (backend.zone, backend.recordIds);
      var ok := Perform(backend, calls[n]);
      StaysInStep(start, before, backend.zone, calls, oks, n, ok);
      StaysServed(calls, oks, n, ok, cache, backend.recordIds);
      oks := oks + [ok];
    }
    assert calls[..|calls|] == calls;
    forall slot ensures Lookup(backend.zone, slot) == Left(start, Succeeded(calls, oks), slot) {
      LastWriterWins(start, Succeeded(calls, oks), slot);
    }
  }
}
