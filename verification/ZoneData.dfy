/** A Knot zone under dynamic update, as RFC 2136 defines it: RRsets are added to (section 2.5.1),
    deleted (section 2.5.2), and CNAMEs do not share a name with other data (section 3.4.2.2). */
module ZoneData {
  import opened Rdata

  datatype RrKey = RrKey(zone: string, name: string, rtype: nat)

  /** RRsets by zone, owner name and type; an absent key is an empty RRset. */
  type Data = map<RrKey, set<RData>>

  const CNAME_TYPE: nat := 5
  const TXT_TYPE: nat := 16

  function RRset(data: Data, key: RrKey): set<RData> {
    if key in data then data[key] else {}
  }

  predicate HasOtherThanCname(data: Data, zone: string, name: string) {
    exists key | key in data ::
      key.zone == zone && key.name == name && key.rtype != CNAME_TYPE && data[key] != {}
  }

  /** Whether an addition is silently ignored because a CNAME and other data would meet. */
  predicate Blocked(data: Data, key: RrKey) {
    if key.rtype == CNAME_TYPE then HasOtherThanCname(data, key.zone, key.name)
    else RRset(data, key.(rtype := CNAME_TYPE)) != {}
  }

  function AddRr(data: Data, key: RrKey, v: RData): Data {
    if Blocked(data, key) then data
    else if key.rtype == CNAME_TYPE then data[key := {v}]
    else data[key := RRset(data, key) + {v}]
  }

  function DeleteRRset(data: Data, key: RrKey): Data {
    data - {key}
  }

  /** What becomes of one message: applied and acknowledged, rejected without effect, or applied
      with the acknowledgement lost. */
  datatype Outcome = Applied | Rejected | Unacknowledged

  function Sent(before: Data, after: Data, outcome: Outcome): Data {
    if outcome.Rejected? then before else after
  }

  /** One message that deletes an RRset and inserts a record in its place. */
  function Replace(data: Data, key: RrKey, v: RData): Data {
    AddRr(DeleteRRset(data, key), key, v)
  }

  lemma ReplaceAt(data: Data, key: RrKey, v: RData, other: RrKey)
    ensures RRset(Replace(data, key, v), other) ==
            if other != key then RRset(data, other)
            else if Blocked(data, key) then {}
            else {v}
  {
    var less := DeleteRRset(data, key);
    if key.rtype == CNAME_TYPE {
      if k :| k in data && k.zone == key.zone && k.name == key.name && k.rtype != CNAME_TYPE && data[k] != {} {
        assert k in less;
      }
    }
    assert Blocked(less, key) == Blocked(data, key);
  }

  /** A record inserted on its own joins its RRset, or is ignored where a CNAME and other data would meet; a CNAME
      replaces the one there is. */
  lemma AppendAt(data: Data, key: RrKey, v: RData, other: RrKey)
    ensures RRset(AddRr(data, key, v), other) ==
            if other != key || Blocked(data, key) then RRset(data, other)
            else if key.rtype == 5 then {v}
            else RRset(data, key) + {v}
  {
  }

  /** Where they would meet: a CNAME at a name with data of another type, or data at a name with a CNAME. */
  lemma BlockedIff(data: Data, key: RrKey)
    ensures Blocked(data, key) <==>
            if key.rtype == 5
            then exists k: RrKey :: k.zone == key.zone && k.name == key.name && k.rtype != 5 && RRset(data, k) != {}
            else RRset(data, RrKey(key.zone, key.name, 5)) != {}
  {
    if k: RrKey :| k.zone == key.zone && k.name == key.name && k.rtype != 5 && RRset(data, k) != {} {
      assert k in data;
    }
  }

  /** The updater's calls: the new data, and whether success is reported. */
  function UpdateRecord(
    syn: Syntax, data: Data, zone: string, fqdn: string, rt: nat, rdata: string, outcome: Outcome): (Data, bool)
  {
    var key := RrKey(zone, EnsureFqdn(fqdn), rt);
    match ParseRdata(syn, rt, rdata)
    case None => (data, false)
    case Some(v) => (Sent(data, Replace(data, key, v), outcome), outcome.Applied?)
  }

  function UpdateTxtMulti(
    data: Data, zone: string, fqdn: string, segments: seq<string>, outcome: Outcome): (Data, bool)
  {
    var key := RrKey(zone, EnsureFqdn(fqdn), TXT_TYPE);
    (Sent(data, Replace(data, key, TXT(segments)), outcome), outcome.Applied?)
  }

  function AppendRecord(
    syn: Syntax, data: Data, zone: string, fqdn: string, rt: nat, rdata: string, outcome: Outcome): (Data, bool)
  {
    var key := RrKey(zone, EnsureFqdn(fqdn), rt);
    match ParseRdata(syn, rt, rdata)
    case None => (data, false)
    case Some(v) => (Sent(data, AddRr(data, key, v), outcome), outcome.Applied?)
  }

  function DeleteRecord(data: Data, zone: string, fqdn: string, rt: nat, outcome: Outcome): (Data, bool) {
    (Sent(data, DeleteRRset(data, RrKey(zone, EnsureFqdn(fqdn), rt)), outcome), outcome.Applied?)
  }

  /** The server the updaters talk to. */
  class Knot {
    var data: Data

    constructor ()
      ensures data == map[]
    {
      data := map[];
    }

    method SendUpdateRecord(
      syn: Syntax, zone: string, fqdn: string, rt: nat, rdata: string, outcome: Outcome) returns (ok: bool)
      modifies this
      ensures (data, ok) == UpdateRecord(syn, old(data), zone, fqdn, rt, rdata, outcome)
    {
      var name := EnsureFqdn(fqdn);
      var parsed := ParseRdata(syn, rt, rdata);
      if parsed.None? {
        return false;
      }
      if !outcome.Rejected? {
        data := DeleteRRset(data, RrKey(zone, name, rt));
        data := AddRr(data, RrKey(zone, name, rt), parsed.value);
      }
      return outcome.Applied?;
    }

    method SendUpdateTxtMulti(zone: string, fqdn: string, segments: seq<string>, outcome: Outcome) returns (ok: bool)
      modifies this
      ensures (data, ok) == UpdateTxtMulti(old(data), zone, fqdn, segments, outcome)
    {
      var name := EnsureFqdn(fqdn);
      if !outcome.Rejected? {
        data := DeleteRRset(data, RrKey(zone, name, TXT_TYPE));
        data := AddRr(data, RrKey(zone, name, TXT_TYPE), TXT(segments));
      }
      return outcome.Applied?;
    }

    method SendAppendRecord(
      syn: Syntax, zone: string, fqdn: string, rt: nat, rdata: string, outcome: Outcome) returns (ok: bool)
      modifies this
      ensures (data, ok) == AppendRecord(syn, old(data), zone, fqdn, rt, rdata, outcome)
    {
      var parsed := ParseRdata(syn, rt, rdata);
      if parsed.None? {
        return false;
      }
      if !outcome.Rejected? {
        data := AddRr(data, RrKey(zone, EnsureFqdn(fqdn), rt), parsed.value);
      }
      return outcome.Applied?;
    }

    method SendDeleteRecord(zone: string, fqdn: string, rt: nat, outcome: Outcome) returns (ok: bool)
      modifies this
      ensures (data, ok) == DeleteRecord(old(data), zone, fqdn, rt, outcome)
    {
      if !outcome.Rejected? {
        data := DeleteRRset(data, RrKey(zone, EnsureFqdn(fqdn), rt));
      }
      return outcome.Applied?;
    }
  }
}
