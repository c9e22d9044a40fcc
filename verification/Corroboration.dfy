/** Three-source verification: what the API, the relays and the DNS say about a name. */
module Corroboration {
  import opened Text

  datatype ApiRecord = ApiRecord(rtype: string, fqdn: string, ttl: nat, rdata: string)
  datatype NostrRecord = NostrRecord(rtype: string, fqdn: string, ttl: nat, value: string)
  datatype DnsAnswer = DnsAnswer(rtype: string, name: string, ttl: nat, data: string)

  datatype Sources = Sources(api: seq<ApiRecord>, nostr: seq<NostrRecord>, dns: seq<DnsAnswer>)

  datatype Comparison = Comparison(
    isMatch: bool, apiCount: nat, nostrCount: nat, dnsCount: nat,
    onlyInApi: seq<string>, onlyInNostr: seq<string>, onlyInDns: seq<string>)

  datatype ResolvedRecord = ResolvedRecord(rtype: string, name: string, ttl: nat, data: string, source: string)

  function Key(rtype: string, data: string): string {
    rtype + ":" + data
  }

  function KeysOfApi(rs: seq<ApiRecord>): set<string> {
    set i | 0 <= i < |rs| :: Key(rs[i].rtype, rs[i].rdata)
  }

  function ApiKeys(s: Sources): set<string> {
    KeysOfApi(s.api)
  }

  function NostrKeys(s: Sources): set<string> {
    set i | 0 <= i < |s.nostr| :: Key(s.nostr[i].rtype, s.nostr[i].value)
  }

  function DnsKeys(s: Sources): set<string> {
    set i | 0 <= i < |s.dns| :: Key(s.dns[i].rtype, s.dns[i].data)
  }

  function AllKeys(s: Sources): set<string> {
    ApiKeys(s) + NostrKeys(s) + DnsKeys(s)
  }

  /** At least two of the three sources report the key. */
  predicate Attested(s: Sources, key: string) {
    || (key in ApiKeys(s) && key in NostrKeys(s))
    || (key in ApiKeys(s) && key in DnsKeys(s))
    || (key in NostrKeys(s) && key in DnsKeys(s))
  }

  predicate Corroborated(s: Sources) {
    forall key | key in AllKeys(s) :: Attested(s, key)
  }

  /** A list of exactly the members of a set, each once. */
  ghost predicate Lists(list: seq<string>, members: set<string>) {
    && (forall x :: x in list <==> x in members)
    && (forall i, j | 0 <= i < j < |list| :: list[i] != list[j])
  }

  method CompareTripartite(s: Sources) returns (c: Comparison)
    ensures c.isMatch <==> Corroborated(s)
    ensures Lists(c.onlyInApi, ApiKeys(s) - NostrKeys(s) - DnsKeys(s))
    ensures Lists(c.onlyInNostr, NostrKeys(s) - ApiKeys(s) - DnsKeys(s))
    ensures Lists(c.onlyInDns, DnsKeys(s) - ApiKeys(s) - NostrKeys(s))
    ensures c.apiCount == |s.api| && c.nostrCount == |s.nostr| && c.dnsCount == |s.dns|
  {
    var apiKeys, nostrKeys, dnsKeys := ApiKeys(s), NostrKeys(s), DnsKeys(s);
    var onlyInApi, onlyInNostr, onlyInDns := [], [], [];
    var rest := apiKeys + nostrKeys + dnsKeys;
    while rest != {}
      invariant rest <= AllKeys(s)
      invariant Lists(onlyInApi, apiKeys - nostrKeys - dnsKeys - rest)
      invariant Lists(onlyInNostr, nostrKeys - apiKeys - dnsKeys - rest)
      invariant Lists(onlyInDns, dnsKeys - apiKeys - nostrKeys - rest)
      decreases |rest|
    {
      var key :| key in rest;
      var inApi, inNostr, inDns := key in apiKeys, key in nostrKeys, key in dnsKeys;
      if inApi && !inNostr && !inDns {
        onlyInApi := onlyInApi + [key];
      }
      if inNostr && !inApi && !inDns {
        onlyInNostr := onlyInNostr + [key];
      }
      if inDns && !inApi && !inNostr {
        onlyInDns := onlyInDns + [key];
      }
      rest := rest - {key};
    }
    var isMatch := |onlyInApi| == 0 && |onlyInNostr| == 0 && |onlyInDns| == 0;
    MatchByLists(s, onlyInApi, onlyInNostr, onlyInDns);
    c := Comparison(isMatch, |s.api|, |s.nostr|, |s.dns|, onlyInApi, onlyInNostr, onlyInDns);
  }

  lemma MatchByLists(s: Sources, a: seq<string>, n: seq<string>, d: seq<string>)
    requires Lists(a, ApiKeys(s) - NostrKeys(s) - DnsKeys(s))
    requires Lists(n, NostrKeys(s) - ApiKeys(s) - DnsKeys(s))
    requires Lists(d, DnsKeys(s) - ApiKeys(s) - NostrKeys(s))
    ensures Corroborated(s) <==> |a| == 0 && |n| == 0 && |d| == 0
  {
    if Corroborated(s) {
      assert a != [] ==> a[0] in a && a[0] in AllKeys(s);
      assert n != [] ==> n[0] in n && n[0] in AllKeys(s);
      assert d != [] ==> d[0] in d && d[0] in AllKeys(s);
    } else {
      var key :| key in AllKeys(s) && !Attested(s, key);
      assert key in a || key in n || key in d;
    }
  }

  function FromDns(r: DnsAnswer): ResolvedRecord {
    ResolvedRecord(r.rtype, r.name, r.ttl, r.data, "dns")
  }

  function FromApi(r: ApiRecord): ResolvedRecord {
    ResolvedRecord(r.rtype, r.fqdn, r.ttl, r.rdata, "dns")
  }

  function AllFromDns(rs: seq<DnsAnswer>): seq<ResolvedRecord> {
    seq(|rs|, i requires 0 <= i < |rs| => FromDns(rs[i]))
  }

  function AllFromApi(rs: seq<ApiRecord>): seq<ResolvedRecord> {
    seq(|rs|, i requires 0 <= i < |rs| => FromApi(rs[i]))
  }

  /** The API records whose key is among `keys`. */
  function SelectApi(rs: seq<ApiRecord>, keys: set<string>): seq<ResolvedRecord> {
    if rs == [] then []
    else
      var last := rs[|rs| - 1];
      SelectApi(rs[..|rs| - 1], keys) + (if Key(last.rtype, last.rdata) in keys then [FromApi(last)] else [])
  }

  function AgreedKeys(s: Sources): set<string> {
    set key | key in ApiKeys(s) && (key in NostrKeys(s) || key in DnsKeys(s))
  }

  function ToResolvedRecords(s: Sources, c: Comparison): seq<ResolvedRecord> {
    if c.isMatch then
      if |s.dns| > 0 then AllFromDns(s.dns) else AllFromApi(s.api)
    else SelectApi(s.api, AgreedKeys(s))
  }

  ghost function ResolvedKeys(rs: seq<ResolvedRecord>): set<string> {
    set i | 0 <= i < |rs| :: Key(rs[i].rtype, rs[i].data)
  }

  lemma KeysOfLastApi(rs: seq<ApiRecord>)
    requires rs != []
    ensures KeysOfApi(rs) == KeysOfApi(rs[..|rs| - 1]) + {Key(rs[|rs| - 1].rtype, rs[|rs| - 1].rdata)}
  {
    forall i | 0 <= i < |rs| - 1 ensures Key(rs[i].rtype, rs[i].rdata) in KeysOfApi(rs[..|rs| - 1]) {
      assert rs[..|rs| - 1][i] == rs[i];
    }
  }

  lemma KeysOfLast(init: seq<ResolvedRecord>, r: ResolvedRecord)
    ensures ResolvedKeys(init + [r]) == ResolvedKeys(init) + {Key(r.rtype, r.data)}
  {
    var all := init + [r];
    assert all[|init|] == r;
    forall i | 0 <= i < |init| ensures Key(init[i].rtype, init[i].data) in ResolvedKeys(all) {
      assert all[i] == init[i];
    }
  }

  lemma {:induction false} SelectedKeys(rs: seq<ApiRecord>, keys: set<string>)
    ensures ResolvedKeys(SelectApi(rs, keys)) == KeysOfApi(rs) * keys
  {
    if rs != [] {
      var (n, last) := (|rs| - 1, rs[|rs| - 1]);
      SelectedKeys(rs[..n], keys);
      KeysOfLastApi(rs);
      var init := SelectApi(rs[..n], keys);
      if Key(last.rtype, last.rdata) in keys {
        KeysOfLast(init, FromApi(last));
      } else {
        assert init + [] == init;
      }
    }
  }

  /** Which keys a resolution returns. */
  lemma ResolvedKeysExactly(s: Sources, c: Comparison)
    requires c.isMatch <==> Corroborated(s)
    ensures ResolvedKeys(ToResolvedRecords(s, c)) ==
            if !Corroborated(s) then ApiKeys(s) * (NostrKeys(s) + DnsKeys(s))
            else if s.dns != [] then DnsKeys(s)
            else ApiKeys(s)
  {
    if c.isMatch && |s.dns| > 0 {
      var out := AllFromDns(s.dns);
      assert forall i | 0 <= i < |s.dns| :: Key(out[i].rtype, out[i].data) == Key(s.dns[i].rtype, s.dns[i].data);
    } else if c.isMatch {
      var out := AllFromApi(s.api);
      assert forall i | 0 <= i < |s.api| :: Key(out[i].rtype, out[i].data) == Key(s.api[i].rtype, s.api[i].rdata);
    } else {
      SelectedKeys(s.api, AgreedKeys(s));
    }
  }

  /** Every record handed to a client is attested by two sources, whether or not the sources match. */
  lemma ResolvedAreAttested(s: Sources, c: Comparison, r: ResolvedRecord)
    requires c.isMatch <==> Corroborated(s)
    requires r in ToResolvedRecords(s, c)
    ensures Attested(s, Key(r.rtype, r.data))
  {
    ResolvedKeysExactly(s, c);
    var out := ToResolvedRecords(s, c);
    var i :| 0 <= i < |out| && out[i] == r;
    assert Key(out[i].rtype, out[i].data) in ResolvedKeys(out);
  }

  /** An attested key is not always returned. It is exactly when the DNS has it or is empty (the
      sources match), or when the API has it (they do not). */
  lemma AttestedIsReturnedIff(s: Sources, c: Comparison, key: string)
    requires c.isMatch <==> Corroborated(s)
    requires Attested(s, key)
    ensures key in ResolvedKeys(ToResolvedRecords(s, c)) <==>
            if c.isMatch then s.dns == [] || key in DnsKeys(s) else key in ApiKeys(s)
  {
    ResolvedKeysExactly(s, c);
  }

  /** An address that the API and the relays report, while the DNS answers with a text record the API also has: the
      sources match, and the resolution leaves the address out. */
  lemma AttestedNotReturned(fqdn: string)
    ensures var s := Sources(
              [ApiRecord("A", fqdn, 60, "192.0.2.1"), ApiRecord("TXT", fqdn, 60, "hi")],
              [NostrRecord("A", fqdn, 60, "192.0.2.1")],
              [DnsAnswer("TXT", fqdn, 60, "hi")]);
            && Corroborated(s) && Attested(s, "A:192.0.2.1")
            && forall c: Comparison | c.isMatch :: "A:192.0.2.1" !in ResolvedKeys(ToResolvedRecords(s, c))
  {
    var (a, t) := (ApiRecord("A", fqdn, 60, "192.0.2.1"), ApiRecord("TXT", fqdn, 60, "hi"));
    var s := Sources([a, t], [NostrRecord("A", fqdn, 60, "192.0.2.1")], [DnsAnswer("TXT", fqdn, 60, "hi")]);
    assert Key("A", "192.0.2.1") == "A:192.0.2.1" && Key("TXT", "hi") == "TXT:hi";
    assert s.api[0] == a && s.api[1] == t && s.nostr[0].rtype == "A" && s.dns[0].rtype == "TXT";
    assert ApiKeys(s) == {"A:192.0.2.1", "TXT:hi"};
    assert NostrKeys(s) == {"A:192.0.2.1"} && DnsKeys(s) == {"TXT:hi"};
    assert "A:192.0.2.1"[0] != "TXT:hi"[0];
    forall c: Comparison | c.isMatch ensures "A:192.0.2.1" !in ResolvedKeys(ToResolvedRecords(s, c)) {
      AttestedIsReturnedIff(s, c, "A:192.0.2.1");
    }
  }

  /** A resolved record with a source record's own type, name, TTL and data. */
  predicate Copies(r: ResolvedRecord, rtype: string, name: string, ttl: nat, data: string) {
    r.rtype == rtype && r.name == name && r.ttl == ttl && r.data == data && r.source == "dns"
  }

  /** `out` is what the records at the positions `at` become, and these are the ones whose key is among `keys`. */
  ghost predicate Selects(rs: seq<ApiRecord>, keys: set<string>, out: seq<ResolvedRecord>, at: seq<nat>) {
    && |at| == |out|
    && (forall k | 0 <= k < |at| :: at[k] < |rs| && out[k] == FromApi(rs[at[k]]))
    && (forall k, l | 0 <= k < l < |at| :: at[k] < at[l])
    && (forall i: nat | i < |rs| :: i in at <==> Key(rs[i].rtype, rs[i].rdata) in keys)
  }

  lemma OneMoreSelected(rs: seq<ApiRecord>, keys: set<string>, out: seq<ResolvedRecord>, at: seq<nat>)
    requires rs != [] && Selects(rs[..|rs| - 1], keys, out, at)
    ensures var (n, r) := (|rs| - 1, rs[|rs| - 1]);
            if Key(r.rtype, r.rdata) in keys then Selects(rs, keys, out + [FromApi(r)], at + [n])
            else Selects(rs, keys, out, at)
  {
    var n := |rs| - 1;
    assert forall i: nat | i < n :: rs[..n][i] == rs[i];
    assert n !in at;
    forall i: nat | i < |rs| ensures i in at + [n] <==> i in at || i == n {
    }
  }

  lemma {:induction false} SelectedInOrder(rs: seq<ApiRecord>, keys: set<string>) returns (at: seq<nat>)
    ensures Selects(rs, keys, SelectApi(rs, keys), at)
  {
    at := [];
    if rs != [] {
      var n := |rs| - 1;
      at := SelectedInOrder(rs[..n], keys);
      var out := SelectApi(rs[..n], keys);
      OneMoreSelected(rs, keys, out, at);
      if Key(rs[n].rtype, rs[n].rdata) in keys {
        at := at + [n];
      } else {
        assert out + [] == out;
      }
    }
  }

  /** The records a resolution returns, one by one: on a match the DNS answers, or the API records where the DNS has
      none; otherwise, in their order, the API records whose key another source has. Types, names, TTLs and data are the
      source's own. */
  lemma ResolvedRecordsExactly(s: Sources, c: Comparison) returns (at: seq<nat>)
    ensures var out := ToResolvedRecords(s, c);
            if c.isMatch && s.dns != [] then
              && |out| == |s.dns|
              && forall i | 0 <= i < |out| :: Copies(out[i], s.dns[i].rtype, s.dns[i].name, s.dns[i].ttl, s.dns[i].data)
            else
              && |at| == |out|
              && (forall k | 0 <= k < |at| :: at[k] < |s.api| &&
                    Copies(out[k], s.api[at[k]].rtype, s.api[at[k]].fqdn, s.api[at[k]].ttl, s.api[at[k]].rdata))
              && (forall k, l | 0 <= k < l < |at| :: at[k] < at[l])
              && (forall i: nat | i < |s.api| ::
                    i in at <==> c.isMatch || Key(s.api[i].rtype, s.api[i].rdata) in NostrKeys(s) + DnsKeys(s))
  {
    if c.isMatch {
      at := seq(|s.api|, i requires 0 <= i < |s.api| => i);
      forall i: nat | i < |s.api| ensures i in at {
        assert at[i] == i;
      }
    } else {
      at := SelectedInOrder(s.api, AgreedKeys(s));
      assert forall i: nat | i < |s.api| :: Key(s.api[i].rtype, s.api[i].rdata) in ApiKeys(s);
    }
  }

  // -------------------------------------------------------------------------
  // From keys to records
  // -------------------------------------------------------------------------

  lemma KeyIsInjective(t: string, d: string, t': string, d': string)
    requires ':' !in t && ':' !in t'
    requires Key(t, d) == Key(t', d')
    ensures t == t' && d == d'
  {
    SplitOnceAt(t, ':', d);
    SplitOnceAt(t', ':', d');
  }

  ghost predicate PlainTypes(s: Sources) {
    && (forall i | 0 <= i < |s.api| :: ':' !in s.api[i].rtype)
    && (forall i | 0 <= i < |s.nostr| :: ':' !in s.nostr[i].rtype)
    && (forall i | 0 <= i < |s.dns| :: ':' !in s.dns[i].rtype)
  }

  ghost predicate InApi(s: Sources, t: string, d: string) {
    exists i | 0 <= i < |s.api| :: s.api[i].rtype == t && s.api[i].rdata == d
  }

  ghost predicate InNostr(s: Sources, t: string, d: string) {
    exists i | 0 <= i < |s.nostr| :: s.nostr[i].rtype == t && s.nostr[i].value == d
  }

  ghost predicate InDns(s: Sources, t: string, d: string) {
    exists i | 0 <= i < |s.dns| :: s.dns[i].rtype == t && s.dns[i].data == d
  }

  lemma KeysAreRecords(s: Sources, t: string, d: string)
    requires PlainTypes(s) && ':' !in t
    ensures Key(t, d) in ApiKeys(s) <==> InApi(s, t, d)
    ensures Key(t, d) in NostrKeys(s) <==> InNostr(s, t, d)
    ensures Key(t, d) in DnsKeys(s) <==> InDns(s, t, d)
  {
    if Key(t, d) in ApiKeys(s) {
      var i :| 0 <= i < |s.api| && Key(s.api[i].rtype, s.api[i].rdata) == Key(t, d);
      KeyIsInjective(s.api[i].rtype, s.api[i].rdata, t, d);
    }
    if Key(t, d) in NostrKeys(s) {
      var i :| 0 <= i < |s.nostr| && Key(s.nostr[i].rtype, s.nostr[i].value) == Key(t, d);
      KeyIsInjective(s.nostr[i].rtype, s.nostr[i].value, t, d);
    }
    if Key(t, d) in DnsKeys(s) {
      var i :| 0 <= i < |s.dns| && Key(s.dns[i].rtype, s.dns[i].data) == Key(t, d);
      KeyIsInjective(s.dns[i].rtype, s.dns[i].data, t, d);
    }
  }

  /** With record types free of ':', the returned type and data themselves stand in two sources. */
  lemma ResolvedStandInTwoSources(s: Sources, c: Comparison, r: ResolvedRecord)
    requires c.isMatch <==> Corroborated(s)
    requires PlainTypes(s) && r in ToResolvedRecords(s, c)
    ensures || (InApi(s, r.rtype, r.data) && InNostr(s, r.rtype, r.data))
            || (InApi(s, r.rtype, r.data) && InDns(s, r.rtype, r.data))
            || (InNostr(s, r.rtype, r.data) && InDns(s, r.rtype, r.data))
  {
    ResolvedAreAttested(s, c, r);
    if !c.isMatch {
      SelectedTypesArePlain(s.api, AgreedKeys(s), r);
    }
    assert ':' !in r.rtype;
    KeysAreRecords(s, r.rtype, r.data);
  }

  lemma {:induction false} SelectedTypesArePlain(rs: seq<ApiRecord>, keys: set<string>, r: ResolvedRecord)
    requires forall i | 0 <= i < |rs| :: ':' !in rs[i].rtype
    requires r in SelectApi(rs, keys)
    ensures ':' !in r.rtype
  {
    if r in SelectApi(rs[..|rs| - 1], keys) {
      SelectedTypesArePlain(rs[..|rs| - 1], keys, r);
    }
  }
}
