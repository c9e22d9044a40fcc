/** Which key may write which name. */
module Authority {
  import opened Text
  import opened Delegations

  /** Encoding of public keys as npubs: a parameter, since the encoding is a library's. */
  datatype Bech32 = Bech32(encode: string -> Option<string>)

  predicate IsNpubName(name: string) {
    StartsWith(name, "npub1")
  }

  ghost predicate Lawful(codec: Bech32) {
    && (forall k, k' :: codec.encode(k).Some? && codec.encode(k) == codec.encode(k') ==> k == k')
    && (forall k :: codec.encode(k).Some? ==> IsNpubName(codec.encode(k).value) && '.' !in codec.encode(k).value)
  }

  datatype AuthError =
    | NpubEncoding
    | NpubMismatch(name: string, npub: string)
    | DomainNotInZone(fqdn: string, zone: string)
    | NoActiveDelegation(domain: string, zone: string)
    | DelegationInGrace(domain: string, zone: string)
    | DelegationAssignedToOther(domain: string, zone: string, assignee: string, signer: string)

  function CheckDelegation(table: Table, domain: string, zone: string, npub: string): Result<(), AuthError> {
    var key := NameKey(domain, zone);
    if key !in table then Err(NoActiveDelegation(domain, zone))
    else
      var del := table[key];
      match del.status
      case Expired => Err(NoActiveDelegation(domain, zone))
      case Grace => Err(DelegationInGrace(domain, zone))
      case Active =>
        if del.npub != npub then Err(DelegationAssignedToOther(domain, zone, del.npub, npub)) else Ok(())
  }

  function CheckCustomName(table: Table, fqdn: string, zone: string, npub: string): Result<(), AuthError> {
    match SplitOnce(fqdn, '.')
    case None => CheckDelegation(table, fqdn, zone, npub)
    case Some((domain, last)) =>
      if last != zone then Err(DomainNotInZone(fqdn, zone)) else CheckDelegation(table, domain, zone, npub)
  }

  function CheckNameInZone(
    table: Table, fqdn: string, prefix: string, zone: string, npub: string): Result<(), AuthError>
  {
    if IsNpubName(prefix) then
      if prefix == npub then Ok(()) else Err(NpubMismatch(prefix, npub))
    else
      match LastIndex(prefix, '.')
      case Some(dot) =>
        var last := prefix[dot + 1..];
        if IsNpubName(last) then
          if last == npub then Ok(()) else Err(NpubMismatch(last, npub))
        else CheckCustomName(table, fqdn, zone, npub)
      case None => CheckCustomName(table, fqdn, zone, npub)
  }

  function CheckTrimmed(table: Table, fqdn: string, zone: string, npub: string): Result<(), AuthError> {
    if EndsWith(fqdn, "." + zone)
    then CheckNameInZone(table, fqdn, fqdn[..|fqdn| - |zone| - 1], zone, npub)
    else CheckCustomName(table, fqdn, zone, npub)
  }

  function CheckAuthority(
    codec: Bech32, table: Table, name: string, zone: string, pubkey: string): Result<(), AuthError>
  {
    match codec.encode(pubkey)
    case None => Err(NpubEncoding)
    case Some(npub) => CheckTrimmed(table, TrimEnd(name, '.'), zone, npub)
  }

  // -------------------------------------------------------------------------
  // Ownership, without reference to a signer
  // -------------------------------------------------------------------------

  function LastLabel(s: string): string {
    match LastIndex(s, '.')
    case None => s
    case Some(dot) => s[dot + 1..]
  }

  /** The npub an active row assigns a domain to. */
  function Holder(table: Table, domain: string, zone: string): Option<string> {
    var key := NameKey(domain, zone);
    if key in table && table[key].status.Active? then Some(table[key].npub) else None
  }

  /** Who owns what stands left of the zone: a single label belongs to the npub it spells or to its
      delegate; anything deeper only to an npub spelled by the label next to the zone, and
      to nobody when it begins with "npub1". */
  function OwnerOfPrefix(table: Table, prefix: string, zone: string): Option<string> {
    if '.' !in prefix then
      if IsNpubName(prefix) then Some(prefix) else Holder(table, prefix, zone)
    else if IsNpubName(prefix) || !IsNpubName(LastLabel(prefix)) then None
    else Some(LastLabel(prefix))
  }

  function OwnerOf(table: Table, name: string, zone: string): Option<string> {
    OwnerOfTrimmed(table, TrimEnd(name, '.'), zone)
  }

  function OwnerOfTrimmed(table: Table, fqdn: string, zone: string): Option<string> {
    if EndsWith(fqdn, "." + zone) then OwnerOfPrefix(table, fqdn[..|fqdn| - |zone| - 1], zone)
    else if '.' !in fqdn then Holder(table, fqdn, zone)
    else None
  }

  lemma ConcatSplits(fqdn: string, zone: string)
    requires EndsWith(fqdn, "." + zone)
    ensures fqdn == fqdn[..|fqdn| - |zone| - 1] + ['.'] + zone
  {
    assert fqdn == fqdn[..|fqdn| - |zone| - 1] + fqdn[|fqdn| - |zone| - 1..];
    assert "." + zone == ['.'] + zone;
  }

  lemma CustomInZone(table: Table, fqdn: string, zone: string, npub: string)
    requires EndsWith(fqdn, "." + zone)
    ensures var prefix := fqdn[..|fqdn| - |zone| - 1];
            CheckCustomName(table, fqdn, zone, npub).Ok? <==>
            '.' !in prefix && Holder(table, prefix, zone) == Some(npub)
  {
    var prefix := fqdn[..|fqdn| - |zone| - 1];
    ConcatSplits(fqdn, zone);
    if '.' in prefix {
      var (a, b) := SplitOnce(prefix, '.').value;
      assert fqdn == a + ['.'] + (b + ['.'] + zone);
      SplitOnceAt(a, '.', b + ['.'] + zone);
      assert |b + ['.'] + zone| > |zone|;
    } else {
      SplitOnceAt(prefix, '.', zone);
    }
  }

  lemma CustomOutsideZone(table: Table, fqdn: string, zone: string, npub: string)
    requires !EndsWith(fqdn, "." + zone)
    ensures CheckCustomName(table, fqdn, zone, npub).Ok? <==>
            '.' !in fqdn && Holder(table, fqdn, zone) == Some(npub)
  {
    if '.' in fqdn {
      var (a, b) := SplitOnce(fqdn, '.').value;
      assert fqdn[|a|..] == "." + b;
    }
  }

  lemma NameInZoneOwner(table: Table, fqdn: string, zone: string, npub: string)
    requires EndsWith(fqdn, "." + zone) && IsNpubName(npub) && '.' !in npub
    ensures var prefix := fqdn[..|fqdn| - |zone| - 1];
            CheckNameInZone(table, fqdn, prefix, zone, npub).Ok? <==>
            OwnerOfPrefix(table, prefix, zone) == Some(npub)
  {
    CustomInZone(table, fqdn, zone, npub);
  }

  lemma TrimmedOwner(table: Table, fqdn: string, zone: string, npub: string)
    requires IsNpubName(npub) && '.' !in npub
    ensures CheckTrimmed(table, fqdn, zone, npub).Ok? <==> OwnerOfTrimmed(table, fqdn, zone) == Some(npub)
  {
    if EndsWith(fqdn, "." + zone) {
      NameInZoneOwner(table, fqdn, zone, npub);
    } else {
      CustomOutsideZone(table, fqdn, zone, npub);
    }
  }

  /** Authority is granted exactly to the key whose npub owns the name. */
  lemma AuthorityIsOwnership(codec: Bech32, table: Table, name: string, zone: string, pubkey: string)
    requires Lawful(codec)
    ensures CheckAuthority(codec, table, name, zone, pubkey).Ok? <==>
            codec.encode(pubkey).Some? && OwnerOf(table, name, zone) == codec.encode(pubkey)
  {
    if codec.encode(pubkey).Some? {
      TrimmedOwner(table, TrimEnd(name, '.'), zone, codec.encode(pubkey).value);
    }
  }

  /** At most one key is ever granted a name, by whichever path. */
  lemma ExclusiveAuthority(codec: Bech32, table: Table, name: string, zone: string, k: string, k': string)
    requires Lawful(codec)
    requires CheckAuthority(codec, table, name, zone, k).Ok?
    requires CheckAuthority(codec, table, name, zone, k').Ok?
    ensures k == k'
  {
    AuthorityIsOwnership(codec, table, name, zone, k);
    AuthorityIsOwnership(codec, table, name, zone, k');
  }

  // -------------------------------------------------------------------------
  // The names a signer writes
  // -------------------------------------------------------------------------

  predicate ZoneOk(zone: string) {
    zone != "" && zone[|zone| - 1] != '.'
  }

  /** `{prefix}.{zone}.` */
  function InZone(prefix: string, zone: string): string {
    prefix + "." + zone + "."
  }

  lemma InZoneIsInjective(a: string, b: string, zone: string)
    requires InZone(a, zone) == InZone(b, zone)
    ensures a == b
  {
    assert |a| == |b|;
    assert a == InZone(a, zone)[..|a|] && b == InZone(b, zone)[..|b|];
  }

  predicate IsApex(name: string) {
    name == "@" || name == ""
  }

  /** The label path a record name takes under an owner. */
  function Under(name: string, owner: string): string {
    if IsApex(name) then owner else name + "." + owner
  }

  /** `resolve_fqdn`, given the store's first delegation of the npub in the zone, if any. */
  function ResolveFqdn(delegated: Option<string>, npub: string, name: string, zone: string): string {
    match delegated
    case Some(domain) => InZone(Under(name, domain), zone)
    case None => InZone(Under(name, npub), zone)
  }

  predicate InForce(row: Row, npub: string, now: int) {
    row.npub == npub && row.validFrom <= now < row.validUntil && row.status.Active?
  }

  /** What the store may answer when asked for the npub's delegations in a zone, newest first. */
  ghost predicate FirstDelegation(table: Table, npub: string, zone: string, now: int, answer: Option<string>) {
    match answer
    case None => forall key | key in table && key.zone == zone :: !InForce(table[key], npub, now)
    case Some(domain) =>
      var mine := NameKey(domain, zone);
      && mine in table && InForce(table[mine], npub, now)
      && forall key | key in table && key.zone == zone && InForce(table[key], npub, now) ::
           table[key].createdAt <= table[mine].createdAt
  }

  lemma TrimmedInZone(prefix: string, zone: string)
    requires ZoneOk(zone)
    ensures TrimEnd(InZone(prefix, zone), '.') == prefix + "." + zone
  {
    var full := prefix + "." + zone;
    TrimEndAppend(full, '.');
    assert full[|full| - 1] == zone[|zone| - 1];
  }

  lemma PrefixInZone(prefix: string, zone: string)
    ensures var full := prefix + "." + zone;
            EndsWith(full, "." + zone) && full[..|full| - |zone| - 1] == prefix
  {
    var full := prefix + "." + zone;
    assert full[|prefix|..] == "." + zone;
  }

  lemma OwnerInZone(table: Table, prefix: string, zone: string)
    requires ZoneOk(zone)
    ensures OwnerOf(table, InZone(prefix, zone), zone) == OwnerOfPrefix(table, prefix, zone)
  {
    TrimmedInZone(prefix, zone);
    PrefixInZone(prefix, zone);
  }

  /** A delegated domain whose apex its holder can write. */
  predicate Grantable(domain: string, npub: string) {
    if '.' in domain then !IsNpubName(domain) && LastLabel(domain) == npub
    else !IsNpubName(domain) || domain == npub
  }

  /** The apex `resolve_fqdn` yields for a signer is granted to that signer exactly when the
      delegated domain, if there is one, is a single label that is not another's npub (or hangs
      below the signer's own npub). */
  lemma ApexGrantedIff(
    codec: Bech32, table: Table, pubkey: string, zone: string, now: int, delegated: Option<string>, name: string)
    requires Lawful(codec) && codec.encode(pubkey).Some? && ZoneOk(zone) && IsApex(name)
    requires FirstDelegation(table, codec.encode(pubkey).value, zone, now, delegated)
    ensures var npub := codec.encode(pubkey).value;
            CheckAuthority(codec, table, ResolveFqdn(delegated, npub, name, zone), zone, pubkey).Ok? <==>
            delegated.None? || Grantable(delegated.value, npub)
  {
    var npub := codec.encode(pubkey).value;
    var prefix := if delegated.Some? then delegated.value else npub;
    assert ResolveFqdn(delegated, npub, name, zone) == InZone(prefix, zone);
    OwnerInZone(table, prefix, zone);
    AuthorityIsOwnership(codec, table, InZone(prefix, zone), zone, pubkey);
    assert IsNpubName(npub) && '.' !in npub;
  }

  /** A table that delegates one domain to an npub. */
  function OneDelegation(domain: string, npub: string): Table {
    map[NameKey(domain, "z") := Row("e", npub, "", 0, 100, 70, "", 0, Active, 0)]
  }

  /** A delegated domain of two labels resolves for its holder, and its apex is not granted to it. */
  lemma DottedApexRefused(codec: Bech32, pubkey: string)
    requires Lawful(codec) && codec.encode(pubkey).Some?
    ensures var (npub, table) := (codec.encode(pubkey).value, OneDelegation("a.b", codec.encode(pubkey).value));
            && FirstDelegation(table, npub, "z", 1, Some("a.b"))
            && CheckAuthority(codec, table, ResolveFqdn(Some("a.b"), npub, "@", "z"), "z", pubkey).Err?
  {
    ApexGrantedIff(codec, OneDelegation("a.b", codec.encode(pubkey).value), pubkey, "z", 1, Some("a.b"), "@");
    assert "a" + "." + "b" == "a.b" && "a.b"[1] == '.';
    LastLabelOfLonger("a", "b");
    assert LastLabel("b") == "b";
  }

  /** So does a delegated domain that spells another key's npub. */
  lemma ForeignNpubApexRefused(codec: Bech32, pubkey: string, other: string)
    requires Lawful(codec) && codec.encode(pubkey).Some? && codec.encode(other).Some? && pubkey != other
    ensures var (npub, domain) := (codec.encode(pubkey).value, codec.encode(other).value);
            var table := OneDelegation(domain, npub);
            && FirstDelegation(table, npub, "z", 1, Some(domain))
            && CheckAuthority(codec, table, ResolveFqdn(Some(domain), npub, "@", "z"), "z", pubkey).Err?
  {
    var (npub, domain) := (codec.encode(pubkey).value, codec.encode(other).value);
    ApexGrantedIff(codec, OneDelegation(domain, npub), pubkey, "z", 1, Some(domain), "@");
  }

  /** Every domain a claim can create is grantable. */
  lemma ClaimedIsGrantable(domain: string, npub: string)
    requires IsDnsLabel(domain) && !IsNpubName(domain)
    ensures Grantable(domain, npub)
  {
    LabelsAreDotFree(domain);
  }

  /** Who may write a custom name: the key whose npub an active row assigns it to, and what the others are told. */
  lemma CustomGrantedIff(codec: Bech32, table: Table, domain: string, zone: string, pubkey: string)
    requires Lawful(codec) && ZoneOk(zone) && '.' !in domain && !IsNpubName(domain)
    ensures var key := NameKey(domain, zone);
            CheckAuthority(codec, table, InZone(domain, zone), zone, pubkey) ==
            match codec.encode(pubkey)
            case None => Err(NpubEncoding)
            case Some(npub) =>
              if key !in table || table[key].status == Expired then Err(NoActiveDelegation(domain, zone))
              else if table[key].status == Grace then Err(DelegationInGrace(domain, zone))
              else if table[key].npub != npub then Err(DelegationAssignedToOther(domain, zone, table[key].npub, npub))
              else Ok(())
  {
    TrimmedInZone(domain, zone);
    if codec.encode(pubkey).Some? {
      SingleLabel(table, domain, zone, codec.encode(pubkey).value);
    }
  }

  lemma SingleLabel(table: Table, domain: string, zone: string, npub: string)
    requires '.' !in domain && !IsNpubName(domain)
    ensures CheckTrimmed(table, domain + "." + zone, zone, npub) == CheckDelegation(table, domain, zone, npub)
  {
    PrefixInZone(domain, zone);
    SplitOnceAt(domain, '.', zone);
    assert domain + "." + zone == domain + ['.'] + zone;
  }

  /** Who may write a name at or below an npub: the key that npub encodes, unless the name left of the zone begins with
      "npub1" without being the npub itself. */
  lemma NpubGrantedIff(codec: Bech32, table: Table, name: string, npub: string, zone: string, pubkey: string)
    requires Lawful(codec) && ZoneOk(zone) && IsNpubName(npub) && '.' !in npub
    ensures CheckAuthority(codec, table, InZone(Under(name, npub), zone), zone, pubkey).Ok? <==>
            codec.encode(pubkey) == Some(npub) && (IsApex(name) || !StartsWith(name + "." + npub, "npub1"))
  {
    OwnerInZone(table, Under(name, npub), zone);
    OwnerUnderNpub(table, name, npub, zone);
    AuthorityIsOwnership(codec, table, InZone(Under(name, npub), zone), zone, pubkey);
  }

  /** A name of another zone is granted to nobody. */
  lemma OutsideZoneRefused(codec: Bech32, table: Table, name: string, zone: string, pubkey: string)
    requires Lawful(codec) && !EndsWith(TrimEnd(name, '.'), "." + zone) && '.' in TrimEnd(name, '.')
    ensures CheckAuthority(codec, table, name, zone, pubkey).Err?
  {
    AuthorityIsOwnership(codec, table, name, zone, pubkey);
  }

  // -------------------------------------------------------------------------
  // Names deeper in the tree
  // -------------------------------------------------------------------------

  lemma TailOfLonger(a: string, s: string, k: nat)
    requires k <= |s|
    ensures (a + "." + s)[|a| + 1 + k..] == s[k..]
  {
  }

  lemma LastLabelOfLonger(a: string, s: string)
    ensures LastLabel(a + "." + s) == LastLabel(s)
  {
    LastDot(a, s);
    var dot := LastIndex(s, '.');
    TailOfLonger(a, s, if dot.None? then 0 else dot.value + 1);
  }

  lemma LastDot(a: string, s: string)
    ensures LastIndex(a + "." + s, '.') ==
            match LastIndex(s, '.') case None => Some(|a|) case Some(dot) => Some(|a| + 1 + dot)
  {
    var all := a + "." + s;
    match LastIndex(s, '.')
    case None => LastIndexIs(all, '.', |a|);
    case Some(dot) =>
      LastIndexIs(all, '.', |a| + 1 + dot);
  }

  /** A name below an npub belongs to that npub, unless it begins with "npub1". */
  lemma OwnerUnderNpub(table: Table, name: string, npub: string, zone: string)
    requires IsNpubName(npub) && '.' !in npub
    ensures OwnerOfPrefix(table, Under(name, npub), zone) ==
            if !IsApex(name) && IsNpubName(Under(name, npub)) then None else Some(npub)
  {
    if !IsApex(name) {
      LastLabelOfLonger(name, npub);
      assert (name + "." + npub)[|name|] == '.';
    }
  }

  /** Names below a delegated label are granted to nobody. */
  lemma SubdomainsOfDelegatedRefused(
    codec: Bech32, table: Table, npub: string, name: string, domain: string, zone: string, pubkey: string)
    requires Lawful(codec) && ZoneOk(zone)
    requires !IsApex(name) && '.' !in domain && !IsNpubName(domain)
    ensures CheckAuthority(codec, table, ResolveFqdn(Some(domain), npub, name, zone), zone, pubkey).Err?
  {
    var prefix := name + "." + domain;
    LastLabelOfLonger(name, domain);
    assert prefix[|name|] == '.';
    OwnerInZone(table, prefix, zone);
    AuthorityIsOwnership(codec, table, InZone(prefix, zone), zone, pubkey);
  }

  /** Where the proof of a record is kept. */
  function ProofName(fqdn: string): string {
    "_nodns." + fqdn
  }

  lemma ProofIsInjective(a: string, b: string)
    requires ProofName(a) == ProofName(b)
    ensures a == b
  {
    assert a == ProofName(a)[7..] && b == ProofName(b)[7..];
  }

  lemma ProofIsDeeper(prefix: string, zone: string)
    ensures ProofName(InZone(prefix, zone)) == InZone("_nodns" + "." + prefix, zone)
  {
    assert "_nodns." == "_nodns" + ".";
  }

  lemma DeeperOwner(table: Table, prefix: string, zone: string)
    ensures OwnerOfPrefix(table, "_nodns" + "." + prefix, zone) ==
            if IsNpubName(LastLabel(prefix)) then Some(LastLabel(prefix)) else None
  {
    var deeper := "_nodns" + "." + prefix;
    LastLabelOfLonger("_nodns", prefix);
    assert deeper[6] == '.';
    assert deeper[0] == '_' && "npub1"[0] == 'n';
  }

  /** The proof name of an owned name belongs to the same owner or to nobody. */
  lemma ProofNameOwner(table: Table, prefix: string, zone: string)
    requires ZoneOk(zone) && OwnerOfPrefix(table, prefix, zone).Some?
    ensures var owner := OwnerOf(table, ProofName(InZone(prefix, zone)), zone);
            owner.None? || owner == OwnerOfPrefix(table, prefix, zone)
  {
    ProofIsDeeper(prefix, zone);
    OwnerInZone(table, "_nodns" + "." + prefix, zone);
    DeeperOwner(table, prefix, zone);
  }
}
