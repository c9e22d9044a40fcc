/** What a lease is for: while it runs, its holder and nobody else may write the name. */
module LeaseAuthority {
  import opened Text
  import opened Delegations
  import opened Authority
  import opened Leases

  /** From the step that accepts a claim until the end it asked for, and in every state of every run
      in between, the claimed name is granted to the claimant's key and to no other. */
  lemma LeaseGivesAuthority(
    codec: Bech32, zones: seq<ZoneConfig>, start: Table, steps: seq<Step>, key: NameKey, i: nat, j: nat, pubkey: string)
    requires Authority.Lawful(codec)
    requires i < j <= |steps| && Claims(zones, TableAt(zones, start, steps, i), steps[i], key)
    requires IsDnsLabel(key.domain) && ZoneOk(key.zone)
    requires codec.encode(steps[i].event.pubkey) == Some(steps[i].event.npub)
    requires forall m | i < m < j :: steps[m].at < steps[i].claim.validUntil
    ensures CheckAuthority(codec, TableAt(zones, start, steps, j), InZone(key.domain, key.zone), key.zone, pubkey).Ok?
            <==> pubkey == steps[i].event.pubkey
  {
    LeaseIsHeld(zones, start, steps, key, i, j);
    ClaimedIsNotNpub(zones, TableAt(zones, start, steps, i), steps[i], key);
    HolderIsGranted(codec, TableAt(zones, start, steps, j), key, steps[i].event, steps[i].at,
                    steps[i].claim.validUntil, pubkey);
  }

  lemma HolderIsGranted(
    codec: Bech32, table: Table, key: NameKey, holder: Signed, from: int, end: int, pubkey: string)
    requires Authority.Lawful(codec) && HeldUntil(table, key, holder, from, end)
    requires IsDnsLabel(key.domain) && ZoneOk(key.zone) && !IsNpubName(key.domain)
    requires codec.encode(holder.pubkey) == Some(holder.npub)
    ensures CheckAuthority(codec, table, InZone(key.domain, key.zone), key.zone, pubkey).Ok? <==>
            pubkey == holder.pubkey
  {
    LabelsAreDotFree(key.domain);
    assert key == NameKey(key.domain, key.zone);
    OwnerInZone(table, key.domain, key.zone);
    AuthorityIsOwnership(codec, table, InZone(key.domain, key.zone), key.zone, pubkey);
  }

  /** Throughout the lease the holder's events resolve to a delegated name of the zone, not to its npub. */
  lemma LeaseResolves(
    zones: seq<ZoneConfig>, start: Table, steps: seq<Step>, key: NameKey, i: nat, j: nat,
    now: int, answer: Option<string>)
    requires i < j <= |steps|
    requires Claims(zones, TableAt(zones, start, steps, i), steps[i], key)
    requires forall m | i < m < j :: steps[m].at < steps[i].claim.validUntil
    requires steps[i].at <= now < steps[i].claim.validUntil
    requires FirstDelegation(TableAt(zones, start, steps, j), steps[i].event.npub, key.zone, now, answer)
    ensures answer.Some?
  {
    LeaseIsHeld(zones, start, steps, key, i, j);
    assert InForce(TableAt(zones, start, steps, j)[key], steps[i].event.npub, now);
  }

  lemma ClaimedIsNotNpub(zones: seq<ZoneConfig>, table: Table, step: Step, key: NameKey)
    requires Claims(zones, table, step, key)
    ensures !IsNpubName(key.domain)
  {
  }
}
