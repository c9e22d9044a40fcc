/** The delegation table, zone configuration and registrar keys. */
module Delegations {
  import opened Text

  datatype Status = Active | Grace | Expired

  datatype NameKey = NameKey(domain: string, zone: string)

  datatype Row = Row(
    eventId: string, npub: string, pubkey: string,
    validFrom: int, validUntil: int, renewBy: int,
    registrarPubkey: string, renewalPrice: int, status: Status, createdAt: int)

  /** One row per domain and zone. */
  type Table = map<NameKey, Row>

  datatype ZoneConfig = ZoneConfig(
    zone: string, graceDays: nat, maxLeaseDays: nat, operatorExpires: Option<string>,
    createPrice: nat, storeProofs: bool)

  function FindZone(zones: seq<ZoneConfig>, zone: string): (r: Option<ZoneConfig>)
    ensures r.Some? ==> r.value in zones && r.value.zone == zone
    ensures r.None? <==> forall z | z in zones :: z.zone != zone
  {
    if zones == [] then None
    else if zones[0].zone == zone then Some(zones[0])
    else FindZone(zones[1..], zone)
  }

  /** Keys published on relays, and the configured ones they override. */
  datatype Registrars = Registrars(published: map<string, string>, configured: map<string, string>)

  function RegistrarPubkey(regs: Registrars, zone: string): Option<string> {
    if zone in regs.published && regs.published[zone] != "" then Some(regs.published[zone])
    else if zone in regs.configured then Some(regs.configured[zone])
    else None
  }

  predicate IsRegistrar(regs: Registrars, zone: string, pubkey: string) {
    RegistrarPubkey(regs, zone) == Some(pubkey)
  }

  /** `validate_dns_label` on a non-empty name. */
  predicate IsDnsLabel(name: string) {
    name == "@" ||
    (1 <= |name| <= 63 && name[0] != '-' && name[|name| - 1] != '-'
     && forall i | 0 <= i < |name| ::
          'a' <= name[i] <= 'z' || '0' <= name[i] <= '9' || name[i] == '-' || name[i] == '_')
  }

  lemma LabelsAreDotFree(name: string)
    requires IsDnsLabel(name)
    ensures '.' !in name
  {
  }
}
