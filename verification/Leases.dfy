/** Claims, renewals and expiry sweeps as transitions of the delegation table, and what every run
    of them keeps. Each step is atomic and reads the clock once. */
module Leases {
  import opened Text
  import opened Delegations
  import opened CivilDate

  const DAY: nat := 24 * 3600

  datatype ClaimRequest = ClaimRequest(name: string, zone: string, validUntil: int)
  datatype RenewalRequest = RenewalRequest(name: string, zone: string, newValidUntil: int)
  datatype Signed = Signed(eventId: string, pubkey: string, npub: string, createdAt: int)

  // -------------------------------------------------------------------------
  // Transitions
  // -------------------------------------------------------------------------

  predicate IsNameAvailable(table: Table, key: NameKey, now: int) {
    key in table ==> !((table[key].status.Active? && table[key].validUntil > now) || table[key].status.Grace?)
  }

  predicate WithinOperatorLease(z: ZoneConfig, validUntil: int) {
    var expiry := ParseOperatorExpiry(z.operatorExpires);
    expiry.Some? ==> validUntil <= expiry.value
  }

  /** The row an accepted claim writes. */
  function ClaimRow(
    zones: seq<ZoneConfig>, regs: Registrars, table: Table, req: ClaimRequest, event: Signed, now: int): Option<Row>
  {
    match FindZone(zones, req.zone)
    case None => None
    case Some(z) =>
      if StartsWith(req.name, "npub1") then None
      else if !IsRegistrar(regs, req.zone, event.pubkey) then None
      else if req.validUntil <= now then None
      else if !WithinOperatorLease(z, req.validUntil) then None
      else if !IsNameAvailable(table, NameKey(req.name, req.zone), now) then None
      else
        match RegistrarPubkey(regs, req.zone)
        case None => None
        case Some(registrar) =>
          Some(Row(event.eventId, event.npub, event.pubkey, now, req.validUntil, req.validUntil - 30 * DAY,
                   registrar, z.createPrice, Active, now))
  }

  function RenewalGrace(z: ZoneConfig): nat {
    z.graceDays * DAY
  }

  /** The row an accepted renewal writes. It is the event's date, not the clock, that is compared. */
  function RenewedRow(zones: seq<ZoneConfig>, table: Table, req: RenewalRequest, event: Signed): Option<Row> {
    var key := NameKey(req.name, req.zone);
    match FindZone(zones, req.zone)
    case None => None
    case Some(z) =>
      if key !in table then None
      else
        var row := table[key];
        var extension := z.maxLeaseDays * DAY;
        var limit :=
          if row.validUntil >= event.createdAt then row.validUntil + extension else event.createdAt + extension;
        if row.pubkey != event.pubkey then None
        else if event.createdAt >= row.validUntil + RenewalGrace(z) then None
        else if req.newValidUntil <= row.validUntil then None
        else if req.newValidUntil > limit then None
        else if !WithinOperatorLease(z, req.newValidUntil) then None
        else Some(row.(validUntil := req.newValidUntil, renewBy := req.newValidUntil - RenewalGrace(z),
                       eventId := event.eventId, status := Active))
  }

  /** The sweep's grace period: 30 days for a zone that is no longer configured. */
  function GraceSeconds(zones: seq<ZoneConfig>, zone: string): nat {
    match FindZone(zones, zone)
    case None => 30 * DAY
    case Some(z) => z.graceDays * DAY
  }

  lemma Periods(zones: seq<ZoneConfig>, zone: string, z: ZoneConfig)
    ensures FindZone(zones, zone) == Some(z) ==> GraceSeconds(zones, zone) == z.graceDays * 86_400 == RenewalGrace(z)
    ensures FindZone(zones, zone).None? ==> GraceSeconds(zones, zone) == 30 * 86_400
  {
  }

  function SweptStatus(zones: seq<ZoneConfig>, key: NameKey, row: Row, now: int): Status {
    if row.validUntil > now || row.status.Expired? then row.status
    else if now >= row.validUntil + GraceSeconds(zones, key.zone) then Expired
    else if row.status.Active? then Grace
    else row.status
  }

  function SweepTable(zones: seq<ZoneConfig>, table: Table, now: int): Table {
    map key | key in table :: table[key].(status := SweptStatus(zones, key, table[key], now))
  }

  predicate IsPastDue(table: Table, key: NameKey, now: int) {
    key in table && table[key].validUntil <= now && !table[key].status.Expired?
  }

  /** The past-due rows as a sweep reads them: each once, the soonest end first, ties in any order. */
  ghost predicate PastDueInOrder(table: Table, now: int, due: seq<NameKey>) {
    && (forall key :: key in due <==> IsPastDue(table, key, now))
    && (forall i, j | 0 <= i < j < |due| :: due[i] != due[j])
    && (forall i, j | 0 <= i < j < |due| :: EndsNoLater(table, due[i], due[j]))
  }

  predicate EndsNoLater(table: Table, a: NameKey, b: NameKey) {
    a in table && b in table && table[a].validUntil <= table[b].validUntil
  }

  // -------------------------------------------------------------------------
  // Runs
  // -------------------------------------------------------------------------

  datatype Step =
    | Claim(at: int, regs: Registrars, claim: ClaimRequest, event: Signed)
    | Renew(at: int, renewal: RenewalRequest, event: Signed)
    | Sweep(at: int)

  function Apply(zones: seq<ZoneConfig>, table: Table, step: Step): Table {
    match step
    case Claim(at, regs, req, event) =>
      var row := ClaimRow(zones, regs, table, req, event, at);
      if row.Some? then table[NameKey(req.name, req.zone) := row.value] else table
    case Renew(_, req, event) =>
      var row := RenewedRow(zones, table, req, event);
      if row.Some? then table[NameKey(req.name, req.zone) := row.value] else table
    case Sweep(at) => SweepTable(zones, table, at)
  }

  /** The table after the first `n` steps. */
  function TableAt(zones: seq<ZoneConfig>, start: Table, steps: seq<Step>, n: nat): Table
    requires n <= |steps|
  {
    if n == 0 then start else Apply(zones, TableAt(zones, start, steps, n - 1), steps[n - 1])
  }

  /** The clock when the `n`th step begins, and the start time before any. */
  function TimeAt(t0: int, steps: seq<Step>, n: nat): int
    requires n <= |steps|
  {
    if n == 0 then t0 else steps[n - 1].at
  }

  ghost predicate ClockRuns(t0: int, steps: seq<Step>) {
    forall n | 0 <= n < |steps| :: TimeAt(t0, steps, n) <= steps[n].at
  }

  /** An accepted claim of a name, as a change of the table. */
  ghost predicate Claims(zones: seq<ZoneConfig>, table: Table, step: Step, key: NameKey) {
    && step.Claim? && NameKey(step.claim.name, step.claim.zone) == key
    && ClaimRow(zones, step.regs, table, step.claim, step.event, step.at).Some?
  }

  ghost predicate Renews(zones: seq<ZoneConfig>, table: Table, step: Step, key: NameKey) {
    && step.Renew? && NameKey(step.renewal.name, step.renewal.zone) == key
    && RenewedRow(zones, table, step.renewal, step.event).Some?
  }

  /** Step `m` of a run leaves a name alone: no claim of it and no renewal is accepted. */
  ghost predicate Quiet(zones: seq<ZoneConfig>, start: Table, steps: seq<Step>, key: NameKey, m: nat) {
    m < |steps| ==>
      && !Claims(zones, TableAt(zones, start, steps, m), steps[m], key)
      && !Renews(zones, TableAt(zones, start, steps, m), steps[m], key)
  }

  /** Step `m` accepts no renewal of the name and is not a sweep at or after `end`. */
  ghost predicate BeforeEnd(zones: seq<ZoneConfig>, start: Table, steps: seq<Step>, key: NameKey, end: int, m: nat) {
    m < |steps| ==>
      && !Renews(zones, TableAt(zones, start, steps, m), steps[m], key)
      && (steps[m].Sweep? ==> steps[m].at < end)
  }

  /** What one step can do to a name that has a row. */
  lemma StepOnRow(zones: seq<ZoneConfig>, table: Table, step: Step, key: NameKey)
    requires key in table
    ensures key in Apply(zones, table, step)
    ensures !Claims(zones, table, step, key) && !Renews(zones, table, step, key) && !step.Sweep?
            ==> Apply(zones, table, step)[key] == table[key]
    ensures step.Sweep? ==>
              Apply(zones, table, step)[key] == table[key].(status := SweptStatus(zones, key, table[key], step.at))
  {
  }

  // -------------------------------------------------------------------------
  // Statuses never run ahead of the clock
  // -------------------------------------------------------------------------

  /** The status a row should have at a time. */
  function StatusAt(zones: seq<ZoneConfig>, key: NameKey, validUntil: int, now: int): Status {
    if now < validUntil then Active
    else if now < validUntil + GraceSeconds(zones, key.zone) then Grace
    else Expired
  }

  ghost predicate NotAhead(zones: seq<ZoneConfig>, table: Table, now: int) {
    forall key | key in table ::
      && (table[key].status.Grace? ==> table[key].validUntil <= now)
      && (table[key].status.Expired? ==> table[key].validUntil + GraceSeconds(zones, key.zone) <= now)
  }

  lemma StepNotAhead(zones: seq<ZoneConfig>, table: Table, step: Step)
    requires NotAhead(zones, table, step.at)
    ensures NotAhead(zones, Apply(zones, table, step), step.at)
  {
    var next := Apply(zones, table, step);
    forall key | key in next
      ensures next[key].status.Grace? ==> next[key].validUntil <= step.at
      ensures next[key].status.Expired? ==> next[key].validUntil + GraceSeconds(zones, key.zone) <= step.at
    {
      if key in table {
        StepOnRow(zones, table, step, key);
      }
      WrittenIsActive(zones, table, step, key);
    }
  }

  lemma WrittenIsActive(zones: seq<ZoneConfig>, table: Table, step: Step, key: NameKey)
    ensures Claims(zones, table, step, key) || Renews(zones, table, step, key) ==>
              key in Apply(zones, table, step) && Apply(zones, table, step)[key].status.Active?
    ensures key !in table && !Claims(zones, table, step, key) ==> key !in Apply(zones, table, step)
  {
  }

  lemma {:induction false} NeverAhead(zones: seq<ZoneConfig>, start: Table, t0: int, steps: seq<Step>, n: nat)
    requires n <= |steps| && ClockRuns(t0, steps) && NotAhead(zones, start, t0)
    ensures NotAhead(zones, TableAt(zones, start, steps, n), TimeAt(t0, steps, n))
  {
    if n > 0 {
      NeverAhead(zones, start, t0, steps, n - 1);
      assert TimeAt(t0, steps, n - 1) <= steps[n - 1].at;
      StepNotAhead(zones, TableAt(zones, start, steps, n - 1), steps[n - 1]);
    }
  }

  /** In every run, each sweep leaves every row with the status its dates call for at that time. */
  lemma SweepRefinesTheClock(zones: seq<ZoneConfig>, start: Table, t0: int, steps: seq<Step>, n: nat, key: NameKey)
    requires n < |steps| && ClockRuns(t0, steps) && NotAhead(zones, start, t0)
    requires steps[n].Sweep? && key in TableAt(zones, start, steps, n)
    ensures key in TableAt(zones, start, steps, n + 1)
    ensures var row := TableAt(zones, start, steps, n + 1)[key];
            row.status == StatusAt(zones, key, row.validUntil, steps[n].at)
  {
    NeverAhead(zones, start, t0, steps, n);
    assert TimeAt(t0, steps, n) <= steps[n].at;
  }

  /** Sweeping again at the same time changes nothing, from any table. */
  lemma SweepIsIdempotent(zones: seq<ZoneConfig>, table: Table, now: int)
    ensures SweepTable(zones, SweepTable(zones, table, now), now) == SweepTable(zones, table, now)
  {
  }

  /** After a sweep at `now`, a name is free exactly when its grace is over. */
  lemma SweepDecidesAvailability(zones: seq<ZoneConfig>, table: Table, key: NameKey, now: int)
    requires key in table && NotAhead(zones, table, now)
    ensures IsNameAvailable(SweepTable(zones, table, now), key, now) <==>
            now >= table[key].validUntil + GraceSeconds(zones, key.zone)
  {
    assert SweepTable(zones, table, now)[key].status == SweptStatus(zones, key, table[key], now);
  }

  /** Whether a sweep ran at or after `end` between steps `i` and `j`. */
  ghost predicate SweptSince(steps: seq<Step>, end: int, i: nat, j: nat) {
    exists m | i <= m < j && m < |steps| :: steps[m].Sweep? && steps[m].at >= end
  }

  lemma {:induction false} LapsingRow(
    zones: seq<ZoneConfig>, start: Table, steps: seq<Step>, key: NameKey, i: nat, j: nat)
    requires i <= j <= |steps| && key in TableAt(zones, start, steps, i)
    requires TableAt(zones, start, steps, i)[key].status.Active?
    requires forall m: nat | i <= m < j :: Quiet(zones, start, steps, key, m)
    requires var graceEnd := TableAt(zones, start, steps, i)[key].validUntil + GraceSeconds(zones, key.zone);
             forall m | i <= m < j :: steps[m].at < graceEnd
    ensures key in TableAt(zones, start, steps, j)
    ensures var row := TableAt(zones, start, steps, i)[key];
            TableAt(zones, start, steps, j)[key] ==
            row.(status := if SweptSince(steps, row.validUntil, i, j) then Grace else Active)
    decreases j
  {
    if i < j {
      LapsingRow(zones, start, steps, key, i, j - 1);
      assert Quiet(zones, start, steps, key, j - 1);
      StepOnRow(zones, TableAt(zones, start, steps, j - 1), steps[j - 1], key);
      SweptSinceStep(steps, TableAt(zones, start, steps, i)[key].validUntil, i, j);
    }
  }

  lemma SweptSinceStep(steps: seq<Step>, end: int, i: nat, j: nat)
    requires i < j <= |steps|
    ensures SweptSince(steps, end, i, j) <==>
            SweptSince(steps, end, i, j - 1) || (steps[j - 1].Sweep? && steps[j - 1].at >= end)
  {
  }

  /** Inside the grace period of a lease nobody renewed, the name is free exactly while no sweep has run since its
      end. */
  lemma FreeInGraceIff(
    zones: seq<ZoneConfig>, start: Table, steps: seq<Step>, key: NameKey, i: nat, j: nat, now: int)
    requires i <= j <= |steps| && key in TableAt(zones, start, steps, i)
    requires TableAt(zones, start, steps, i)[key].status.Active?
    requires forall m: nat | i <= m < j :: Quiet(zones, start, steps, key, m) && steps[m].at <= now
    requires var end := TableAt(zones, start, steps, i)[key].validUntil;
             end <= now < end + GraceSeconds(zones, key.zone)
    ensures IsNameAvailable(TableAt(zones, start, steps, j), key, now) <==>
            !SweptSince(steps, TableAt(zones, start, steps, i)[key].validUntil, i, j)
  {
    LapsingRow(zones, start, steps, key, i, j);
  }

  // -------------------------------------------------------------------------
  // Holders
  // -------------------------------------------------------------------------

  predicate SameHolder(a: Row, b: Row) {
    a.npub == b.npub && a.pubkey == b.pubkey
  }

  /** What a renewal may not touch: when the lease began, who registered it, and the price it was given. */
  predicate SameTerms(a: Row, b: Row) {
    && a.validFrom == b.validFrom && a.registrarPubkey == b.registrarPubkey
    && a.renewalPrice == b.renewalPrice && a.createdAt == b.createdAt
  }

  /** A name nobody holds: without a row, expired, or active past its end and not yet swept. */
  predicate IsFree(table: Table, key: NameKey, now: int) {
    || key !in table
    || table[key].status.Expired?
    || (table[key].status.Active? && table[key].validUntil <= now)
  }

  /** Whose key registers names in a zone: the published one, or the configured one where none is published. */
  predicate Registers(regs: Registrars, zone: string, pubkey: string) {
    if zone in regs.published && regs.published[zone] != "" then pubkey == regs.published[zone]
    else zone in regs.configured && pubkey == regs.configured[zone]
  }

  /** When a claim is accepted. */
  lemma ClaimedIff(zones: seq<ZoneConfig>, table: Table, step: Step, key: NameKey)
    ensures Claims(zones, table, step, key) <==>
            && step.Claim? && step.claim.name == key.domain && step.claim.zone == key.zone
            && (exists z :: FindZone(zones, key.zone) == Some(z) && WithinOperatorLease(z, step.claim.validUntil))
            && !StartsWith(key.domain, "npub1") && Registers(step.regs, key.zone, step.event.pubkey)
            && step.at < step.claim.validUntil && IsFree(table, key, step.at)
  {
    assert key == NameKey(key.domain, key.zone);
  }

  /** The terms of an accepted claim. The registrar it records is the claimant itself. */
  lemma ClaimTerms(zones: seq<ZoneConfig>, table: Table, step: Step, key: NameKey)
    requires Claims(zones, table, step, key)
    ensures key in Apply(zones, table, step)
    ensures var (z, row) := (FindZone(zones, key.zone), Apply(zones, table, step)[key]);
            && z.Some? && WithinOperatorLease(z.value, row.validUntil)
            && row.npub == step.event.npub && row.pubkey == row.registrarPubkey == step.event.pubkey
            && row.validFrom == row.createdAt == step.at < row.validUntil == step.claim.validUntil
            && row.validUntil - row.renewBy == 30 * 86_400
            && row.renewalPrice == z.value.createPrice && row.status.Active? && row.eventId == step.event.eventId
  {
  }

  /** An accepted claim of a name whose row has expired, or is active and past its end. */
  ghost predicate TakesOver(zones: seq<ZoneConfig>, table: Table, step: Step, key: NameKey) {
    && Claims(zones, table, step, key) && key in table
    && (table[key].status.Expired? || (table[key].status.Active? && table[key].validUntil <= step.at))
  }

  /** A name's holder changes only by a claim made when the lease was over. */
  lemma {:induction false} HolderSafety(
    zones: seq<ZoneConfig>, start: Table, steps: seq<Step>, key: NameKey, i: nat, j: nat)
    requires i <= j <= |steps| && key in TableAt(zones, start, steps, i)
    ensures key in TableAt(zones, start, steps, j)
    ensures || SameHolder(TableAt(zones, start, steps, i)[key], TableAt(zones, start, steps, j)[key])
            || exists m | i <= m < j :: TakesOver(zones, TableAt(zones, start, steps, m), steps[m], key)
    decreases j
  {
    if i < j {
      HolderSafety(zones, start, steps, key, i, j - 1);
      var table := TableAt(zones, start, steps, j - 1);
      StepOnRow(zones, table, steps[j - 1], key);
      if Claims(zones, table, steps[j - 1], key) {
        assert TakesOver(zones, table, steps[j - 1], key);
      }
    }
  }

  /** Once swept into grace, a row stays as it is until its renewal is accepted or a sweep runs at
      or after the end of grace; no claim can touch it. */
  lemma {:induction false} GraceIsFrozen(
    zones: seq<ZoneConfig>, start: Table, steps: seq<Step>, key: NameKey, end: int, i: nat, j: nat)
    requires i <= j <= |steps| && key in TableAt(zones, start, steps, i)
    requires TableAt(zones, start, steps, i)[key].status.Grace?
    requires end == TableAt(zones, start, steps, i)[key].validUntil + GraceSeconds(zones, key.zone)
    requires forall m: nat | i <= m < j :: BeforeEnd(zones, start, steps, key, end, m)
    ensures key in TableAt(zones, start, steps, j)
    ensures TableAt(zones, start, steps, j)[key] == TableAt(zones, start, steps, i)[key]
    decreases j
  {
    if i < j {
      GraceIsFrozen(zones, start, steps, key, end, i, j - 1);
      var table := TableAt(zones, start, steps, j - 1);
      assert BeforeEnd(zones, start, steps, key, end, j - 1);
      StepOnRow(zones, table, steps[j - 1], key);
    }
  }

  /** An active row of one holder that runs at least to `end`. */
  ghost predicate HeldUntil(table: Table, key: NameKey, holder: Signed, from: int, end: int) {
    && key in table && table[key].status.Active?
    && table[key].npub == holder.npub && table[key].pubkey == holder.pubkey
    && table[key].validFrom == from && table[key].validUntil >= end
  }

  lemma ClaimedIsHeld(zones: seq<ZoneConfig>, table: Table, step: Step, key: NameKey)
    requires Claims(zones, table, step, key)
    ensures HeldUntil(Apply(zones, table, step), key, step.event, step.at, step.claim.validUntil)
  {
  }

  lemma HeldThroughStep(
    zones: seq<ZoneConfig>, table: Table, step: Step, key: NameKey, holder: Signed, from: int, end: int)
    requires HeldUntil(table, key, holder, from, end) && step.at < end
    ensures HeldUntil(Apply(zones, table, step), key, holder, from, end)
  {
    StepOnRow(zones, table, step, key);
  }

  /** From an accepted claim until the end it asked for, the row is active and held by the claimant,
      whatever else happens. */
  lemma {:induction false} LeaseIsHeld(
    zones: seq<ZoneConfig>, start: Table, steps: seq<Step>, key: NameKey, i: nat, j: nat)
    requires i < j <= |steps| && Claims(zones, TableAt(zones, start, steps, i), steps[i], key)
    requires forall m | i < m < j :: steps[m].at < steps[i].claim.validUntil
    ensures HeldUntil(TableAt(zones, start, steps, j), key, steps[i].event, steps[i].at, steps[i].claim.validUntil)
    decreases j
  {
    if i + 1 < j {
      LeaseIsHeld(zones, start, steps, key, i, j - 1);
      HeldThroughStep(zones, TableAt(zones, start, steps, j - 1), steps[j - 1], key, steps[i].event, steps[i].at,
                      steps[i].claim.validUntil);
    }
  }

  /** A row of one holder that is not expired, and whose end is no earlier than `end`. */
  ghost predicate KeptUntil(table: Table, key: NameKey, holder: Signed, end: int) {
    && key in table && !table[key].status.Expired?
    && table[key].npub == holder.npub && table[key].pubkey == holder.pubkey && table[key].validUntil >= end
  }

  /** Unless the name is claimed, its holder keeps the row through grace, active or not. */
  lemma KeptThroughStep(
    zones: seq<ZoneConfig>, table: Table, step: Step, key: NameKey, holder: Signed, end: int)
    requires KeptUntil(table, key, holder, end) && !Claims(zones, table, step, key)
    requires step.at < end + GraceSeconds(zones, key.zone)
    ensures KeptUntil(Apply(zones, table, step), key, holder, end)
  {
    StepOnRow(zones, table, step, key);
  }

  // -------------------------------------------------------------------------
  // Renewals
  // -------------------------------------------------------------------------

  ghost predicate LeaseStepAt(zones: seq<ZoneConfig>, tables: seq<Table>, steps: seq<Step>, n: nat) {
    n < |steps| && n + 1 < |tables| && tables[n + 1] == Apply(zones, tables[n], steps[n])
  }

  /** A run by its tables: before, between and after the steps. */
  ghost predicate LeaseRun(zones: seq<ZoneConfig>, tables: seq<Table>, steps: seq<Step>) {
    |tables| == |steps| + 1 && forall n: nat | n < |steps| :: LeaseStepAt(zones, tables, steps, n)
  }

  lemma TablesRun(zones: seq<ZoneConfig>, start: Table, steps: seq<Step>)
    ensures LeaseRun(zones, seq(|steps| + 1, n requires 0 <= n <= |steps| => TableAt(zones, start, steps, n)), steps)
  {
    var tables := seq(|steps| + 1, n requires 0 <= n <= |steps| => TableAt(zones, start, steps, n));
    forall n: nat | n < |steps| ensures LeaseStepAt(zones, tables, steps, n) {
    }
  }

  /** How many renewals of a name are accepted from step `i` to step `j`. */
  ghost function RenewalCount(
    zones: seq<ZoneConfig>, tables: seq<Table>, steps: seq<Step>, key: NameKey, i: nat, j: nat): nat
    requires i <= j <= |steps| < |tables|
    decreases j
  {
    if i == j then 0
    else
      RenewalCount(zones, tables, steps, key, i, j - 1)
      + (if Renews(zones, tables[j - 1], steps[j - 1], key) then 1 else 0)
  }

  /** Step `m` accepts no claim of the name, and a renewal only if dated up to `newest`. */
  ghost predicate OnlyRenewed(
    zones: seq<ZoneConfig>, tables: seq<Table>, steps: seq<Step>, key: NameKey, newest: int, m: nat)
    requires |tables| == |steps| + 1
  {
    m < |steps| ==>
      && !Claims(zones, tables[m], steps[m], key)
      && (Renews(zones, tables[m], steps[m], key) ==> steps[m].event.createdAt <= newest)
  }

  ghost predicate RenewedBetween(
    zones: seq<ZoneConfig>, tables: seq<Table>, steps: seq<Step>, key: NameKey, newest: int, i: nat, j: nat)
    requires |tables| == |steps| + 1
  {
    forall m: nat | i <= m < j :: OnlyRenewed(zones, tables, steps, key, newest, m)
  }

  function Max(a: int, b: int): int {
    if a >= b then a else b
  }

  lemma OneRenewal(zones: seq<ZoneConfig>, table: Table, step: Step, key: NameKey)
    requires key in table && Renews(zones, table, step, key)
    ensures key in Apply(zones, table, step)
    ensures var z := FindZone(zones, key.zone);
            var (row, next) := (table[key], Apply(zones, table, step)[key]);
            && z.Some?
            && SameHolder(row, next) && SameTerms(row, next) && next.status.Active?
            && next.renewBy == next.validUntil - RenewalGrace(z.value)
            && row.validUntil < next.validUntil
                <= Max(row.validUntil, step.event.createdAt) + z.value.maxLeaseDays * DAY
            && WithinOperatorLease(z.value, next.validUntil)
            && next.validUntil == step.renewal.newValidUntil && next.eventId == step.event.eventId
            && step.event.pubkey == row.pubkey
  {
  }

  /** What `n` accepted renewals dated up to `newest` may have done to a row. */
  ghost predicate RenewedWithin(zones: seq<ZoneConfig>, key: NameKey, first: Row, last: Row, n: nat, newest: int) {
    var z := FindZone(zones, key.zone);
    && SameHolder(first, last) && SameTerms(first, last)
    && first.validUntil + n <= last.validUntil
    && (n == 0 ==> last.validUntil == first.validUntil)
    && (n > 0 ==>
          && z.Some?
          && last.validUntil <= Max(first.validUntil, newest) + n * (z.value.maxLeaseDays * DAY)
          && WithinOperatorLease(z.value, last.validUntil))
  }

  lemma OneMoreRenewal(
    zones: seq<ZoneConfig>, table: Table, step: Step, key: NameKey, first: Row, n: nat, newest: int)
    requires key in table && Renews(zones, table, step, key) && step.event.createdAt <= newest
    requires RenewedWithin(zones, key, first, table[key], n, newest)
    ensures key in Apply(zones, table, step)
    ensures RenewedWithin(zones, key, first, Apply(zones, table, step)[key], n + 1, newest)
  {
    OneRenewal(zones, table, step, key);
    var lease := FindZone(zones, key.zone).value.maxLeaseDays * DAY;
    assert (n + 1) * lease == n * lease + lease;
    assert n * lease >= 0;
  }

  /** Between claims, n accepted renewals keep the holder and the terms, raise the end by at least n, and leave it
      at most n maximal leases past the later of the old end and the newest renewal. */
  lemma {:induction false} RenewalMeasure(
    zones: seq<ZoneConfig>, tables: seq<Table>, steps: seq<Step>, key: NameKey, i: nat, j: nat, newest: int)
    requires LeaseRun(zones, tables, steps) && i <= j <= |steps| && key in tables[i]
    requires RenewedBetween(zones, tables, steps, key, newest, i, j)
    ensures key in tables[j]
    ensures RenewedWithin(zones, key, tables[i][key], tables[j][key], RenewalCount(zones, tables, steps, key, i, j),
                          newest)
    decreases j
  {
    if i < j {
      RenewalMeasure(zones, tables, steps, key, i, j - 1, newest);
      assert OnlyRenewed(zones, tables, steps, key, newest, j - 1) && LeaseStepAt(zones, tables, steps, j - 1);
      MeasuredStep(zones, tables[j - 1], steps[j - 1], key, tables[i][key],
                   RenewalCount(zones, tables, steps, key, i, j - 1), newest);
    }
  }

  lemma MeasuredStep(zones: seq<ZoneConfig>, table: Table, step: Step, key: NameKey, first: Row, n: nat, newest: int)
    requires key in table && !Claims(zones, table, step, key)
    requires Renews(zones, table, step, key) ==> step.event.createdAt <= newest
    requires RenewedWithin(zones, key, first, table[key], n, newest)
    ensures key in Apply(zones, table, step)
    ensures RenewedWithin(zones, key, first, Apply(zones, table, step)[key],
                          n + (if Renews(zones, table, step, key) then 1 else 0), newest)
  {
    StepOnRow(zones, table, step, key);
    if Renews(zones, table, step, key) {
      OneMoreRenewal(zones, table, step, key, first, n, newest);
    }
  }

  /** An operator expiry caps how many renewals a lease can see. */
  lemma RenewalsAreFinite(
    zones: seq<ZoneConfig>, tables: seq<Table>, steps: seq<Step>, key: NameKey, i: nat, j: nat, newest: int,
    expiry: int)
    requires LeaseRun(zones, tables, steps) && i <= j <= |steps| && key in tables[i]
    requires RenewedBetween(zones, tables, steps, key, newest, i, j)
    requires OperatorExpiry(zones, key.zone) == Some(expiry)
    ensures RenewalCount(zones, tables, steps, key, i, j) <= Max(0, expiry - tables[i][key].validUntil)
  {
    RenewalMeasure(zones, tables, steps, key, i, j, newest);
    CountIsCapped(zones, key, tables[i], tables[j], RenewalCount(zones, tables, steps, key, i, j), newest, expiry);
  }

  /** When the operator's own lease of a zone ends. */
  function OperatorExpiry(zones: seq<ZoneConfig>, zone: string): Option<int> {
    match FindZone(zones, zone)
    case None => None
    case Some(z) => ParseOperatorExpiry(z.operatorExpires)
  }

  lemma CountIsCapped(
    zones: seq<ZoneConfig>, key: NameKey, before: Table, after: Table, n: nat, newest: int, expiry: int)
    requires key in before && key in after && RenewedWithin(zones, key, before[key], after[key], n, newest)
    requires OperatorExpiry(zones, key.zone) == Some(expiry)
    ensures n <= Max(0, expiry - before[key].validUntil)
  {
  }

  /** An expired row stands as it is until a claim or a renewal of the name is accepted. */
  lemma {:induction false} ExpiredStands(
    zones: seq<ZoneConfig>, start: Table, steps: seq<Step>, key: NameKey, i: nat, j: nat)
    requires i <= j <= |steps| && key in TableAt(zones, start, steps, i)
    requires TableAt(zones, start, steps, i)[key].status.Expired?
    requires forall m: nat | i <= m < j :: Quiet(zones, start, steps, key, m)
    ensures key in TableAt(zones, start, steps, j)
    ensures TableAt(zones, start, steps, j)[key] == TableAt(zones, start, steps, i)[key]
    decreases j
  {
    if i < j {
      ExpiredStands(zones, start, steps, key, i, j - 1);
      assert Quiet(zones, start, steps, key, j - 1);
      StepOnRow(zones, TableAt(zones, start, steps, j - 1), steps[j - 1], key);
    }
  }

  /** A renewal by the row's holder that asks for an end within the lease and operator limits. */
  ghost predicate AsksInLimits(zones: seq<ZoneConfig>, row: Row, step: Step, key: NameKey) {
    var z := FindZone(zones, key.zone);
    && step.Renew? && NameKey(step.renewal.name, step.renewal.zone) == key
    && z.Some? && step.event.pubkey == row.pubkey
    && row.validUntil < step.renewal.newValidUntil
       <= Max(row.validUntil, step.event.createdAt) + z.value.maxLeaseDays * DAY
    && WithinOperatorLease(z.value, step.renewal.newValidUntil)
  }

  /** A renewal is accepted exactly when the row's holder asks within the limits, in an event dated before the end of
      grace, whatever the row's status and whatever the clock. */
  lemma RenewedIff(zones: seq<ZoneConfig>, table: Table, step: Step, key: NameKey)
    ensures Renews(zones, table, step, key) <==>
            && key in table && AsksInLimits(zones, table[key], step, key)
            && step.event.createdAt < table[key].validUntil + GraceSeconds(zones, key.zone)
  {
    assert key == NameKey(key.domain, key.zone);
  }

  /** What becomes of a row once it has expired: however many steps later, its holder's renewal brings it back to
      life exactly when it is dated before the end of grace. The clock has no say. */
  lemma ExpiredRevivesIff(
    zones: seq<ZoneConfig>, start: Table, steps: seq<Step>, key: NameKey, i: nat, j: nat)
    requires i <= j < |steps| && key in TableAt(zones, start, steps, i)
    requires TableAt(zones, start, steps, i)[key].status.Expired?
    requires forall m: nat | i <= m < j :: Quiet(zones, start, steps, key, m)
    requires AsksInLimits(zones, TableAt(zones, start, steps, i)[key], steps[j], key)
    ensures key in TableAt(zones, start, steps, j + 1)
    ensures var (row, next) := (TableAt(zones, start, steps, i)[key], TableAt(zones, start, steps, j + 1)[key]);
            if steps[j].event.createdAt < row.validUntil + GraceSeconds(zones, key.zone)
            then next.status.Active? && SameHolder(row, next) && next.validUntil == steps[j].renewal.newValidUntil
            else next == row
  {
    var table := TableAt(zones, start, steps, j);
    ExpiredStands(zones, start, steps, key, i, j);
    RenewedIff(zones, table, steps[j], key);
    StepOnRow(zones, table, steps[j], key);
  }

  /** In particular, a renewal dated no earlier than the sweep that expired the row is refused as long as that row
      stands. */
  lemma ExpiredIsFinal(
    zones: seq<ZoneConfig>, start: Table, t0: int, steps: seq<Step>, key: NameKey, i: nat, j: nat)
    requires i < j < |steps| && ClockRuns(t0, steps) && NotAhead(zones, start, t0)
    requires steps[i].Sweep? && key in TableAt(zones, start, steps, i + 1)
    requires TableAt(zones, start, steps, i + 1)[key].status.Expired?
    requires forall m: nat | i < m < j :: Quiet(zones, start, steps, key, m)
    requires steps[j].Renew? && steps[j].event.createdAt >= steps[i].at
    ensures !Renews(zones, TableAt(zones, start, steps, j), steps[j], key)
  {
    ExpiredInTime(zones, start, t0, steps, key, i + 1);
    ExpiredStands(zones, start, steps, key, i + 1, j);
    LateRenewalRefused(zones, TableAt(zones, start, steps, j), steps[j], key);
  }

  lemma ExpiredInTime(zones: seq<ZoneConfig>, start: Table, t0: int, steps: seq<Step>, key: NameKey, n: nat)
    requires n <= |steps| && ClockRuns(t0, steps) && NotAhead(zones, start, t0)
    requires key in TableAt(zones, start, steps, n) && TableAt(zones, start, steps, n)[key].status.Expired?
    ensures TableAt(zones, start, steps, n)[key].validUntil + GraceSeconds(zones, key.zone) <= TimeAt(t0, steps, n)
  {
    NeverAhead(zones, start, t0, steps, n);
  }

  lemma LateRenewalRefused(zones: seq<ZoneConfig>, table: Table, step: Step, key: NameKey)
    requires key in table && step.Renew?
    requires step.event.createdAt >= table[key].validUntil + GraceSeconds(zones, key.zone)
    ensures !Renews(zones, table, step, key)
  {
  }

  /** Step `m` accepts a renewal of the name that `pubkey` signed. */
  ghost predicate RenewsAs(
    zones: seq<ZoneConfig>, start: Table, steps: seq<Step>, key: NameKey, pubkey: string, m: nat)
  {
    m < |steps| && Renews(zones, TableAt(zones, start, steps, m), steps[m], key) && steps[m].event.pubkey == pubkey
  }

  /** Step `m` accepts no claim of the name. */
  ghost predicate Unclaimed(zones: seq<ZoneConfig>, start: Table, steps: seq<Step>, key: NameKey, m: nat) {
    m < |steps| ==> !Claims(zones, TableAt(zones, start, steps, m), steps[m], key)
  }

  lemma StepByHolder(zones: seq<ZoneConfig>, table: Table, step: Step, key: NameKey)
    requires key in table && !Claims(zones, table, step, key)
    ensures key in Apply(zones, table, step) && SameHolder(table[key], Apply(zones, table, step)[key])
    ensures || Apply(zones, table, step)[key] == table[key]
            || (step.Sweep? && exists status :: Apply(zones, table, step)[key] == table[key].(status := status))
            || (Renews(zones, table, step, key) && step.event.pubkey == table[key].pubkey)
  {
    StepOnRow(zones, table, step, key);
  }

  /** Between claims a row is moved by nobody but its holder, except that sweeps set its status. */
  lemma {:induction false} OnlyHolderMoves(
    zones: seq<ZoneConfig>, start: Table, steps: seq<Step>, key: NameKey, i: nat, j: nat)
    requires i <= j <= |steps| && key in TableAt(zones, start, steps, i)
    requires forall m: nat | i <= m < j :: Unclaimed(zones, start, steps, key, m)
    ensures key in TableAt(zones, start, steps, j)
    ensures var (first, last) := (TableAt(zones, start, steps, i)[key], TableAt(zones, start, steps, j)[key]);
            && SameHolder(first, last)
            && (|| last == first.(status := last.status)
                || exists m: nat | i <= m < j :: RenewsAs(zones, start, steps, key, first.pubkey, m))
            && (|| last == first
                || exists m: nat | i <= m < j ::
                     (m < |steps| && steps[m].Sweep?) || RenewsAs(zones, start, steps, key, first.pubkey, m))
    decreases j
  {
    if i < j {
      OnlyHolderMoves(zones, start, steps, key, i, j - 1);
      var table := TableAt(zones, start, steps, j - 1);
      assert Unclaimed(zones, start, steps, key, j - 1);
      StepByHolder(zones, table, steps[j - 1], key);
      if Renews(zones, table, steps[j - 1], key) {
        assert RenewsAs(zones, start, steps, key, TableAt(zones, start, steps, i)[key].pubkey, j - 1);
      }
    }
  }

  // -------------------------------------------------------------------------
  // Runs on which the obvious claims fail
  // -------------------------------------------------------------------------

  function OneZone(graceDays: nat): seq<ZoneConfig> {
    [ZoneConfig("z", graceDays, 365, None, 0, false)]
  }

  function ClaimOf(at: int, end: int, who: string): Step {
    Claim(at, Registrars(map[], map["z" := who]), ClaimRequest("a", "z", end), Signed("claim", who, "npub1" + who, at))
  }

  function LeaseOf(at: int, end: int, who: string): Row {
    Row("claim", "npub1" + who, who, at, end, end - 30 * DAY, who, 0, Active, at)
  }

  const A_KEY := NameKey("a", "z")

  lemma ClaimTaken(graceDays: nat, table: Table, at: int, end: int, who: string)
    requires at < end && IsNameAvailable(table, A_KEY, at)
    ensures Apply(OneZone(graceDays), table, ClaimOf(at, end, who)) == table[A_KEY := LeaseOf(at, end, who)]
  {
    assert FindZone(OneZone(graceDays), "z") == Some(OneZone(graceDays)[0]);
  }

  /** Without a grace period: claimed until 10, expired by the sweep at 15, renewed at 20 by an event dated 9. */
  lemma BackdatedRenewalRevives(who: string)
    ensures var steps := [ClaimOf(0, 10, who), Sweep(15),
                          Renew(20, RenewalRequest("a", "z", 30), Signed("renewal", who, "npub1" + who, 9))];
            && ClockRuns(0, steps)
            && TableAt(OneZone(0), map[], steps, 2) == map[A_KEY := LeaseOf(0, 10, who).(status := Expired)]
            && A_KEY in TableAt(OneZone(0), map[], steps, 3)
            && TableAt(OneZone(0), map[], steps, 3)[A_KEY].status.Active?
            && TableAt(OneZone(0), map[], steps, 3)[A_KEY].validUntil == 30
  {
    var renewal := Renew(20, RenewalRequest("a", "z", 30), Signed("renewal", who, "npub1" + who, 9));
    var steps := [ClaimOf(0, 10, who), Sweep(15), renewal];
    var zones := OneZone(0);
    assert FindZone(zones, "z") == Some(zones[0]);
    ClaimTaken(0, map[], 0, 10, who);
    var expired: Table := map[A_KEY := LeaseOf(0, 10, who).(status := Expired)];
    assert TableAt(zones, map[], steps, 0) == map[];
    assert TableAt(zones, map[], steps, 1) == map[A_KEY := LeaseOf(0, 10, who)];
    assert TableAt(zones, map[], steps, 2) == expired;
    RenewedIff(zones, expired, renewal, A_KEY);
    OneRenewal(zones, expired, renewal, A_KEY);
  }

  /** With 30 days of grace: claimed until 10 by one key, claimed at 11 by another. The second claim is accepted
      when no sweep came between, and refused when one did. */
  lemma ClaimedInsideGrace(first: string, second: string)
    ensures var zones := OneZone(30);
            var (soon, late) := ([ClaimOf(0, 10, first), ClaimOf(11, 50, second)],
                                 [ClaimOf(0, 10, first), Sweep(10), ClaimOf(11, 50, second)]);
            && 11 < 10 + GraceSeconds(zones, "z")
            && TableAt(zones, map[], soon, 2) == map[A_KEY := LeaseOf(11, 50, second)]
            && TableAt(zones, map[], late, 3) == map[A_KEY := LeaseOf(0, 10, first).(status := Grace)]
  {
    var zones := OneZone(30);
    var (soon, late) := ([ClaimOf(0, 10, first), ClaimOf(11, 50, second)],
                         [ClaimOf(0, 10, first), Sweep(10), ClaimOf(11, 50, second)]);
    assert FindZone(zones, "z") == Some(zones[0]);
    ClaimTaken(30, map[], 0, 10, first);
    var one: Table := map[A_KEY := LeaseOf(0, 10, first)];
    ClaimTaken(30, one, 11, 50, second);
    assert TableAt(zones, map[], soon, 0) == map[] && TableAt(zones, map[], late, 0) == map[];
    assert TableAt(zones, map[], soon, 1) == one && TableAt(zones, map[], late, 1) == one;
    var swept: Table := map[A_KEY := LeaseOf(0, 10, first).(status := Grace)];
    assert TableAt(zones, map[], late, 2) == swept;
  }
}
