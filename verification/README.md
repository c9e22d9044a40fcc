# nodns: leases, authority and DNS writes, verified

This project models the naming registry at the heart of nodns and proves what it keeps over whole runs.
Leases on names live in a delegation table driven by claims, renewals and an hourly sweep. Authority over a name
follows from that table or from the signer's own npub. Authority gates DNS writes, which go through backends that
fail over, trip a circuit breaker, or shortcut a remote zone with a cache. Around this stand a subscription quota, a
log limiter, acme-dns challenge updates, a date parser, a proof-of-work test, a record-data codec and a three-source
verifier.

`dafny verify dfyconfig.toml` checks everything. Each module has pure functions that say what an operation does,
classes and methods in the source's own imperative form proved equal to them, and lemmas about every run.

## Main results

- **A lease is worth what it says.** From an accepted claim until the end it asked for, in every state of every run of
  claims, renewals and sweeps, the name is granted to the claimant's key and to no other
  (`LeaseAuthority.LeaseGivesAuthority`), and nothing others do - claims, renewals, events, or the sweeps that delete
  the records of other leases - changes an RRset at it or at its proof name (`Registry.LeaseProtectsRecords`). Unless the name is claimed
  meanwhile, the same holds to the end of its grace (`Registry.GraceProtectsRecords`).
- **Non-interference.** Handling any event, with any table, any lost or rejected message and proofs on or off, leaves
  every RRset at a name granted to another key, and at the proof name of one, as it was
  (`NonInterference.NonInterferenceHolds`).
- **Tags do what they ask.** For names delegated to the signer and names below its npub alike, a delete tag empties its
  RRset and its proof and leaves no live row of the record (`TagEffects.DeleteTagDeletes`), and a record tag's data is
  what the DNS shows (`TagEffects.RecordTagShows`); an event changes nothing else (`NonInterference.EventsWriteTheirOwn`).
- **Store and DNS agree.** Over runs of claims, renewals, sweeps and events by all signers, from empty tables, the RRset of
  a record at a name under an npub holds the data of the last live row of that record, and is empty exactly when none of
  its rows lives (`Agreement.StoreAndDnsAgree`). This takes that the npub's signer claims nothing in the zone; that its own
  events spell the name in one way (not both "@" and empty) and ask there for CNAMEs only or for none; that no update or
  deletion there is applied without its acknowledgement; and that the zone does not keep other records' proofs at the
  name. What the signer does at other names, and what others do, does not matter.
- **The sweep refines the clock**, holders change only when a lease is over, a grace row is frozen, and renewals are a
  bounded measure (`Leases`). `LeaseExpiry.Sweep` proves the loop's exact effect on statuses, records and RRsets.
- **Closed forms** of failover and circuit breaker over their histories, with budgets and recovery, cache coherence, quotas, the tight sliding bound of the
  limiter, the calendar, NIP-13 thresholds, record-data round trips and corroboration.

## Where the obvious claim fails

Each has an input on which it fails and the exact condition under which it holds.

- *A lapsed lease loses its RRsets.* It does exactly when it is the first its holder loses in the zone in that sweep, a
  live record of the holder points there and the delete message gets through (`LeaseExpiry.LapsedIsClearedIff`;
  `LeaseExpiry.FirstIsSoonest` says which comes first). Losing one name marks the holder's records of the whole zone
  deleted, so a later sweep finds nothing to delete under its other names (`LeaseExpiry.EarlierLossStrands`; a run from
  empty tables: `Registry.LapsedNameKeepsItsRecords`).
- *An expired lease stays expired.* A renewal is compared by its own date, so it revives the row exactly when it is dated
  before the end of grace (`Leases.ExpiredRevivesIff`; a run: `Leases.BackdatedRenewalRevives`). One dated at or after
  the expiring sweep is refused (`Leases.ExpiredIsFinal`).
- *The grace period protects the holder.* A lapsed name is withheld during grace exactly when a sweep has run since its
  end (`Leases.FreeInGraceIff`; two runs: `Leases.ClaimedInsideGrace`).
- *A half-open circuit admits one probe.* It admits every caller (`CircuitBreaker.HalfOpenAdmitsEveryCaller`,
  `CircuitBreaker.ThreeCallersProbe`); a call is admitted exactly with fewer than three failures since the last success
  or once the cooldown has run (`CircuitBreaker.AdmitsIff`).
- *Store and DNS always agree.* One update keeps the agreement exactly when it does not put a CNAME beside other live data
  (`Agreement.OwnPutAgreesIff`; `Agreement.CnameBesideText`: a text record and then a CNAME at one name, both saved, the
  second ignored by the server). An update applied without its acknowledgement keeps it exactly when it changes nothing
  (`Agreement.LostPutAgreesIff`, `Agreement.LostDropAgreesIff`), and so does a sweep that takes a name from the signer,
  since it marks the rows of the signer's own names deleted (`Agreement.LosingSweepAgreesIff`).
- *The apex resolved for a signer is granted to it.* Exactly when the delegated domain is a single label other than
  someone else's npub, or hangs below the signer's npub (`Authority.ApexGrantedIff`, `Authority.DottedApexRefused`,
  `Authority.ForeignNpubApexRefused`). Claims create only such domains.
- *A resolution returns every attested record.* `Corroboration.AttestedIsReturnedIff`, with the sources of
  `Corroboration.AttestedNotReturned`.
- *Proof strings spell the proof.* Exactly when no character straddles a cut of 255 octets (`TxtPieces.PiecesSpellIff`,
  `TxtPieces.StraddledIsNotSpelled`).
- *The operator's expiry is the date's count of seconds.* Up to the last day that fits in 64 bits
  (`CivilDate.ExpiryIsExactIff`, `CivilDate.FarDateWraps`).
- *Two fixed windows of 50 allow 100 in a closed minute.* They allow 99, and 99 is reached (`RateLimit.SlidingBound`,
  `RateLimit.SlidingBoundIsTight`).
- *Printing and parsing record data needs names free of spaces.* It needs only a trailing dot (`Rdata.RdataRoundTrip`).

## Modelling choices

- Bech32 encoding is any injective map from keys to dot-free strings that start with "npub1" (`Authority.Lawful`); the
  address and name parsers and the UTF-8 conversions of the libraries are parameters (`Rdata.Syntax`, `TxtPieces.Utf8`).
- A DNS message is applied, rejected, or applied with its acknowledgement lost; results hold for all three unless a
  lemma says otherwise. A zone follows sections 2.5.1, 2.5.2 and 3.4.2.2 of RFC 2136, the CNAME rule included.
- Clocks, outcomes of network calls, the store's choice among equally new delegations and the order of hash maps are
  arguments. Store calls succeed. Each event and each sweep is one atomic step that reads the clock once.
- Integers are unbounded, except that the saturation of 32-bit counters and the wrap-around of the date arithmetic in a
  release build are written out.
- Names are compared as the exact strings the code compares.

## Model

| member | source | states |
|---|---|---|
| `CivilDate.EpochCount` | nodns-bot-rs/src/event_processor.rs:69 | 1970-01-01 is day 719 528 of the naive count, and the constant subtracted is its distance from 1 March of year 0 |
| `CivilDate.EraIsNaive` | nodns-bot-rs/src/event_processor.rs:62-69 | for every year from 0, month and day, era arithmetic (with truncating division, year -1 for January and February of year 0) equals counting years, months and days one by one |
| `CivilDate.ExpiryAcceptedIff` | nodns-bot-rs/src/event_processor.rs:50-61 | accepted are exactly the texts, blanks around them allowed, of a year, month and day joined by hyphens, each digits with or without a plus sign, with month and day in range |
| `CivilDate.ExpiryIsNaiveCount` | nodns-bot-rs/src/event_processor.rs:50-71 | every accepted text of a date is read as 86400 times its naive day count from 1970-01-01, wrapped to 64 bits |
| `CivilDate.OutOfRangeRefused` | nodns-bot-rs/src/event_processor.rs:59-61 | a month or day out of range is refused, however it is spelled |
| `CivilDate.ExpiryIsExactIff` | nodns-bot-rs/src/event_processor.rs:50-71 | the date is read without wrapping around exactly when it is no later than the last day whose seconds fit |
| `CivilDate.FarDateWraps` | nodns-bot-rs/src/event_processor.rs:69-70 | a text of 1 January of the year 300 000 000 000, which wraps around |
| `CivilDate.ExpiryFollowsTheCalendar` | nodns-bot-rs/src/event_processor.rs:50-71 | for the texts of two valid dates that fit, the parsed expiries compare as the dates do in the calendar |
| `CivilDate.SmallStepsFit` | nodns-bot-rs/src/event_processor.rs:63-68 | for every 64-bit year no step before the multiplication by 146 097 overflows |
| `CivilDate.StepByStep` | nodns-bot-rs/src/event_processor.rs:69-70 | wrapping each of the last steps is wrapping the result |
| `Delegations.FindZone` | nodns-bot-rs/src/event_processor.rs:504-509 | the zone's configuration is found exactly when one is configured |
| `Authority.AuthorityIsOwnership` | nodns-bot-rs/src/auth.rs:76-197 | authority over a name is granted to a key exactly when its npub is the owner the name and table determine, without reference to a signer |
| `Authority.ExclusiveAuthority` | nodns-bot-rs/src/auth.rs:76-197 | in every table, zone and name at most one key is granted authority, by whichever path |
| `Authority.ApexGrantedIff` | nodns-bot-rs/src/event_processor.rs:32-42 | the apex name resolved for a signer is granted to it exactly when it has no delegation in force there or the delegated domain is grantable |
| `Authority.DottedApexRefused` | nodns-bot-rs/src/auth.rs:128-137 | a table that delegates a.b: the store answers with it and the holder is refused its apex |
| `Authority.ForeignNpubApexRefused` | nodns-bot-rs/src/auth.rs:98-111 | a table that delegates another key's npub: the holder is refused its apex |
| `Authority.ClaimedIsGrantable` | nodns-bot-rs/src/event_processor.rs:511-515 | every name a claim can create is grantable |
| `Authority.SubdomainsOfDelegatedRefused` | nodns-bot-rs/src/auth.rs:128-137 | no key is ever granted a name below a delegated label |
| `Authority.CustomGrantedIff` | nodns-bot-rs/src/auth.rs:126-197 | a custom name of one label is granted exactly to the key whose npub an active row assigns it to, and each refusal gives its reason |
| `Authority.NpubGrantedIff` | nodns-bot-rs/src/auth.rs:95-124 | a name at or below an npub is granted exactly to the npub's key, unless it begins with npub1 without being the npub |
| `Authority.OutsideZoneRefused` | nodns-bot-rs/src/auth.rs:128-137 | a dotted name outside the zone is granted to nobody |
| `Authority.OwnerUnderNpub` | nodns-bot-rs/src/auth.rs:98-124 | a name below an npub belongs to that npub, and to nobody when it begins with "npub1" |
| `Authority.ProofNameOwner` | nodns-bot-rs/src/event_processor.rs:926-944 | the proof name of an owned name belongs to the same owner or to nobody |
| `Leases.NeverAhead` | nodns-bot-rs/src/main.rs:129-207 | over every run no status is ahead of the clock: grace implies past the end, expired implies past the grace |
| `Leases.SweepRefinesTheClock` | nodns-bot-rs/src/main.rs:129-207 | after each sweep of a run every row's status is the pure function active, grace or expired of the time, its end and the grace period |
| `Leases.SweepIsIdempotent` | nodns-bot-rs/src/main.rs:129-207 | sweeping twice at one time is sweeping once, from any table |
| `Leases.SweepDecidesAvailability` | nodns-bot-rs/src/store.rs:942-962 | after a sweep a name is free exactly when its grace is over |
| `Leases.FreeInGraceIff` | nodns-bot-rs/src/store.rs:942-962 | in every run, inside the grace of a lease nobody renewed, the name is free exactly when no sweep ran since its end |
| `Leases.ClaimedInsideGrace` | nodns-bot-rs/src/event_processor.rs:555-596 | a run in which a lapsed lease is claimed by another key one second into its grace, and the same run with a sweep between, in which it is not |
| `Leases.HolderSafety` | nodns-bot-rs/src/event_processor.rs:555-596 | over every run a name's npub and pubkey change only by a claim accepted when the row was expired, or active and past its end |
| `Leases.GraceIsFrozen` | nodns-bot-rs/src/main.rs:194-206 | a row swept into grace stays exactly as it is until its renewal is accepted or a sweep runs at or after the end of grace |
| `Leases.ClaimedIff` | nodns-bot-rs/src/event_processor.rs:491-607 | a claim is accepted exactly when the zone is configured, the name no npub, the signer the registrar, the end in the future and within the operator's lease, and the name free |
| `Leases.Periods` | nodns-bot-rs/src/main.rs:138-140 | grace is the zone's days of 86400 seconds, 30 of them for an unconfigured zone |
| `Leases.ClaimTerms` | nodns-bot-rs/src/event_processor.rs:569-596 | the row of an accepted claim: held and registered by the signer, from now to the end asked for, within the operator's lease, at the zone's price, renewable until 30 days before the end |
| `Leases.LeaseIsHeld` | nodns-bot-rs/src/event_processor.rs:531-596 | from an accepted claim until the end it asked for the row stays active and the claimant's, whatever else happens |
| `Leases.RenewedIff` | nodns-bot-rs/src/event_processor.rs:613-739 | a renewal is accepted exactly when the row's own holder asks for a later end within the lease and operator limits, dated before the end of grace |
| `Leases.OnlyHolderMoves` | nodns-bot-rs/src/event_processor.rs:651-728 | in every run, between claims a row changes only by its holder's renewals, save the status a sweep sets |
| `Leases.OneRenewal` | nodns-bot-rs/src/event_processor.rs:651-728 | an accepted renewal keeps the holder and the terms, strictly raises the end, and stays within the maximal lease and the operator's expiry |
| `Leases.RenewalMeasure` | nodns-bot-rs/src/event_processor.rs:651-728 | between claims n accepted renewals raise the end by at least n, leave it at most n maximal leases past the later of the first end and the newest renewal, and keep the holder and the terms |
| `Leases.RenewalsAreFinite` | nodns-bot-rs/src/event_processor.rs:702-714 | an operator expiry caps the number of accepted renewals |
| `Leases.ExpiredRevivesIff` | nodns-bot-rs/src/event_processor.rs:651-728 | however many steps after a row expired, its holder's renewal within the limits makes it active again exactly when dated before the end of grace, and changes nothing otherwise |
| `Leases.ExpiredIsFinal` | nodns-bot-rs/src/event_processor.rs:662-673 | a renewal dated at or after the sweep that expired the row is refused as long as that row stands |
| `Leases.BackdatedRenewalRevives` | nodns-bot-rs/src/event_processor.rs:662-673 | a run: claimed until 10, expired by the sweep at 15, active again at 20 by a renewal dated 9 |
| `LeaseAuthority.LeaseGivesAuthority` | nodns-bot-rs/src/auth.rs:144-196 | throughout a lease, in every state of every run, authority over the name is granted to the claimant's key and no other |
| `LeaseAuthority.LeaseResolves` | nodns-bot-rs/src/store.rs:913-939 | throughout a lease the store answers the holder with a delegated name of the zone |
| `Registry.LeaseProtectsRecords` | nodns-bot-rs/src/event_processor.rs:849-1024 | in every run of claims, renewals, sweeps and events, throughout a lease nothing but the holder's own events changes an RRset at the leased name, nor, from tables of single labels, at its proof name |
| `Registry.GraceProtectsRecords` | nodns-bot-rs/src/main.rs:137-206 | in every run, until the end of a row's grace and unless the name is claimed, nothing but the holder's own events changes an RRset at the name or its proof name; no sweep deletes there before |
| `Registry.LapsedNameKeepsItsRecords` | nodns-bot-rs/src/main.rs:144-193 | a run from empty tables: two claims, a record and two sweeps, after which the second name has expired and its record is still in the DNS |
| `LeaseExpiry.DeleteLapsedRecords` | nodns-bot-rs/src/main.rs:147-173 | exactly the RRsets of the holder's live records under the domain are emptied, save those whose message is rejected |
| `LeaseExpiry.SweepRow` | nodns-bot-rs/src/main.rs:137-206 | the status, records and RRsets one past-due row leaves behind |
| `LeaseExpiry.Sweep` | nodns-bot-rs/src/main.rs:115-209 | visiting the past-due rows soonest end first, the table becomes the swept table, the records of lapsed holders are marked deleted, and exactly those RRsets are emptied that a live record of the holder names under the first name it loses in a zone |
| `LeaseExpiry.LapsesIff` | nodns-bot-rs/src/main.rs:144-176 | the rows whose records a sweep deletes are exactly those it makes expired, at or after the end of grace |
| `LeaseExpiry.SweptRows` | nodns-bot-rs/src/main.rs:176-181 | a sweep marks a record deleted exactly when it makes a lease of the record's signer in its zone expired |
| `LeaseExpiry.GraceSparesRows` | nodns-bot-rs/src/main.rs:144-181 | while all names of a signer in a zone have grace left, a sweep marks none of its records there |
| `LeaseExpiry.GraceSparesRRsets` | nodns-bot-rs/src/main.rs:144-173 | a sweep before the end of a name's grace changes no RRset under it |
| `LeaseExpiry.LapsedIsClearedIff` | nodns-bot-rs/src/main.rs:144-193 | an RRset under a lapsed name is empty after the sweep exactly when it was empty, or the name is its holder's first to lapse in the zone, a live record points there and the message gets through |
| `LeaseExpiry.FirstIsSoonest` | nodns-bot-rs/src/store.rs:996-1019 | a name that ends before the holder's other lapsing names in the zone is first, and none that ends after another is |
| `LeaseExpiry.EarlierLossStrands` | nodns-bot-rs/src/main.rs:148-180 | once a sweep has taken one name of a holder in a zone, the next sweep that takes another, with no record saved in between, empties nothing under it |
| `LeaseExpiry.SweptNamesAreOwnerless` | nodns-bot-rs/src/main.rs:145-193 | whatever a sweep changes it empties, and the name then belongs to nobody |
| `Store.Store.SaveDelegation` | nodns-bot-rs/src/store.rs:795-824 | the row replaces the one of its domain and zone |
| `Store.Store.GetDelegation` | nodns-bot-rs/src/store.rs:860-884 | the row of a domain and zone, whatever its status |
| `Store.Store.RenewDelegation` | nodns-bot-rs/src/store.rs:887-910 | end, renewal date, event and status change; holder and the rest do not |
| `Store.Store.IsNameAvailable` | nodns-bot-rs/src/store.rs:942-962 | free unless active before its end or in grace |
| `Store.Store.MarkDelegationGrace` | nodns-bot-rs/src/store.rs:1052-1060 | only an active row enters grace |
| `Store.Store.MarkDelegationExpired` | nodns-bot-rs/src/store.rs:1063-1071 | the row's status becomes expired |
| `Store.Store.GetDelegationsPastValidUntil` | nodns-bot-rs/src/store.rs:996-1019 | exactly the rows past their end and not expired, each once, soonest end first |
| `Store.Store.SaveEvent` | nodns-bot-rs/src/store.rs:329-350 | rows of the same primary key give way and the row becomes the newest |
| `Store.Store.DeleteRecordsByKey` | nodns-bot-rs/src/store.rs:363-376 | the rows of one record are marked deleted, others kept |
| `Store.Store.SoftDeleteRecordsByNpubZone` | nodns-bot-rs/src/store.rs:1076-1089 | the rows of one npub in one zone are marked deleted |
| `Store.Store.RecordCountByPubkey` | nodns-bot-rs/src/store.rs:455-466 | the number of live rows of a key |
| `Store.Store.EventsInLastMinute` | nodns-bot-rs/src/store.rs:619-636 | the number of rows of a key saved in the last 60 seconds |
| `EventLog.LatestAfterSave` | nodns-bot-rs/src/store.rs:329-350 | saving makes a row the latest of its record and leaves every other record's latest alone |
| `EventLog.LatestAfterDelete` | nodns-bot-rs/src/store.rs:363-376 | deleting leaves a record without live row and every other record's latest alone |
| `EventLog.SavedExactly` | nodns-bot-rs/src/store.rs:329-350 | a saved row is the newest and the only one of its primary key; rows of other keys stay |
| `EventLog.MarkedExactly` | nodns-bot-rs/src/store.rs:363-376 | deleting a record marks its rows and no others, and changes nothing else |
| `EventLog.LiveRowsCounted` | nodns-bot-rs/src/store.rs:455-466 | the record count is the number of live rows of the key |
| `EventLog.RecentRowsCounted` | nodns-bot-rs/src/store.rs:619-636 | the rate count is the number of rows of the key processed in the last 60 seconds |
| `EventProcessor.ProcessClaim` | nodns-bot-rs/src/event_processor.rs:491-607 | the handler performs the claim transition and accepts exactly when it changes the row |
| `EventProcessor.ProcessRenewal` | nodns-bot-rs/src/event_processor.rs:613-739 | the handler performs the renewal transition and accepts exactly when it changes the row |
| `EventProcessor.ProcessRecordTag` | nodns-bot-rs/src/event_processor.rs:849-960 | one record tag in one zone: gates, authority, update, proof and saved row |
| `EventProcessor.ProcessRecordsInZone` | nodns-bot-rs/src/event_processor.rs:849-960 | all record tags in one zone, in order |
| `EventProcessor.ProcessDnsUpdate` | nodns-bot-rs/src/event_processor.rs:769-966 | the limits, then all record tags in all zones, in the order given |
| `EventProcessor.ProcessDeleteTag` | nodns-bot-rs/src/event_processor.rs:992-1023 | one delete tag in one zone: authority, deletion, proof deletion, rows marked |
| `EventProcessor.ProcessDeletesInZone` | nodns-bot-rs/src/event_processor.rs:992-1023 | all delete tags in one zone, in order |
| `EventProcessor.ProcessDnsDeletes` | nodns-bot-rs/src/event_processor.rs:972-1026 | all delete tags in all zones, in the order given |
| `EventProcessor.ProcessTags` | nodns-bot-rs/src/event_processor.rs:244-278 | the record tags, then the delete tags of one event; no RRset at a name granted to another key, or at the proof name of one, changes |
| `EventProcessor.ProcessEvent` | nodns-bot-rs/src/event_processor.rs:77-283 | an event without the work or burn asked for changes nothing; any other performs its claim, its renewal, then its record and delete tags, and disturbs no name reserved for another key |
| `EventProcessor.HeardIff` | nodns-bot-rs/src/event_processor.rs:101-134 | with work asked for, an id is heard exactly below its numeric threshold; with money, exactly when enough is burned; with both, by either |
| `EventProcessor.EventIsRun` | nodns-bot-rs/src/event_processor.rs:160-278 | handling an event is the run of its claim, its renewal and its tags, in this order, so that the run results apply |
| `TagEffects.DropEffect` | nodns-bot-rs/src/event_processor.rs:992-1022 | one delete tag, exactly: which RRsets are emptied and which rows marked, by authority and fate of its messages |
| `TagEffects.DeleteTagDeletes` | nodns-bot-rs/src/event_processor.rs:972-1026 | for every delete tag of an event with authority, delegated name or npub: the RRset is empty after the event, no row of the record lives, and the proof is gone |
| `TagEffects.PutEffect` | nodns-bot-rs/src/event_processor.rs:849-960 | one record tag, exactly: when it sends, what its RRset and its proof become, and which row is saved |
| `TagEffects.RowFields` | nodns-bot-rs/src/event_processor.rs:938-958 | the fields of the saved row |
| `TagEffects.RecordTagShows` | nodns-bot-rs/src/event_processor.rs:769-966 | the last record tag at a name and type shows exactly its data after the event, or nothing where a CNAME and other data meet |
| `TagEffects.WithinLimitsIff` | nodns-bot-rs/src/event_processor.rs:789-817 | the limits: live rows of the key plus tags to come, and rows of the last 60 seconds |
| `TagEffects.OverLimitIsIgnored` | nodns-bot-rs/src/event_processor.rs:789-817 | record tags over a limit change nothing |
| `TagEffects.ProofFields` | nodns-bot-rs/src/event_processor.rs:745-757 | splitting a proof at its semicolons gives version, kind, key, signature, event, time, type, name and data, each under its label |
| `TxtPieces.Chunks` | nodns-bot-rs/src/event_processor.rs:758-762 | one character-string for every 255 octets begun |
| `TxtPieces.PiecesSpellIff` | nodns-bot-rs/src/event_processor.rs:745-763 | for every proof, the character-strings joined spell it exactly when no character straddles a cut |
| `TxtPieces.AsciiIsSpelled` | nodns-bot-rs/src/event_processor.rs:745-763 | an ASCII proof is always spelled |
| `TxtPieces.StraddledIsNotSpelled` | nodns-bot-rs/src/event_processor.rs:758-762 | 254 letters and a two-octet character are not |
| `NonInterference.PutWrites` | nodns-bot-rs/src/event_processor.rs:849-960 | a record tag changes RRsets only in its zone, at its resolved name or that name's proof, and only with authority over the name |
| `NonInterference.DropWrites` | nodns-bot-rs/src/event_processor.rs:992-1023 | the same of a delete tag |
| `NonInterference.WrittenIsOwned` | nodns-bot-rs/src/auth.rs:76-197 | neither an owned name nor its proof is granted to, or the proof of a name granted to, anyone but the owner |
| `NonInterference.EventsWriteTheirOwn` | nodns-bot-rs/src/event_processor.rs:849-1024 | an event changes only RRsets at names granted to its signer, or at their proof names, in zones the bot updates |
| `NonInterference.NonInterferenceHolds` | nodns-bot-rs/src/event_processor.rs:849-1024 | handling all record and delete tags of an event, proofs included, changes no RRset at a name granted to another key or at the proof name of one |
| `NonInterference.NonInterferenceOverRuns` | nodns-bot-rs/src/event_processor.rs:849-1024 | the same over runs of events under changing tables |
| `Agreement.AgreementMeans` | nodns-bot-rs/src/event_processor.rs:908-959 | under agreement the RRset of a record is the data of its last live row in saving order, and empty exactly when no row of it lives |
| `Agreement.BlockedIffConflict` | nodns-connectors/src/dns.rs:427-433 | the server ignores an update exactly when the store holds a live row of the signer that cannot share the name |
| `Agreement.OwnPutAgreesIff` | nodns-bot-rs/src/event_processor.rs:908-959 | an applied update keeps store and DNS in agreement exactly when no conflicting live row stands at the name |
| `Agreement.OwnDropAgrees` | nodns-bot-rs/src/event_processor.rs:1000-1022 | an applied deletion keeps store and DNS in agreement |
| `Agreement.LostPutAgreesIff` | nodns-bot-rs/src/event_processor.rs:908-925 | an update applied without its acknowledgement keeps the agreement exactly when it repeats the latest live row's data, or is ignored where there is no live row |
| `Agreement.LostDropAgreesIff` | nodns-bot-rs/src/event_processor.rs:1000-1012 | a deletion applied without its acknowledgement keeps the agreement exactly when there was no live row |
| `Agreement.CnameBesideText` | nodns-bot-rs/src/event_processor.rs:908-959 | two events: a text record that agrees, and a CNAME at the same name that is saved and not shown |
| `Agreement.LosingSweepAgreesIff` | nodns-bot-rs/src/main.rs:144-180 | a sweep that takes a name of the zone from a signer keeps the agreement at its own names exactly when they had no live rows |
| `Agreement.StoreAndDnsAgree` | nodns-bot-rs/src/event_processor.rs:849-1024 | over runs of claims, renewals, sweeps and events by all signers, each RRset at a name under an npub is the data of its last live row and empty exactly when no row lives, given that its signer claims nothing in the zone, asks at the name for CNAMEs only or for none, spells it one way, has its messages there acknowledged when applied, and that the zone keeps no other proofs there |
| `ZoneData.ReplaceAt` | nodns-connectors/src/dns.rs:404-433 | one delete-and-insert message leaves exactly the new record, or nothing when a CNAME blocks it, and other RRsets alone |
| `ZoneData.AppendAt` | nodns-connectors/src/dns.rs:513-564 | an inserted record joins its RRset, a CNAME replaces its own, and neither where they would meet |
| `ZoneData.BlockedIff` | nodns-connectors/src/dns.rs:427-433 | where they meet: a CNAME at a name with other data, or data at a name with a CNAME |
| `ZoneData.Knot.SendUpdateRecord` | nodns-connectors/src/dns.rs:407-464 | unparseable data sends nothing; otherwise the RRset is replaced unless the message is rejected |
| `ZoneData.Knot.SendUpdateTxtMulti` | nodns-connectors/src/dns.rs:470-509 | the TXT RRset is replaced by one record of several strings |
| `ZoneData.Knot.SendAppendRecord` | nodns-connectors/src/dns.rs:513-564 | the record joins its RRset |
| `ZoneData.Knot.SendDeleteRecord` | nodns-connectors/src/dns.rs:568-598 | the RRset is emptied |
| `Rdata.TypeNumbers` | nodns-bot-rs/src/types.rs:238-250 | the record types and their numbers, 0 for anything else |
| `Rdata.EnsureFqdn` | nodns-connectors/src/dns.rs:92-98 | the result ends with a dot, and only names without one change |
| `Rdata.MxParsedIff` | nodns-connectors/src/dns.rs:183-201 | exactly which texts are read as a mail exchanger, and as which: a 16-bit number, a space and a well-formed name, its final dot added where missing |
| `Rdata.SrvParsedIff` | nodns-connectors/src/dns.rs:203-238 | the same for a service: three 16-bit numbers and a name |
| `Rdata.OthersParsedIff` | nodns-connectors/src/dns.rs:147-244 | addresses as their parsers read them, any text as one string, names with a final dot added, and nothing for other types |
| `Rdata.RdataRoundTrip` | nodns-bot-rs/src/dns_update_server.rs:413-460 | printing and parsing gives the value back exactly when its names are fully qualified and its text is one string; text is never altered |
| `Rdata.ParsedIsStable` | nodns-connectors/src/dns.rs:147-244 | whatever the updater parses is canonical and survives printing and parsing unchanged |
| `AcmeDns.AcmeDnsStore.UpdateAcmeDnsTxt` | nodns-bot-rs/src/store.rs:1380-1388 | the current value becomes the previous one |
| `AcmeDns.UpdateHandler` | nodns-bot-rs/src/handlers/acme_dns.rs:100-219 | credentials, rotation, then the three messages until one of the first two fails; the status is exact |
| `AcmeDns.PublishedAt` | nodns-bot-rs/src/handlers/acme_dns.rs:180-210 | an update touches one TXT RRset, and when all messages apply it holds the new value and the previous non-empty one |
| `AcmeDns.PublishedByMessages` | nodns-bot-rs/src/handlers/acme_dns.rs:180-210 | what each fate of the three messages leaves in the TXT RRset |
| `AcmeDns.TwoValueWindow` | nodns-bot-rs/src/handlers/acme_dns.rs:162-210 | after any history by any users, a user whose last accepted update applied fully has exactly its value and the one accepted before it, however earlier updates fared in DNS and whatever requests were refused since |
| `Failover.FailoverConnector.constructor` | nodns-connectors/src/failover.rs:42-47 | a new connector is closed |
| `Failover.FailoverConnector.RecordPrimarySuccess` | nodns-connectors/src/failover.rs:63-70 | a success closes the circuit |
| `Failover.FailoverConnector.RecordPrimaryFailure` | nodns-connectors/src/failover.rs:74-102 | a failure counts, and from the third on opens for 300 s and asks for the fallback |
| `Failover.FailoverConnector.Route` | nodns-connectors/src/failover.rs:131-164 | which backend answers and what is recorded |
| `Failover.FailoverClosedForm` | nodns-connectors/src/failover.rs:51-103 | after outcomes recorded in any order the counter is the saturated streak, and the circuit is open until 300 s after the last failure exactly when the streak is at least three |
| `Failover.RouteClosedForm` | nodns-connectors/src/failover.rs:131-164 | which backend is asked and what is recorded, from the outcomes recorded before: the fallback alone exactly within 300 s of the last of three failures |
| `Failover.Recovers` | nodns-connectors/src/failover.rs:51-70 | from every reachable state a call 300 s after the last failure tries the primary, and its success closes the circuit |
| `Failover.ProbeBudget` | nodns-connectors/src/failover.rs:131-164 | from any reachable state, one call at a time, an always-failing primary is attempted at most 3 + floor(T / 300 s) times in time T |
| `CircuitBreaker.Breaker.IsAvailable` | nodns-connectors/src/circuit_breaker.rs:93-116 | the decision, the move to half open, and no effect on other keys |
| `CircuitBreaker.Breaker.RecordSuccess` | nodns-connectors/src/circuit_breaker.rs:119-133 | the key's circuit is fresh, others unchanged |
| `CircuitBreaker.Breaker.RecordFailure` | nodns-connectors/src/circuit_breaker.rs:137-171 | the key's failure is counted and may open it, others unchanged |
| `CircuitBreaker.KeysAreIndependent` | nodns-connectors/src/circuit_breaker.rs:93-171 | under any interleaving a key's entry depends on its own calls alone |
| `CircuitBreaker.BreakerRefinesHistory` | nodns-connectors/src/circuit_breaker.rs:93-171 | the counter is the saturated count of failures since the last success, closed exactly below three, with an open time exactly while not closed |
| `CircuitBreaker.EntryFromHistory` | nodns-connectors/src/circuit_breaker.rs:93-171 | the whole entry from the history: counter, opening time (third failure, or first after a probe) and half open exactly once probed after the cooldown |
| `CircuitBreaker.LastOpening` | nodns-connectors/src/circuit_breaker.rs:137-171 | the open time is that of the last failure recorded while the circuit was not open |
| `CircuitBreaker.CooldownFromFailure` | nodns-connectors/src/circuit_breaker.rs:142-147 | 300 s of refusals follow every failure that opens the circuit, a failed probe included, unless a success comes between |
| `CircuitBreaker.FailedProbeRestarts` | nodns-connectors/src/circuit_breaker.rs:142-147 | a run: an admitted probe fails and the next check is refused |
| `CircuitBreaker.AdmitsIff` | nodns-connectors/src/circuit_breaker.rs:93-116 | after any history a call is admitted exactly with fewer than three failures since the last success, or 300 s after the circuit opened |
| `CircuitBreaker.OpenedByFailure` | nodns-connectors/src/circuit_breaker.rs:137-171 | the open time is that of a failure, the third or later since the last success |
| `CircuitBreaker.CooldownHolds` | nodns-connectors/src/circuit_breaker.rs:99-115 | in every run an availability query within 300 s of opening is refused unless a success was recorded |
| `CircuitBreaker.HalfOpenAdmitsEveryCaller` | nodns-connectors/src/circuit_breaker.rs:96-98 | while half open any number of callers is admitted |
| `CircuitBreaker.ThreeCallersProbe` | nodns-connectors/src/circuit_breaker.rs:93-116 | a history of three failures and a cooldown after which three calls in a row are admitted |
| `RecordCache.KeyIsInjective` | nodns-connectors/src/cloudflare_backend.rs:67-73 | cache keys tell normalised names and types apart |
| `RecordCache.SameSlotIff` | nodns-connectors/src/cloudflare_backend.rs:67-73 | names and types share a cache key exactly when they differ in case and final dots alone |
| `RecordCache.Payload` | nodns-connectors/src/cloudflare_backend.rs:146-152 | requests carry the name, type and content given, and a TTL of 1 or at least 60 |
| `RecordCache.CloudflareBackend.FindRecordId` | nodns-connectors/src/cloudflare_backend.rs:75-135 | the id found, cached or listed, is a live record of exactly that name and type, none is reported only when none exists, and the cache stays coherent |
| `RecordCache.CloudflareBackend.CreateRecord` | nodns-connectors/src/cloudflare_backend.rs:137-169 | the record appears under its new id, the cache stays coherent |
| `RecordCache.CloudflareBackend.PatchRecord` | nodns-connectors/src/cloudflare_backend.rs:171-197 | the record is rewritten in place, the cache stays coherent |
| `RecordCache.CloudflareBackend.DeleteRecordById` | nodns-connectors/src/cloudflare_backend.rs:199-214 | the record is gone and so is every cached id that named it |
| `RecordCache.CloudflareBackend.UpsertRecord` | nodns-connectors/src/cloudflare_backend.rs:311-324 | the zone ends as a backend without cache would leave it, and fails exactly when the write fails or an uncached listing does |
| `RecordCache.CloudflareBackend.DeleteRecord` | nodns-connectors/src/cloudflare_backend.rs:326-338 | the zone ends as a backend without cache would leave it |
| `RecordCache.UpsertIsMapUpdate` | nodns-connectors/src/cloudflare_backend.rs:311-324 | upsert is map update on names and types, keeping one record each |
| `RecordCache.DeleteIsMapRemoval` | nodns-connectors/src/cloudflare_backend.rs:326-338 | delete is map removal |
| `RecordCache.LastWriterWins` | nodns-connectors/src/cloudflare_backend.rs:311-338 | without a cache, after any sequence of operations each name and type holds what the last operation on it left |
| `RecordCache.Perform` | nodns-connectors/src/cloudflare_backend.rs:311-338 | one call on the cached backend moves the zone as without a cache when it returns Ok, and not at all otherwise |
| `RecordCache.PerformAll` | nodns-connectors/src/cloudflare_backend.rs:67-338 | any sequence of upserts and deletes on the cached backend, with any requests failing: the cache stays coherent, the zone is the cache-less one of the calls that returned Ok, each name and type holds what the last of those left, and a record once written is written again without a listing until its name is removed |
| `Quota.SubscriptionStore.CreateResolverSubscription` | nodns-bot-rs/src/store.rs:479-505 | a new subscription starts uncharged on the current day |
| `Quota.SubscriptionStore.ValidateResolverSubscription` | nodns-bot-rs/src/store.rs:507-554 | acceptance and the charged row |
| `Quota.QuotaHolds` | nodns-bot-rs/src/store.rs:507-554 | over every run on any tokens at most the limit is accepted on any day, nothing at or after expiry, and in all at most the limit times the days used |
| `Quota.AcceptedIff` | nodns-bot-rs/src/store.rs:507-554 | after any run a call is accepted exactly when the token is known, unexpired, and fewer than its limit were accepted the same day; each day starts afresh |
| `Quota.LastQueryKept` | nodns-bot-rs/src/store.rs:545-551 | a row's last query time is that of its last accepted call |
| `RateLimit.Worker.CheckRateLimit` | nodns-clientlog-worker/src/index.ts:34-43 | the decision and the new bucket of the address |
| `RateLimit.WindowBound` | nodns-clientlog-worker/src/index.ts:34-43 | one window accepts at most 50 |
| `RateLimit.AllowedIff` | nodns-clientlog-worker/src/index.ts:34-43 | after the request that opened a window and any others inside it, one more is accepted exactly when the window is over or holds fewer than 50 of the address, refused ones counted |
| `RateLimit.OthersDoNotCount` | nodns-clientlog-worker/src/index.ts:34-43 | requests of other addresses leave a bucket alone |
| `RateLimit.SlidingBound` | nodns-clientlog-worker/src/index.ts:34-43 | in every chronological run every closed interval of 60 000 ms holds at most 99 accepted requests of one address |
| `RateLimit.SlidingBoundIsTight` | nodns-clientlog-worker/src/index.ts:34-43 | a run with 99 in one interval |
| `ProofOfWork.CountLeadingZeroBits` | nodns-bot-rs/src/pow.rs:12-27 | the bot's loop counts the leading zero bits of the id |
| `ProofOfWork.CountLeadingZeroBitsResolver` | nodns-resolver/src/types.ts:37-50 | the resolver's loop returns the same number on every string |
| `ProofOfWork.VerifyPow` | nodns-bot-rs/src/pow.rs:31-34 | difficulty is met |
| `ProofOfWork.HexDigitIs` | nodns-bot-rs/src/pow.rs:15-17 | the digits are 0 to 9 and a to f in both cases, in order |
| `ProofOfWork.DifficultyIsThreshold` | nodns-bot-rs/src/pow.rs:12-34 | an id of n hex digits meets difficulty d exactly when d is at most 4n and its value is below 2^(4n - d) |
| `Corroboration.CompareTripartite` | nodns-resolver-rs/src/verify.rs:157-217 | match holds exactly when every key is reported by two sources, and the three lists hold exactly the keys of one source alone, each once (also nodns-resolver/src/verify.ts:146-186) |
| `Corroboration.ResolvedKeysExactly` | nodns-resolver-rs/src/verify.rs:219-298 | exactly which keys a resolution returns |
| `Corroboration.ResolvedRecordsExactly` | nodns-resolver-rs/src/verify.rs:219-298 | the returned records one by one, in order, with the source's own type, name, TTL and data |
| `Corroboration.ResolvedAreAttested` | nodns-resolver-rs/src/verify.rs:219-298 | every returned record is attested by two sources, matching or not |
| `Corroboration.AttestedIsReturnedIff` | nodns-resolver/src/verify.ts:188-233 | an attested key is returned exactly when the DNS has it or is empty (match) or the API has it (mismatch) |
| `Corroboration.AttestedNotReturned` | nodns-resolver-rs/src/verify.rs:219-298 | matching sources with an address two of them report and the resolution leaves out |
| `Corroboration.ResolvedStandInTwoSources` | nodns-resolver-rs/src/verify.rs:219-298 | with record types free of ':' the returned type and data themselves stand in two sources |

## Left out

- Delegation events, lease events and paid claims over NIP-17: they replace rows without, or long after, an availability test, so the run results range over claims, renewals and sweeps.
- Interleaving inside one event, one sweep or one acme-dns update: the sweep works from a snapshot and the handlers await between store and DNS; each is one step here.
- Failing store calls, and the event cache some zones keep in DNS.
- Presentation-format escapes, case folding and length limits of DNS names inside the library parser; they can only reject a message here.
- TTLs in Knot zones.
- TXT data that is not valid UTF-8, which printing replaces.
- Address parsing itself: the canonical text of an address is the library's.
- Retries, rate-limit waits and record listing of the Cloudflare client, and a delete whose acknowledgement is lost, after which a cached id can be stale.
- EventProcessor.ProcessRecordTag: the gates of .cv zones (registry calls, name classes, payments) are one Boolean per tag, because they rest on remote registries; metrics and log lines are not modelled.
- EventProcessor.ProcessEvent: the lease, delegation and registrar tags of the same event, burn proofs themselves, the test label and the event cache in DNS are not part of it; the keys in force are an argument.
- Test-record cleanup, ACME orders, the RFC 2136 server's forwarding, relay subscription, HTTP routing, transports, cryptography, front ends and configuration.
