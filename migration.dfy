/**
 * The migration pipeline: the extractor fills the in-memory legacy maps, the
 * account pass writes ACCOUNT and ACCOUNT_GROUPS, and the application passes
 * write APPLICATION (get-or-create per account), AVAILABILITY, COMPETENCE and
 * COMPETENCEPROFILE.
 *
 * The iteration order of a HashMap's `values()` is a parameter `order`: the
 * keys of the map in some fixed order.
 */
module Migration {
  import opened Common
  import opened Legacy
  import opened TargetStore

  // ---------------------------------------------------------------------
  // Specification of the account pass
  // ---------------------------------------------------------------------

  /** The ACCOUNT row of a legacy account copies its fields and looks its role up by id. */
  ghost predicate CopiedFrom(row: AccountRow, acc: LegacyAccount, roles: map<int, string>) {
    row.firstName == acc.firstName && row.lastName == acc.lastName && row.email == acc.email &&
    row.username == acc.username && row.password == acc.password && row.ssn == acc.ssn &&
    row.role == (if acc.roleId in roles then Some(roles[acc.roleId]) else None)
  }

  function NewAccountRow(acc: LegacyAccount, roles: map<int, string>, id: int): AccountRow {
    AccountRow(id, acc.firstName, acc.lastName, acc.email, acc.username, acc.password,
               if acc.roleId in roles then Some(roles[acc.roleId]) else None, acc.ssn)
  }

  /** The ACCOUNT rows written for the legacy accounts visited in `order`, ids from `firstId` on. */
  function AccountRows(order: seq<int>, accounts: map<int, LegacyAccount>, roles: map<int, string>, firstId: int)
    : seq<AccountRow>
    requires forall i :: 0 <= i < |order| ==> order[i] in accounts
  {
    seq(|order|, i requires 0 <= i < |order| => NewAccountRow(accounts[order[i]], roles, firstId + i))
  }

  /**
   * Visiting every legacy account once writes exactly one ACCOUNT row per
   * legacy account, copying its fields and resolving its role.
   */
  lemma OneAccountRowPerLegacyAccount(order: seq<int>, accounts: map<int, LegacyAccount>,
                                      roles: map<int, string>, firstId: int, k: int)
    requires IsEnumeration(order, accounts.Keys) && k in accounts
    ensures |AccountRows(order, accounts, roles, firstId)| == |accounts|
    ensures exists i :: 0 <= i < |order| && order[i] == k &&
                        CopiedFrom(AccountRows(order, accounts, roles, firstId)[i], accounts[k], roles) &&
                        forall j :: 0 <= j < |order| && j != i ==> order[j] != k
  {
    EnumerationLength(order, accounts.Keys);
    var i :| 0 <= i < |order| && order[i] == k;
    assert CopiedFrom(AccountRows(order, accounts, roles, firstId)[i], accounts[k], roles);
  }

  /** Every ACCOUNT row has a role: the group pass needs nothing more to succeed. */
  ghost predicate RolesKnown(accounts: seq<AccountRow>) {
    forall i :: 0 <= i < |accounts| ==> accounts[i].role.Some?
  }

  /**
   * The result of the group pass over the ACCOUNT table: one row per
   * non-applicant account, in table order; the pass stops with NullRole at
   * the first account whose role is NULL, having written the rows before it.
   */
  ghost predicate GroupPassResult(accounts: seq<AccountRow>, before: seq<GroupRow>, after: seq<GroupRow>,
                                  outcome: Outcome)
  {
    (outcome == Done <==> RolesKnown(accounts)) &&
    (outcome == Done ==> after == before + GroupRows(accounts)) &&
    (outcome != Done ==>
       outcome == Failed(NullRole) &&
       exists k :: 0 <= k < |accounts| && accounts[k].role.None? &&
                   (forall j :: 0 <= j < k ==> accounts[j].role.Some?) &&
                   after == before + GroupRows(accounts[..k]))
  }

  // ---------------------------------------------------------------------
  // Specification of the application passes
  // ---------------------------------------------------------------------

  /** The ACCOUNT row of a legacy owner: the legacy account's SSN looked up in ACCOUNT. */
  function OwnerAccount(legacy: map<int, LegacyAccount>, accounts: seq<AccountRow>, ownerId: int)
    : Result<AccountRow>
  {
    if ownerId !in legacy then Err(UnknownOwner)
    else match SelectAccountBySsn(accounts, legacy[ownerId].ssn)
      case Some(acc) => Ok(acc)
      case None => Err(NoAccountWithSsn)
  }

  /** A dependent row of legacy owner `ownerId` points at `applId`, the application of the owner's account. */
  ghost predicate ResolvesTo(legacy: map<int, LegacyAccount>, accounts: seq<AccountRow>,
                             apps: seq<ApplicationRow>, ownerId: int, applId: int)
  {
    OwnerAccount(legacy, accounts, ownerId).Ok? &&
    var acc := OwnerAccount(legacy, accounts, ownerId).value;
    SelectApplication(apps, acc.id).Some? && SelectApplication(apps, acc.id).value.id == applId
  }

  /** Later inserts into APPLICATION never re-point a dependent row. */
  lemma ResolvesToStable(legacy: map<int, LegacyAccount>, accounts: seq<AccountRow>,
                         apps: seq<ApplicationRow>, more: seq<ApplicationRow>, ownerId: int, applId: int)
    requires ResolvesTo(legacy, accounts, apps, ownerId, applId)
    ensures ResolvesTo(legacy, accounts, apps + more, ownerId, applId)
  {
    SelectApplicationStable(apps, more, OwnerAccount(legacy, accounts, ownerId).value.id);
  }

  /**
   * Two dependent rows whose owners share an SSN (in particular, rows of the
   * same owner) point at the same application, and under the cardinality
   * invariant that application is the only one of the account.
   */
  lemma SameOwnerSameApplication(legacy: map<int, LegacyAccount>, accounts: seq<AccountRow>,
                                 apps: seq<ApplicationRow>, owner1: int, owner2: int, applId1: int, applId2: int)
    requires OneApplicationPerAccount(apps)
    requires ResolvesTo(legacy, accounts, apps, owner1, applId1)
    requires ResolvesTo(legacy, accounts, apps, owner2, applId2)
    requires legacy[owner1].ssn == legacy[owner2].ssn
    ensures applId1 == applId2
    ensures forall i :: 0 <= i < |apps| && apps[i].accId == OwnerAccount(legacy, accounts, owner1).value.id ==>
                        apps[i].id == applId1
  {
    var accId := OwnerAccount(legacy, accounts, owner1).value.id;
    forall i | 0 <= i < |apps| && apps[i].accId == accId
      ensures apps[i].id == applId1
    {
      OnlyApplication(apps, accId, i);
    }
  }

  /** `after` extends `before` with applications created by this run: SUBMITTED, stamped `now`. */
  ghost predicate CreatedApplications(before: seq<ApplicationRow>, after: seq<ApplicationRow>, now: Timestamp) {
    before <= after &&
    forall i :: |before| <= i < |after| ==> after[i].status == Submitted && after[i].timeOfReg == now
  }

  /** Two passes in a row create applications as one. */
  lemma CreatedApplicationsTrans(before: seq<ApplicationRow>, middle: seq<ApplicationRow>,
                                 after: seq<ApplicationRow>, now: Timestamp)
    requires CreatedApplications(before, middle, now) && CreatedApplications(middle, after, now)
    ensures CreatedApplications(before, after, now)
  {
    forall i | |before| <= i < |after|
      ensures after[i].status == Submitted && after[i].timeOfReg == now
    {
      if i < |middle| {
        assert after[i] == middle[i];
      }
    }
  }

  /** Appending extends a table. */
  lemma AppendExtends<T>(table: seq<T>, rows: seq<T>)
    ensures table <= table + rows
  {
  }

  /** The legacy records that a visit in `order` reads, in that order. */
  function Visit<V>(m: map<int, V>, order: seq<int>): seq<V>
    requires forall i :: 0 <= i < |order| ==> order[i] in m
  {
    seq(|order|, i requires 0 <= i < |order| => m[order[i]])
  }

  /** `competences.get(id)`: NULL for an id that was never loaded. */
  function CompetenceOf(competences: map<int, Text>, id: int): Text {
    if id in competences then competences[id] else None
  }

  /**
   * Each AVAILABILITY row copies the dates of the legacy row in the same
   * position and points at the application of that row's owner.
   */
  ghost predicate AvailabilitiesMigrated(legacy: map<int, LegacyAccount>, accounts: seq<AccountRow>,
                                         apps: seq<ApplicationRow>, avails: seq<LegacyAvailability>,
                                         rows: seq<AvailabilityRow>)
  {
    |rows| == |avails| &&
    forall j :: 0 <= j < |rows| ==>
      rows[j].fromDate == avails[j].fromDate && rows[j].toDate == avails[j].toDate &&
      ResolvesTo(legacy, accounts, apps, avails[j].accountId, rows[j].applId)
  }

  /**
   * Each COMPETENCEPROFILE row copies the years of the legacy row in the same
   * position, names its competence (NULL for an unknown competence id) and
   * points at the application of that row's owner.
   */
  ghost predicate ProfilesMigrated(legacy: map<int, LegacyAccount>, competences: map<int, Text>,
                                   accounts: seq<AccountRow>, apps: seq<ApplicationRow>,
                                   profiles: seq<LegacyCompetenceProfile>, rows: seq<ProfileRow>)
  {
    |rows| == |profiles| &&
    forall j :: 0 <= j < |rows| ==>
      rows[j].yearsOfExp == profiles[j].yearsOfExp &&
      rows[j].compId == CompetenceOf(competences, profiles[j].competenceId) &&
      ResolvesTo(legacy, accounts, apps, profiles[j].accountId, rows[j].applId)
  }

  /** Later inserts into APPLICATION keep every migrated availability attached where it was. */
  lemma AvailabilitiesMigratedStable(legacy: map<int, LegacyAccount>, accounts: seq<AccountRow>,
                                     apps: seq<ApplicationRow>, more: seq<ApplicationRow>,
                                     avails: seq<LegacyAvailability>, rows: seq<AvailabilityRow>)
    requires AvailabilitiesMigrated(legacy, accounts, apps, avails, rows)
    ensures AvailabilitiesMigrated(legacy, accounts, apps + more, avails, rows)
  {
    forall j | 0 <= j < |rows|
      ensures ResolvesTo(legacy, accounts, apps + more, avails[j].accountId, rows[j].applId)
    {
      ResolvesToStable(legacy, accounts, apps, more, avails[j].accountId, rows[j].applId);
    }
  }

  lemma AvailabilitiesMigratedAppend(legacy: map<int, LegacyAccount>, accounts: seq<AccountRow>,
                                     apps: seq<ApplicationRow>, avails: seq<LegacyAvailability>,
                                     rows: seq<AvailabilityRow>, avail: LegacyAvailability, row: AvailabilityRow)
    requires AvailabilitiesMigrated(legacy, accounts, apps, avails, rows)
    requires row.fromDate == avail.fromDate && row.toDate == avail.toDate
    requires ResolvesTo(legacy, accounts, apps, avail.accountId, row.applId)
    ensures AvailabilitiesMigrated(legacy, accounts, apps, avails + [avail], rows + [row])
  {
  }

  /** Later inserts into APPLICATION keep every migrated profile attached where it was. */
  lemma ProfilesMigratedStable(legacy: map<int, LegacyAccount>, competences: map<int, Text>,
                               accounts: seq<AccountRow>, apps: seq<ApplicationRow>, more: seq<ApplicationRow>,
                               profiles: seq<LegacyCompetenceProfile>, rows: seq<ProfileRow>)
    requires ProfilesMigrated(legacy, competences, accounts, apps, profiles, rows)
    ensures ProfilesMigrated(legacy, competences, accounts, apps + more, profiles, rows)
  {
    forall j | 0 <= j < |rows|
      ensures ResolvesTo(legacy, accounts, apps + more, profiles[j].accountId, rows[j].applId)
    {
      ResolvesToStable(legacy, accounts, apps, more, profiles[j].accountId, rows[j].applId);
    }
  }

  lemma ProfilesMigratedAppend(legacy: map<int, LegacyAccount>, competences: map<int, Text>,
                               accounts: seq<AccountRow>, apps: seq<ApplicationRow>,
                               profiles: seq<LegacyCompetenceProfile>, rows: seq<ProfileRow>,
                               profile: LegacyCompetenceProfile, row: ProfileRow)
    requires ProfilesMigrated(legacy, competences, accounts, apps, profiles, rows)
    requires row.yearsOfExp == profile.yearsOfExp && row.compId == CompetenceOf(competences, profile.competenceId)
    requires ResolvesTo(legacy, accounts, apps, profile.accountId, row.applId)
    ensures ProfilesMigrated(legacy, competences, accounts, apps, profiles + [profile], rows + [row])
  {
  }

  /**
   * One step of the availability pass: get-or-create the owner's application,
   * then append the row. The pass invariants carry over to the longer prefix.
   */
  lemma AvailabilityStep(legacy: map<int, LegacyAccount>, accounts: seq<AccountRow>,
                         orig: seq<ApplicationRow>, apps: seq<ApplicationRow>, nextId: int, now: Timestamp,
                         avails: seq<LegacyAvailability>, rows: seq<AvailabilityRow>,
                         avail: LegacyAvailability, acc: AccountRow)
    requires OneApplicationPerAccount(apps) && CreatedApplications(orig, apps, now)
    requires AvailabilitiesMigrated(legacy, accounts, apps, avails, rows)
    requires CreatedForOwners(legacy, accounts, orig, apps, AvailabilityOwners(avails))
    requires OwnerAccount(legacy, accounts, avail.accountId) == Ok(acc)
    ensures var (apps', _, appl) := GetOrCreate(apps, nextId, acc.id, now);
      OneApplicationPerAccount(apps') && CreatedApplications(orig, apps', now) &&
      CreatedForOwners(legacy, accounts, orig, apps', AvailabilityOwners(avails + [avail])) &&
      AvailabilitiesMigrated(legacy, accounts, apps', avails + [avail],
                             rows + [AvailabilityRow(avail.fromDate, avail.toDate, appl.id)])
  {
    var (apps', _, appl) := GetOrCreate(apps, nextId, acc.id, now);
    GetOrCreateResult(apps, nextId, acc.id, now);
    GetOrCreateKeepsOnePerAccount(apps, nextId, acc.id, now);
    assert apps + apps'[|apps|..] == apps';
    AvailabilitiesMigratedStable(legacy, accounts, apps, apps'[|apps|..], avails, rows);
    AvailabilitiesMigratedAppend(legacy, accounts, apps', avails, rows,
                                 avail, AvailabilityRow(avail.fromDate, avail.toDate, appl.id));
    CreatedForOwnersStep(legacy, accounts, orig, apps, nextId, now, AvailabilityOwners(avails), avail.accountId, acc);
    assert AvailabilityOwners(avails + [avail]) == AvailabilityOwners(avails) + [avail.accountId];
  }

  /**
   * One step of the profile pass: get-or-create the owner's application,
   * then append the row. The pass invariants carry over to the longer prefix.
   */
  lemma ProfileStep(legacy: map<int, LegacyAccount>, competences: map<int, Text>, accounts: seq<AccountRow>,
                    orig: seq<ApplicationRow>, apps: seq<ApplicationRow>, nextId: int, now: Timestamp,
                    profiles: seq<LegacyCompetenceProfile>, rows: seq<ProfileRow>,
                    profile: LegacyCompetenceProfile, acc: AccountRow)
    requires OneApplicationPerAccount(apps) && CreatedApplications(orig, apps, now)
    requires ProfilesMigrated(legacy, competences, accounts, apps, profiles, rows)
    requires CreatedForOwners(legacy, accounts, orig, apps, ProfileOwners(profiles))
    requires OwnerAccount(legacy, accounts, profile.accountId) == Ok(acc)
    ensures var (apps', _, appl) := GetOrCreate(apps, nextId, acc.id, now);
      OneApplicationPerAccount(apps') && CreatedApplications(orig, apps', now) &&
      CreatedForOwners(legacy, accounts, orig, apps', ProfileOwners(profiles + [profile])) &&
      ProfilesMigrated(legacy, competences, accounts, apps', profiles + [profile],
                       rows + [ProfileRow(profile.yearsOfExp, CompetenceOf(competences, profile.competenceId), appl.id)])
  {
    var (apps', _, appl) := GetOrCreate(apps, nextId, acc.id, now);
    GetOrCreateResult(apps, nextId, acc.id, now);
    GetOrCreateKeepsOnePerAccount(apps, nextId, acc.id, now);
    assert apps + apps'[|apps|..] == apps';
    ProfilesMigratedStable(legacy, competences, accounts, apps, apps'[|apps|..], profiles, rows);
    ProfilesMigratedAppend(legacy, competences, accounts, apps', profiles, rows, profile,
                           ProfileRow(profile.yearsOfExp, CompetenceOf(competences, profile.competenceId), appl.id));
    CreatedForOwnersStep(legacy, accounts, orig, apps, nextId, now, ProfileOwners(profiles), profile.accountId, acc);
    assert ProfileOwners(profiles + [profile]) == ProfileOwners(profiles) + [profile.accountId];
  }

  /**
   * Two AVAILABILITY rows of legacy owners with the same SSN point at the same
   * application, the only one their account has.
   */
  lemma AvailabilitiesShareApplication(legacy: map<int, LegacyAccount>, accounts: seq<AccountRow>,
                                       apps: seq<ApplicationRow>, avails: seq<LegacyAvailability>,
                                       rows: seq<AvailabilityRow>, j: int, k: int)
    requires OneApplicationPerAccount(apps)
    requires AvailabilitiesMigrated(legacy, accounts, apps, avails, rows)
    requires 0 <= j < |rows| && 0 <= k < |rows|
    requires avails[j].accountId in legacy && avails[k].accountId in legacy
    requires legacy[avails[j].accountId].ssn == legacy[avails[k].accountId].ssn
    ensures rows[j].applId == rows[k].applId
    ensures forall i :: 0 <= i < |apps| && apps[i].accId == OwnerAccount(legacy, accounts, avails[j].accountId).value.id ==>
                        apps[i].id == rows[j].applId
  {
    SameOwnerSameApplication(legacy, accounts, apps, avails[j].accountId, avails[k].accountId,
                             rows[j].applId, rows[k].applId);
  }

  /**
   * Two COMPETENCEPROFILE rows of legacy owners with the same SSN point at the
   * same application, the only one their account has.
   */
  lemma ProfilesShareApplication(legacy: map<int, LegacyAccount>, competences: map<int, Text>,
                                 accounts: seq<AccountRow>, apps: seq<ApplicationRow>,
                                 profiles: seq<LegacyCompetenceProfile>, rows: seq<ProfileRow>, j: int, k: int)
    requires OneApplicationPerAccount(apps)
    requires ProfilesMigrated(legacy, competences, accounts, apps, profiles, rows)
    requires 0 <= j < |rows| && 0 <= k < |rows|
    requires profiles[j].accountId in legacy && profiles[k].accountId in legacy
    requires legacy[profiles[j].accountId].ssn == legacy[profiles[k].accountId].ssn
    ensures rows[j].applId == rows[k].applId
    ensures forall i :: 0 <= i < |apps| && apps[i].accId == OwnerAccount(legacy, accounts, profiles[j].accountId).value.id ==>
                        apps[i].id == rows[j].applId
  {
    SameOwnerSameApplication(legacy, accounts, apps, profiles[j].accountId, profiles[k].accountId,
                             rows[j].applId, rows[k].applId);
  }

  /**
   * Across the two passes: an AVAILABILITY row and a COMPETENCEPROFILE row of
   * legacy owners with the same SSN point at the same application, so a
   * person's availabilities and competences end up on one application.
   */
  lemma PassesShareApplication(legacy: map<int, LegacyAccount>, competences: map<int, Text>,
                               accounts: seq<AccountRow>, apps: seq<ApplicationRow>,
                               avails: seq<LegacyAvailability>, availRows: seq<AvailabilityRow>,
                               profiles: seq<LegacyCompetenceProfile>, profileRows: seq<ProfileRow>, j: int, k: int)
    requires OneApplicationPerAccount(apps)
    requires AvailabilitiesMigrated(legacy, accounts, apps, avails, availRows)
    requires ProfilesMigrated(legacy, competences, accounts, apps, profiles, profileRows)
    requires 0 <= j < |availRows| && 0 <= k < |profileRows|
    requires avails[j].accountId in legacy && profiles[k].accountId in legacy
    requires legacy[avails[j].accountId].ssn == legacy[profiles[k].accountId].ssn
    ensures availRows[j].applId == profileRows[k].applId
    ensures forall i :: 0 <= i < |apps| && apps[i].accId == OwnerAccount(legacy, accounts, avails[j].accountId).value.id ==>
                        apps[i].id == availRows[j].applId
  {
    SameOwnerSameApplication(legacy, accounts, apps, avails[j].accountId, profiles[k].accountId,
                             availRows[j].applId, profileRows[k].applId);
  }

  /**
   * The availability step stated over the pass's own variables: the `i`-th
   * visited record and the AVAILABILITY table, whose rows from `base` on are
   * the ones this pass wrote.
   */
  lemma AvailabilityVisit(legacy: map<int, LegacyAccount>, accounts: seq<AccountRow>,
                          orig: seq<ApplicationRow>, apps: seq<ApplicationRow>, nextId: int, now: Timestamp,
                          visited: seq<LegacyAvailability>, i: int, table: seq<AvailabilityRow>, base: int,
                          acc: AccountRow)
    requires 0 <= i < |visited| && 0 <= base <= |table|
    requires OneApplicationPerAccount(apps) && CreatedApplications(orig, apps, now)
    requires AvailabilitiesMigrated(legacy, accounts, apps, visited[..i], table[base..])
    requires CreatedForOwners(legacy, accounts, orig, apps, AvailabilityOwners(visited[..i]))
    requires OwnerAccount(legacy, accounts, visited[i].accountId) == Ok(acc)
    ensures var (apps', _, appl) := GetOrCreate(apps, nextId, acc.id, now);
      var table' := table + [AvailabilityRow(visited[i].fromDate, visited[i].toDate, appl.id)];
      OneApplicationPerAccount(apps') && CreatedApplications(orig, apps', now) &&
      CreatedForOwners(legacy, accounts, orig, apps', AvailabilityOwners(visited[..i + 1])) &&
      AvailabilitiesMigrated(legacy, accounts, apps', visited[..i + 1], table'[base..])
  {
    var appl := GetOrCreate(apps, nextId, acc.id, now).2;
    var row := AvailabilityRow(visited[i].fromDate, visited[i].toDate, appl.id);
    AvailabilityStep(legacy, accounts, orig, apps, nextId, now, visited[..i], table[base..], visited[i], acc);
    assert (table + [row])[base..] == table[base..] + [row];
    assert visited[..i + 1] == visited[..i] + [visited[i]];
  }

  /** The profile step stated over the pass's own variables, as for availabilities. */
  lemma ProfileVisit(legacy: map<int, LegacyAccount>, competences: map<int, Text>, accounts: seq<AccountRow>,
                     orig: seq<ApplicationRow>, apps: seq<ApplicationRow>, nextId: int, now: Timestamp,
                     visited: seq<LegacyCompetenceProfile>, i: int, table: seq<ProfileRow>, base: int,
                     acc: AccountRow)
    requires 0 <= i < |visited| && 0 <= base <= |table|
    requires OneApplicationPerAccount(apps) && CreatedApplications(orig, apps, now)
    requires ProfilesMigrated(legacy, competences, accounts, apps, visited[..i], table[base..])
    requires CreatedForOwners(legacy, accounts, orig, apps, ProfileOwners(visited[..i]))
    requires OwnerAccount(legacy, accounts, visited[i].accountId) == Ok(acc)
    ensures var (apps', _, appl) := GetOrCreate(apps, nextId, acc.id, now);
      var table' := table + [ProfileRow(visited[i].yearsOfExp, CompetenceOf(competences, visited[i].competenceId), appl.id)];
      OneApplicationPerAccount(apps') && CreatedApplications(orig, apps', now) &&
      CreatedForOwners(legacy, accounts, orig, apps', ProfileOwners(visited[..i + 1])) &&
      ProfilesMigrated(legacy, competences, accounts, apps', visited[..i + 1], table'[base..])
  {
    var appl := GetOrCreate(apps, nextId, acc.id, now).2;
    var row := ProfileRow(visited[i].yearsOfExp, CompetenceOf(competences, visited[i].competenceId), appl.id);
    ProfileStep(legacy, competences, accounts, orig, apps, nextId, now, visited[..i], table[base..], visited[i], acc);
    assert (table + [row])[base..] == table[base..] + [row];
    assert visited[..i + 1] == visited[..i] + [visited[i]];
  }

  // ---------------------------------------------------------------------
  // Which applications a pass creates
  // ---------------------------------------------------------------------

  /** The legacy owner ids of `avails`, in order. */
  function AvailabilityOwners(avails: seq<LegacyAvailability>): seq<int> {
    seq(|avails|, j requires 0 <= j < |avails| => avails[j].accountId)
  }

  /** The legacy owner ids of `profiles`, in order. */
  function ProfileOwners(profiles: seq<LegacyCompetenceProfile>): seq<int> {
    seq(|profiles|, j requires 0 <= j < |profiles| => profiles[j].accountId)
  }

  /** The ACCOUNT row of legacy owner `owner` has id `accId`. */
  ghost predicate OwnedBy(legacy: map<int, LegacyAccount>, accounts: seq<AccountRow>, owner: int, accId: int) {
    OwnerAccount(legacy, accounts, owner).Ok? && OwnerAccount(legacy, accounts, owner).value.id == accId
  }

  /** The ids of the ACCOUNT rows that `owners` resolve to, in order; an owner that does not resolve adds none. */
  function OwnerAccountIds(legacy: map<int, LegacyAccount>, accounts: seq<AccountRow>, owners: seq<int>): seq<int> {
    if owners == [] then []
    else
      var last := OwnerAccount(legacy, accounts, owners[|owners| - 1]);
      OwnerAccountIds(legacy, accounts, owners[..|owners| - 1]) + (if last.Ok? then [last.value.id] else [])
  }

  /** An account id is among `OwnerAccountIds` exactly when it is the account of one of the owners. */
  lemma {:induction false} OwnerAccountIdsMeaning(legacy: map<int, LegacyAccount>, accounts: seq<AccountRow>,
                                                  owners: seq<int>, accId: int)
    ensures accId in OwnerAccountIds(legacy, accounts, owners) <==>
            exists o :: o in owners && OwnedBy(legacy, accounts, o, accId)
  {
    if owners != [] {
      var init, last := owners[..|owners| - 1], owners[|owners| - 1];
      assert owners == init + [last];
      OwnerAccountIdsMeaning(legacy, accounts, init, accId);
      if accId in OwnerAccountIds(legacy, accounts, owners) {
        if accId in OwnerAccountIds(legacy, accounts, init) {
          var o :| o in init && OwnedBy(legacy, accounts, o, accId);
          assert o in owners;
        } else {
          assert OwnedBy(legacy, accounts, last, accId);
        }
      }
      if exists o :: o in owners && OwnedBy(legacy, accounts, o, accId) {
        var o :| o in owners && OwnedBy(legacy, accounts, o, accId);
        if o != last {
          assert o in init;
        }
      }
    }
  }

  lemma OwnerAccountIdsAppend(legacy: map<int, LegacyAccount>, accounts: seq<AccountRow>,
                              owners: seq<int>, owner: int, acc: AccountRow)
    requires OwnerAccount(legacy, accounts, owner) == Ok(acc)
    ensures OwnerAccountIds(legacy, accounts, owners + [owner]) == OwnerAccountIds(legacy, accounts, owners) + [acc.id]
  {
    assert (owners + [owner])[..|owners|] == owners;
  }

  /** The accounts of two lists of owners one after the other are those of the one, then those of the other. */
  lemma {:induction false} OwnerAccountIdsConcat(legacy: map<int, LegacyAccount>, accounts: seq<AccountRow>,
                                                 first: seq<int>, second: seq<int>)
    ensures OwnerAccountIds(legacy, accounts, first + second) ==
            OwnerAccountIds(legacy, accounts, first) + OwnerAccountIds(legacy, accounts, second)
  {
    if second == [] {
      assert first + second == first;
    } else {
      var init := second[..|second| - 1];
      OwnerAccountIdsConcat(legacy, accounts, first, init);
      assert (first + second)[..|first + second| - 1] == first + init;
    }
  }

  /**
   * Every application in `after` beyond `before` belongs to the account of
   * one of `owners`: an application is only created when a dependent record
   * of its owner is migrated.
   */
  ghost predicate CreatedForOwners(legacy: map<int, LegacyAccount>, accounts: seq<AccountRow>,
                                   before: seq<ApplicationRow>, after: seq<ApplicationRow>, owners: seq<int>)
  {
    forall i :: |before| <= i < |after| ==> after[i].accId in OwnerAccountIds(legacy, accounts, owners)
  }

  /** Get-or-create for the account of `owner` adds at most an application of that account. */
  lemma CreatedForOwnersStep(legacy: map<int, LegacyAccount>, accounts: seq<AccountRow>,
                             before: seq<ApplicationRow>, apps: seq<ApplicationRow>, nextId: int, now: Timestamp,
                             owners: seq<int>, owner: int, acc: AccountRow)
    requires CreatedForOwners(legacy, accounts, before, apps, owners)
    requires OwnerAccount(legacy, accounts, owner) == Ok(acc)
    ensures CreatedForOwners(legacy, accounts, before, GetOrCreate(apps, nextId, acc.id, now).0, owners + [owner])
  {
    GetOrCreateResult(apps, nextId, acc.id, now);
    OwnerAccountIdsAppend(legacy, accounts, owners, owner, acc);
  }

  /** The applications two passes in a row create belong to the owners of the one or of the other. */
  lemma CreatedForOwnersConcat(legacy: map<int, LegacyAccount>, accounts: seq<AccountRow>,
                               before: seq<ApplicationRow>, middle: seq<ApplicationRow>, after: seq<ApplicationRow>,
                               first: seq<int>, second: seq<int>)
    requires middle <= after
    requires CreatedForOwners(legacy, accounts, before, middle, first)
    requires CreatedForOwners(legacy, accounts, middle, after, second)
    ensures CreatedForOwners(legacy, accounts, before, after, first + second)
  {
    OwnerAccountIdsConcat(legacy, accounts, first, second);
    forall i | |before| <= i < |after|
      ensures after[i].accId in OwnerAccountIds(legacy, accounts, first + second)
    {
      if i < |middle| {
        assert after[i] == middle[i];
      }
    }
  }

  // ---------------------------------------------------------------------
  // Outcome of the application passes
  // ---------------------------------------------------------------------

  /** Every availability's owner is a loaded person whose SSN has an ACCOUNT row. */
  ghost predicate AvailabilityOwnersResolve(legacy: map<int, LegacyAccount>, accounts: seq<AccountRow>,
                                            avails: seq<LegacyAvailability>)
  {
    forall j :: 0 <= j < |avails| ==> OwnerAccount(legacy, accounts, avails[j].accountId).Ok?
  }

  /** Every competence profile's owner is a loaded person whose SSN has an ACCOUNT row. */
  ghost predicate ProfileOwnersResolve(legacy: map<int, LegacyAccount>, accounts: seq<AccountRow>,
                                       profiles: seq<LegacyCompetenceProfile>)
  {
    forall j :: 0 <= j < |profiles| ==> OwnerAccount(legacy, accounts, profiles[j].accountId).Ok?
  }

  /**
   * The result of the availability pass over `visited`: the rows written are
   * those of a prefix; the pass is done when the prefix is all of `visited`,
   * and otherwise stops with the error of the next record's owner.
   */
  ghost predicate AvailabilityPassResult(legacy: map<int, LegacyAccount>, accounts: seq<AccountRow>,
                                         apps: seq<ApplicationRow>, visited: seq<LegacyAvailability>,
                                         rows: seq<AvailabilityRow>, outcome: Outcome)
  {
    |rows| <= |visited| &&
    AvailabilitiesMigrated(legacy, accounts, apps, visited[..|rows|], rows) &&
    (outcome == Done <==> |rows| == |visited|) &&
    (outcome.Failed? ==>
       |rows| < |visited| && OwnerAccount(legacy, accounts, visited[|rows|].accountId) == Err(outcome.error))
  }

  /** The result of the profile pass over `visited`, as for availabilities. */
  ghost predicate ProfilePassResult(legacy: map<int, LegacyAccount>, competences: map<int, Text>,
                                    accounts: seq<AccountRow>, apps: seq<ApplicationRow>,
                                    visited: seq<LegacyCompetenceProfile>, rows: seq<ProfileRow>, outcome: Outcome)
  {
    |rows| <= |visited| &&
    ProfilesMigrated(legacy, competences, accounts, apps, visited[..|rows|], rows) &&
    (outcome == Done <==> |rows| == |visited|) &&
    (outcome.Failed? ==>
       |rows| < |visited| && OwnerAccount(legacy, accounts, visited[|rows|].accountId) == Err(outcome.error))
  }

  /** The availability pass succeeds exactly when every owner resolves. */
  lemma AvailabilityPassSucceedsIff(legacy: map<int, LegacyAccount>, accounts: seq<AccountRow>,
                                    apps: seq<ApplicationRow>, visited: seq<LegacyAvailability>,
                                    rows: seq<AvailabilityRow>, outcome: Outcome)
    requires AvailabilityPassResult(legacy, accounts, apps, visited, rows, outcome)
    ensures outcome == Done <==> AvailabilityOwnersResolve(legacy, accounts, visited)
  {
    if outcome == Done {
      assert visited[..|rows|] == visited;
      forall j | 0 <= j < |visited| ensures OwnerAccount(legacy, accounts, visited[j].accountId).Ok? {
        assert ResolvesTo(legacy, accounts, apps, visited[j].accountId, rows[j].applId);
      }
    } else {
      assert OwnerAccount(legacy, accounts, visited[|rows|].accountId).Err?;
    }
  }

  /** The profile pass succeeds exactly when every owner resolves. */
  lemma ProfilePassSucceedsIff(legacy: map<int, LegacyAccount>, competences: map<int, Text>,
                               accounts: seq<AccountRow>, apps: seq<ApplicationRow>,
                               visited: seq<LegacyCompetenceProfile>, rows: seq<ProfileRow>, outcome: Outcome)
    requires ProfilePassResult(legacy, competences, accounts, apps, visited, rows, outcome)
    ensures outcome == Done <==> ProfileOwnersResolve(legacy, accounts, visited)
  {
    if outcome == Done {
      assert visited[..|rows|] == visited;
      forall j | 0 <= j < |visited| ensures OwnerAccount(legacy, accounts, visited[j].accountId).Ok? {
        assert ResolvesTo(legacy, accounts, apps, visited[j].accountId, rows[j].applId);
      }
    } else {
      assert OwnerAccount(legacy, accounts, visited[|rows|].accountId).Err?;
    }
  }

  /**
   * The result of the availability pass, the competence catalogue and the
   * profile pass, with the rows each appended. A failed availability pass
   * stops the run before the other two; the run succeeds exactly when every
   * availability owner and every profile owner resolves.
   */
  ghost predicate ApplicationPassesResult(legacy: map<int, LegacyAccount>, competences: map<int, Text>,
                                          accounts: seq<AccountRow>, apps: seq<ApplicationRow>,
                                          avails: seq<LegacyAvailability>, names: seq<Text>,
                                          profiles: seq<LegacyCompetenceProfile>,
                                          availRows: seq<AvailabilityRow>, nameRows: seq<Text>,
                                          profileRows: seq<ProfileRow>, outcome: Outcome)
  {
    (outcome == Done <==> AvailabilityOwnersResolve(legacy, accounts, avails) &&
                          ProfileOwnersResolve(legacy, accounts, profiles)) &&
    if AvailabilityOwnersResolve(legacy, accounts, avails) then
      AvailabilityPassResult(legacy, accounts, apps, avails, availRows, Done) && nameRows == names &&
      ProfilePassResult(legacy, competences, accounts, apps, profiles, profileRows, outcome)
    else
      AvailabilityPassResult(legacy, accounts, apps, avails, availRows, outcome) && nameRows == [] && profileRows == []
  }

  /** The outcome of the availability pass, restated over equal values read later in the run. */
  lemma AvailabilityPassSame(legacy: map<int, LegacyAccount>, accounts: seq<AccountRow>,
                             before: seq<ApplicationRow>, apps: seq<ApplicationRow>,
                             avails: seq<LegacyAvailability>, rows: seq<AvailabilityRow>, outcome: Outcome,
                             legacy': map<int, LegacyAccount>, accounts': seq<AccountRow>,
                             avails': seq<LegacyAvailability>, rows': seq<AvailabilityRow>)
    requires AvailabilityPassResult(legacy, accounts, apps, avails, rows, outcome)
    requires CreatedForOwners(legacy, accounts, before, apps, AvailabilityOwners(avails[..|rows|]))
    requires legacy == legacy' && accounts == accounts' && avails == avails' && rows == rows'
    ensures AvailabilityPassResult(legacy', accounts', apps, avails', rows', outcome)
    ensures CreatedForOwners(legacy', accounts', before, apps, AvailabilityOwners(avails'[..|rows'|]))
  {
  }

  /** The outcome of the profile pass, restated over an equal slice of the PROFILE table. */
  lemma ProfilePassSame(legacy: map<int, LegacyAccount>, competences: map<int, Text>, accounts: seq<AccountRow>,
                        before: seq<ApplicationRow>, apps: seq<ApplicationRow>,
                        profiles: seq<LegacyCompetenceProfile>, rows: seq<ProfileRow>, outcome: Outcome,
                        rows': seq<ProfileRow>)
    requires ProfilePassResult(legacy, competences, accounts, apps, profiles, rows, outcome)
    requires CreatedForOwners(legacy, accounts, before, apps, ProfileOwners(profiles[..|rows|]))
    requires rows == rows'
    ensures ProfilePassResult(legacy, competences, accounts, apps, profiles, rows', outcome)
    ensures CreatedForOwners(legacy, accounts, before, apps, ProfileOwners(profiles[..|rows'|]))
  {
  }

  /**
   * The three passes in a row: the availability pass over `middle`, then,
   * unless it failed, the competence catalogue and the profile pass up to
   * `after`.
   */
  lemma ApplicationPassesCompose(legacy: map<int, LegacyAccount>, competences: map<int, Text>,
                                 accounts: seq<AccountRow>, before: seq<ApplicationRow>,
                                 middle: seq<ApplicationRow>, after: seq<ApplicationRow>,
                                 avails: seq<LegacyAvailability>, names: seq<Text>,
                                 profiles: seq<LegacyCompetenceProfile>,
                                 availRows: seq<AvailabilityRow>, nameRows: seq<Text>,
                                 profileRows: seq<ProfileRow>, availOutcome: Outcome, outcome: Outcome,
                                 availOwners: seq<int>, owners: seq<int>)
    requires AvailabilityPassResult(legacy, accounts, middle, avails, availRows, availOutcome)
    requires availOwners == AvailabilityOwners(avails[..|availRows|])
    requires CreatedForOwners(legacy, accounts, before, middle, availOwners)
    requires availOutcome.Failed? ==> outcome == availOutcome && after == middle && nameRows == [] && profileRows == []
    requires availOutcome == Done ==>
      nameRows == names && middle <= after &&
      ProfilePassResult(legacy, competences, accounts, after, profiles, profileRows, outcome) &&
      CreatedForOwners(legacy, accounts, middle, after, ProfileOwners(profiles[..|profileRows|]))
    requires owners == AvailabilityOwners(avails[..|availRows|]) + ProfileOwners(profiles[..|profileRows|])
    ensures ApplicationPassesResult(legacy, competences, accounts, after, avails, names, profiles,
                                    availRows, nameRows, profileRows, outcome)
    ensures |availRows| <= |avails| && |profileRows| <= |profiles|
    ensures CreatedForOwners(legacy, accounts, before, after, owners)
    ensures outcome == Done ==>
      AvailabilitiesMigrated(legacy, accounts, after, avails, availRows) && nameRows == names &&
      ProfilesMigrated(legacy, competences, accounts, after, profiles, profileRows)
  {
    AvailabilityPassSucceedsIff(legacy, accounts, middle, avails, availRows, availOutcome);
    if availOutcome.Failed? {
      assert ProfileOwners(profiles[..0]) == [];
      assert AvailabilityOwners(avails[..|availRows|]) + [] == AvailabilityOwners(avails[..|availRows|]);
    } else {
      ProfilePassSucceedsIff(legacy, competences, accounts, after, profiles, profileRows, outcome);
      CreatedForOwnersConcat(legacy, accounts, before, middle, after,
                             AvailabilityOwners(avails[..|availRows|]), ProfileOwners(profiles[..|profileRows|]));
      assert avails[..|avails|] == avails;
      assert middle + after[|middle|..] == after;
      AvailabilitiesMigratedStable(legacy, accounts, middle, after[|middle|..], avails, availRows);
      if outcome == Done {
        assert profiles[..|profiles|] == profiles;
      }
    }
  }

  // ---------------------------------------------------------------------
  // Load log
  // ---------------------------------------------------------------------

  datatype LoadReport = LoadReport(roles: nat, accounts: nat, availabilities: nat, competences: nat, profiles: nat)

  /** The counts as the load step prints them: the profile line reports the competence count. */
  function LoadReportAsWritten(roles: map<int, string>, accounts: map<int, LegacyAccount>,
                               availabilities: map<int, LegacyAvailability>, competences: map<int, Text>,
                               profiles: map<int, LegacyCompetenceProfile>): (r: LoadReport)
    ensures r.roles == |roles| && r.accounts == |accounts| && r.availabilities == |availabilities|
    ensures r.competences == |competences| && r.profiles == |competences|
  {
    LoadReport(|roles|, |accounts|, |availabilities|, |competences|, |competences|)
  }

  /** One competence and no profile: the printed profile count is 1. */
  lemma ProfileCountMisreported()
    ensures LoadReportAsWritten(map[], map[], map[], map[1 := None], map[]).profiles == 1
  {
  }

  /** The counts as intended: each line reports the size of the map it names. */
  function LoadReportOf(roles: map<int, string>, accounts: map<int, LegacyAccount>,
                        availabilities: map<int, LegacyAvailability>, competences: map<int, Text>,
                        profiles: map<int, LegacyCompetenceProfile>): (r: LoadReport)
    ensures r.roles == |roles| && r.accounts == |accounts| && r.availabilities == |availabilities|
    ensures r.competences == |competences| && r.profiles == |profiles|
  {
    LoadReport(|roles|, |accounts|, |availabilities|, |competences|, |profiles|)
  }

  /** The printed report is the intended one exactly when there are as many competences as profiles. */
  lemma PrintedReportCorrectIff(roles: map<int, string>, accounts: map<int, LegacyAccount>,
                                availabilities: map<int, LegacyAvailability>, competences: map<int, Text>,
                                profiles: map<int, LegacyCompetenceProfile>)
    ensures (LoadReportAsWritten(roles, accounts, availabilities, competences, profiles) ==
             LoadReportOf(roles, accounts, availabilities, competences, profiles)) <==> |competences| == |profiles|
  {
  }

  /** A fresh migrator's maps are empty, so loading into them leaves exactly the loaded map. */
  lemma MergeIntoEmpty<V>(m: map<int, V>)
    ensures map[] + m == m
  {
  }

  /** Filling maps one `put` at a time: the step that the load loops repeat. */
  lemma PutAllStep<V>(base: map<int, V>, entries: seq<(int, V)>, i: int)
    requires 0 <= i < |entries|
    ensures base + PutAll(entries[..i + 1]) == (base + PutAll(entries[..i]))[entries[i].0 := entries[i].1]
  {
    assert entries[..i + 1][..i] == entries[..i];
  }

  // ---------------------------------------------------------------------
  // The migrator
  // ---------------------------------------------------------------------

  class RecruitoolMigrator {
    var roles: map<int, string>
    var competences: map<int, Text>
    var oldAccounts: map<int, LegacyAccount>
    var oldAvailabilities: map<int, LegacyAvailability>
    var oldProfiles: map<int, LegacyCompetenceProfile>
    /** The target store, and the time stamp of this run. */
    const db: TargetDb
    const now: Timestamp

    constructor (db: TargetDb, now: Timestamp)
      ensures this.db == db && this.now == now
      ensures roles == map[] && competences == map[] && oldAccounts == map[]
      ensures oldAvailabilities == map[] && oldProfiles == map[]
    {
      this.db := db;
      this.now := now;
      roles, competences, oldAccounts := map[], map[], map[];
      oldAvailabilities, oldProfiles := map[], map[];
    }

    // --- Extractor ---------------------------------------------------------

    /** Reads the role table: each name is normalised before it is stored. */
    method LoadRoles(rows: seq<RoleRecord>)
      modifies this`roles
      ensures roles == old(roles) + PutAll(RoleEntries(rows))
    {
      var i := 0;
      while i < |rows|
        invariant 0 <= i <= |rows|
        invariant roles == old(roles) + PutAll(RoleEntries(rows)[..i])
      {
        var name := ToUpper(rows[i].name);
        if name == "RECRUIT" {
          name := "RECRUITER";
        }
        roles := roles[rows[i].roleId := name];
        PutAllStep(old(roles), RoleEntries(rows), i);
        i := i + 1;
      }
      assert RoleEntries(rows)[..i] == RoleEntries(rows);
    }

    /** Reads the person table: the password is hashed when it is not NULL. */
    method LoadAccounts(rows: seq<PersonRecord>, hash: string -> string)
      modifies this`oldAccounts
      ensures oldAccounts == old(oldAccounts) + PutAll(AccountEntries(rows, hash))
    {
      var i := 0;
      while i < |rows|
        invariant 0 <= i <= |rows|
        invariant oldAccounts == old(oldAccounts) + PutAll(AccountEntries(rows, hash)[..i])
      {
        var row := rows[i];
        var password := row.password;
        if password.Some? {
          password := Some(hash(password.value));
        }
        var account := LegacyAccount(row.name, row.surname, row.ssn, row.email, row.username, password, row.roleId);
        oldAccounts := oldAccounts[row.personId := account];
        PutAllStep(old(oldAccounts), AccountEntries(rows, hash), i);
        i := i + 1;
      }
      assert AccountEntries(rows, hash)[..i] == AccountEntries(rows, hash);
    }

    /** Reads the availability table, keyed by availability id. */
    method LoadAvailabilities(rows: seq<LegacyAvailability>)
      modifies this`oldAvailabilities
      ensures oldAvailabilities == old(oldAvailabilities) + PutAll(AvailabilityEntries(rows))
    {
      var i := 0;
      while i < |rows|
        invariant 0 <= i <= |rows|
        invariant oldAvailabilities == old(oldAvailabilities) + PutAll(AvailabilityEntries(rows)[..i])
      {
        var row := rows[i];
        oldAvailabilities := oldAvailabilities[row.id := LegacyAvailability(row.id, row.fromDate, row.toDate, row.accountId)];
        PutAllStep(old(oldAvailabilities), AvailabilityEntries(rows), i);
        i := i + 1;
      }
      assert AvailabilityEntries(rows)[..i] == AvailabilityEntries(rows);
    }

    /** Reads the competence table, keyed by competence id. */
    method LoadCompetences(rows: seq<CompetenceRecord>)
      modifies this`competences
      ensures competences == old(competences) + PutAll(CompetenceEntries(rows))
    {
      var i := 0;
      while i < |rows|
        invariant 0 <= i <= |rows|
        invariant competences == old(competences) + PutAll(CompetenceEntries(rows)[..i])
      {
        competences := competences[rows[i].competenceId := rows[i].name];
        PutAllStep(old(competences), CompetenceEntries(rows), i);
        i := i + 1;
      }
      assert CompetenceEntries(rows)[..i] == CompetenceEntries(rows);
    }

    /** Reads the competence_profile table, keyed by profile id. */
    method LoadCompetenceProfiles(rows: seq<LegacyCompetenceProfile>)
      modifies this`oldProfiles
      ensures oldProfiles == old(oldProfiles) + PutAll(ProfileEntries(rows))
    {
      var i := 0;
      while i < |rows|
        invariant 0 <= i <= |rows|
        invariant oldProfiles == old(oldProfiles) + PutAll(ProfileEntries(rows)[..i])
      {
        var row := rows[i];
        oldProfiles := oldProfiles[row.id := LegacyCompetenceProfile(row.id, row.yearsOfExp, row.accountId, row.competenceId)];
        PutAllStep(old(oldProfiles), ProfileEntries(rows), i);
        i := i + 1;
      }
      assert ProfileEntries(rows)[..i] == ProfileEntries(rows);
    }

    /**
     * Loads the five legacy tables in order and reports the counts it prints:
     * the size of each map, except that the profile line repeats the competence count.
     */
    method LoadLegacyTables(roleRows: seq<RoleRecord>, personRows: seq<PersonRecord>,
                            availabilityRows: seq<LegacyAvailability>, competenceRows: seq<CompetenceRecord>,
                            profileRows: seq<LegacyCompetenceProfile>, hash: string -> string)
      returns (report: LoadReport)
      modifies this`roles, this`oldAccounts, this`oldAvailabilities, this`competences, this`oldProfiles
      ensures roles == old(roles) + PutAll(RoleEntries(roleRows))
      ensures oldAccounts == old(oldAccounts) + PutAll(AccountEntries(personRows, hash))
      ensures oldAvailabilities == old(oldAvailabilities) + PutAll(AvailabilityEntries(availabilityRows))
      ensures competences == old(competences) + PutAll(CompetenceEntries(competenceRows))
      ensures oldProfiles == old(oldProfiles) + PutAll(ProfileEntries(profileRows))
      ensures report == LoadReportAsWritten(roles, oldAccounts, oldAvailabilities, competences, oldProfiles)
    {
      LoadRoles(roleRows);
      LoadAccounts(personRows, hash);
      LoadAvailabilities(availabilityRows);
      LoadCompetences(competenceRows);
      LoadCompetenceProfiles(profileRows);
      report := LoadReportAsWritten(roles, oldAccounts, oldAvailabilities, competences, oldProfiles);
    }

    // --- Account transform -------------------------------------------------

    /**
     * Writes one ACCOUNT row per legacy account visited in `order`, then
     * derives ACCOUNT_GROUPS from the whole ACCOUNT table.
     */
    method MigrateAccounts(order: seq<int>) returns (outcome: Outcome)
      requires db.Valid()
      requires forall i :: 0 <= i < |order| ==> order[i] in oldAccounts
      modifies db`accounts, db`nextAccountId, db`groups
      ensures db.Valid()
      ensures db.accounts == old(db.accounts) + AccountRows(order, oldAccounts, roles, old(db.nextAccountId))
      ensures db.nextAccountId == old(db.nextAccountId) + |order|
      ensures GroupPassResult(db.accounts, old(db.groups), db.groups, outcome)
    {
      var i := 0;
      while i < |order|
        invariant 0 <= i <= |order|
        invariant db.Valid()
        invariant db.accounts == old(db.accounts) + AccountRows(order[..i], oldAccounts, roles, old(db.nextAccountId))
        invariant db.nextAccountId == old(db.nextAccountId) + i
        invariant db.groups == old(db.groups)
      {
        var acc := oldAccounts[order[i]];
        var role := if acc.roleId in roles then Some(roles[acc.roleId]) else None;
        db.InsertAccount(acc.firstName, acc.lastName, acc.email, acc.username, acc.password, role, acc.ssn);
        assert AccountRows(order[..i + 1], oldAccounts, roles, old(db.nextAccountId)) ==
               AccountRows(order[..i], oldAccounts, roles, old(db.nextAccountId)) +
               [NewAccountRow(acc, roles, old(db.nextAccountId) + i)];
        i := i + 1;
      }
      assert order[..i] == order;
      outcome := MigrateAccountGroups();
    }

    /** Reads the ACCOUNT table back and writes a group row for every account that is not an applicant. */
    method MigrateAccountGroups() returns (outcome: Outcome)
      modifies db`groups
      ensures GroupPassResult(db.accounts, old(db.groups), db.groups, outcome)
    {
      var accounts := db.accounts;
      var i := 0;
      while i < |accounts|
        invariant 0 <= i <= |accounts|
        invariant forall j :: 0 <= j < i ==> accounts[j].role.Some?
        invariant db.groups == old(db.groups) + GroupRows(accounts[..i])
      {
        var row := accounts[i];
        assert accounts[..i + 1][..i] == accounts[..i];
        if row.role.None? {
          return Failed(NullRole);
        }
        if row.role.value != Applicant {
          db.InsertGroup(row.role.value, row.username, row.id);
        }
        i := i + 1;
      }
      assert accounts[..i] == accounts;
      outcome := Done;
    }

    // --- Identity resolution -----------------------------------------------

    /** select * from ACCOUNT where SSN=?: the first matching row, or NoAccountWithSsn. */
    function GetMigratedAccount(ssn: Text): (r: Result<AccountRow>)
      reads db
      ensures r.Ok? ==> r.value in db.accounts && r.value.ssn == ssn && ssn.Some?
      ensures r.Err? <==> ssn.None? || forall i :: 0 <= i < |db.accounts| ==> db.accounts[i].ssn != ssn
      ensures r.Err? ==> r.error == NoAccountWithSsn
    {
      match SelectAccountBySsn(db.accounts, ssn)
      case Some(acc) => Ok(acc)
      case None => Err(NoAccountWithSsn)
    }

    /**
     * Returns the application of `acc`, creating it when there is none. The
     * recursion through CreateMigratedApplication stops because the select
     * after the insert always finds a row.
     */
    method GetMigratedApplication(acc: AccountRow) returns (appl: ApplicationRow)
      requires db.Valid()
      modifies db`applications, db`nextApplicationId
      ensures db.Valid()
      ensures (db.applications, db.nextApplicationId, appl) ==
              GetOrCreate(old(db.applications), old(db.nextApplicationId), acc.id, now)
      decreases if SelectApplication(db.applications, acc.id).Some? then 0 else 2
    {
      var found := SelectApplication(db.applications, acc.id);
      if found.None? {
        appl := CreateMigratedApplication(acc);
        SelectApplicationAppended(old(db.applications), ApplicationRow(old(db.nextApplicationId), Submitted, now, acc.id));
        return;
      }
      appl := ApplicationRow(found.value.id, found.value.status, found.value.timeOfReg, acc.id);
    }

    /** Inserts a SUBMITTED application of `acc` stamped with the run's time, then selects it back. */
    method CreateMigratedApplication(acc: AccountRow) returns (appl: ApplicationRow)
      requires db.Valid()
      modifies db`applications, db`nextApplicationId
      ensures db.Valid()
      ensures db.applications == old(db.applications) + [ApplicationRow(old(db.nextApplicationId), Submitted, now, acc.id)]
      ensures db.nextApplicationId == old(db.nextApplicationId) + 1
      ensures SelectApplication(db.applications, acc.id) == Some(appl)
      decreases 1
    {
      db.InsertApplication(Submitted, now, acc.id);
      var row := ApplicationRow(old(db.nextApplicationId), Submitted, now, acc.id);
      if SelectApplication(old(db.applications), acc.id).Some? {
        SelectApplicationStable(old(db.applications), [row], acc.id);
      } else {
        SelectApplicationAppended(old(db.applications), row);
      }
      appl := GetMigratedApplication(acc);
    }

    // --- Dependent-row passes ----------------------------------------------

    /**
     * Writes one AVAILABILITY row per legacy availability visited in `order`,
     * attached to its owner's application (created on first reference). It
     * stops at the first row whose owner cannot be resolved.
     */
    method MigrateAvailabilities(order: seq<int>) returns (outcome: Outcome)
      requires db.Valid() && OneApplicationPerAccount(db.applications)
      requires forall i :: 0 <= i < |order| ==> order[i] in oldAvailabilities
      modifies db`applications, db`nextApplicationId, db`availabilities
      ensures db.Valid() && OneApplicationPerAccount(db.applications)
      ensures CreatedApplications(old(db.applications), db.applications, now)
      ensures old(db.availabilities) <= db.availabilities
      ensures AvailabilityPassResult(oldAccounts, db.accounts, db.applications, Visit(oldAvailabilities, order),
                                     db.availabilities[|old(db.availabilities)|..], outcome)
      ensures outcome == Done <==> AvailabilityOwnersResolve(oldAccounts, db.accounts, Visit(oldAvailabilities, order))
      ensures CreatedForOwners(oldAccounts, db.accounts, old(db.applications), db.applications,
                               AvailabilityOwners(Visit(oldAvailabilities, order)[..|db.availabilities| - |old(db.availabilities)|]))
    {
      ghost var visited := Visit(oldAvailabilities, order);
      var base := |db.availabilities|;
      var i := 0;
      outcome := Done;
      while i < |order|
        invariant 0 <= i <= |order|
        invariant db.Valid() && OneApplicationPerAccount(db.applications)
        invariant CreatedApplications(old(db.applications), db.applications, now)
        invariant CreatedForOwners(oldAccounts, db.accounts, old(db.applications), db.applications, AvailabilityOwners(visited[..i]))
        invariant old(db.availabilities) <= db.availabilities && |db.availabilities| == base + i
        invariant AvailabilitiesMigrated(oldAccounts, db.accounts, db.applications, visited[..i], db.availabilities[base..])
      {
        var avail := oldAvailabilities[order[i]];
        assert visited[i] == avail;
        if avail.accountId !in oldAccounts {
          outcome := Failed(UnknownOwner);
          break;
        }
        var acc := GetMigratedAccount(oldAccounts[avail.accountId].ssn);
        if acc.Err? {
          outcome := Failed(acc.error);
          break;
        }
        AvailabilityVisit(oldAccounts, db.accounts, old(db.applications), db.applications, db.nextApplicationId, now,
                          visited, i, db.availabilities, base, acc.value);
        var appl := GetMigratedApplication(acc.value);
        db.InsertAvailability(avail.fromDate, avail.toDate, appl.id);
        i := i + 1;
      }
      if outcome == Done {
        assert visited[..i] == visited;
      }
      assert Visit(oldAvailabilities, order)[..|db.availabilities| - |old(db.availabilities)|] == visited[..i];
      AvailabilityPassSucceedsIff(oldAccounts, db.accounts, db.applications, visited, db.availabilities[base..], outcome);
    }

    /** Writes one COMPETENCE row per legacy competence visited in `order`. */
    method MigrateCompetences(order: seq<int>)
      requires forall i :: 0 <= i < |order| ==> order[i] in competences
      modifies db`competences
      ensures db.competences == old(db.competences) + Visit(competences, order)
    {
      var i := 0;
      while i < |order|
        invariant 0 <= i <= |order|
        invariant db.competences == old(db.competences) + Visit(competences, order[..i])
      {
        db.InsertCompetence(competences[order[i]]);
        assert Visit(competences, order[..i + 1]) == Visit(competences, order[..i]) + [competences[order[i]]];
        i := i + 1;
      }
      assert order[..i] == order;
    }

    /**
     * Writes one COMPETENCEPROFILE row per legacy profile visited in `order`,
     * attached to its owner's application (created on first reference). It
     * stops at the first row whose owner cannot be resolved.
     */
    method MigrateCompetenceProfiles(order: seq<int>) returns (outcome: Outcome)
      requires db.Valid() && OneApplicationPerAccount(db.applications)
      requires forall i :: 0 <= i < |order| ==> order[i] in oldProfiles
      modifies db`applications, db`nextApplicationId, db`profiles
      ensures db.Valid() && OneApplicationPerAccount(db.applications)
      ensures CreatedApplications(old(db.applications), db.applications, now)
      ensures old(db.profiles) <= db.profiles
      ensures ProfilePassResult(oldAccounts, competences, db.accounts, db.applications, Visit(oldProfiles, order),
                                db.profiles[|old(db.profiles)|..], outcome)
      ensures outcome == Done <==> ProfileOwnersResolve(oldAccounts, db.accounts, Visit(oldProfiles, order))
      ensures CreatedForOwners(oldAccounts, db.accounts, old(db.applications), db.applications,
                               ProfileOwners(Visit(oldProfiles, order)[..|db.profiles| - |old(db.profiles)|]))
    {
      ghost var visited := Visit(oldProfiles, order);
      var base := |db.profiles|;
      var i := 0;
      outcome := Done;
      while i < |order|
        invariant 0 <= i <= |order|
        invariant db.Valid() && OneApplicationPerAccount(db.applications)
        invariant CreatedApplications(old(db.applications), db.applications, now)
        invariant CreatedForOwners(oldAccounts, db.accounts, old(db.applications), db.applications, ProfileOwners(visited[..i]))
        invariant old(db.profiles) <= db.profiles && |db.profiles| == base + i
        invariant ProfilesMigrated(oldAccounts, competences, db.accounts, db.applications, visited[..i], db.profiles[base..])
      {
        var profile := oldProfiles[order[i]];
        assert visited[i] == profile;
        if profile.accountId !in oldAccounts {
          outcome := Failed(UnknownOwner);
          break;
        }
        var acc := GetMigratedAccount(oldAccounts[profile.accountId].ssn);
        if acc.Err? {
          outcome := Failed(acc.error);
          break;
        }
        ProfileVisit(oldAccounts, competences, db.accounts, old(db.applications), db.applications, db.nextApplicationId,
                     now, visited, i, db.profiles, base, acc.value);
        var appl := GetMigratedApplication(acc.value);
        var competence := CompetenceOf(competences, profile.competenceId);
        db.InsertProfile(profile.yearsOfExp, competence, appl.id);
        i := i + 1;
      }
      if outcome == Done {
        assert visited[..i] == visited;
      }
      assert Visit(oldProfiles, order)[..|db.profiles| - |old(db.profiles)|] == visited[..i];
      ProfilePassSucceedsIff(oldAccounts, competences, db.accounts, db.applications, visited, db.profiles[base..], outcome);
    }

    /** The availability pass, the competence catalogue, then the profile pass; a failure stops the rest. */
    method MigrateApplications(availabilityOrder: seq<int>, competenceOrder: seq<int>, profileOrder: seq<int>)
      returns (outcome: Outcome)
      requires db.Valid() && OneApplicationPerAccount(db.applications)
      requires forall i :: 0 <= i < |availabilityOrder| ==> availabilityOrder[i] in oldAvailabilities
      requires forall i :: 0 <= i < |competenceOrder| ==> competenceOrder[i] in competences
      requires forall i :: 0 <= i < |profileOrder| ==> profileOrder[i] in oldProfiles
      modifies db`applications, db`nextApplicationId, db`availabilities, db`competences, db`profiles
      ensures db.Valid() && OneApplicationPerAccount(db.applications)
      ensures CreatedApplications(old(db.applications), db.applications, now)
      ensures old(db.availabilities) <= db.availabilities && old(db.profiles) <= db.profiles
      ensures old(db.competences) <= db.competences
      ensures ApplicationPassesResult(oldAccounts, competences, db.accounts, db.applications,
                                      Visit(oldAvailabilities, availabilityOrder), Visit(competences, competenceOrder),
                                      Visit(oldProfiles, profileOrder), db.availabilities[|old(db.availabilities)|..],
                                      db.competences[|old(db.competences)|..], db.profiles[|old(db.profiles)|..], outcome)
      ensures |db.availabilities| - |old(db.availabilities)| <= |availabilityOrder|
      ensures |db.profiles| - |old(db.profiles)| <= |profileOrder|
      ensures CreatedForOwners(oldAccounts, db.accounts, old(db.applications), db.applications,
                               AvailabilityOwners(Visit(oldAvailabilities, availabilityOrder)[..|db.availabilities| - |old(db.availabilities)|]) +
                               ProfileOwners(Visit(oldProfiles, profileOrder)[..|db.profiles| - |old(db.profiles)|]))
      ensures outcome == Done ==>
        AvailabilitiesMigrated(oldAccounts, db.accounts, db.applications, Visit(oldAvailabilities, availabilityOrder),
                               db.availabilities[|old(db.availabilities)|..]) &&
        db.competences == old(db.competences) + Visit(competences, competenceOrder) &&
        ProfilesMigrated(oldAccounts, competences, db.accounts, db.applications, Visit(oldProfiles, profileOrder),
                         db.profiles[|old(db.profiles)|..])
    {
      outcome := MigrateAvailabilities(availabilityOrder);
      if outcome.Failed? {
        assert |db.availabilities[|old(db.availabilities)|..]| == |db.availabilities| - |old(db.availabilities)|;
        assert |db.profiles[|old(db.profiles)|..]| == |db.profiles| - |old(db.profiles)|;
        ApplicationPassesCompose(oldAccounts, competences, db.accounts, old(db.applications), db.applications, db.applications,
                                 Visit(oldAvailabilities, availabilityOrder), Visit(competences, competenceOrder),
                                 Visit(oldProfiles, profileOrder), db.availabilities[|old(db.availabilities)|..],
                                 db.competences[|old(db.competences)|..], db.profiles[|old(db.profiles)|..],
                                 outcome, outcome,
                                 AvailabilityOwners(Visit(oldAvailabilities, availabilityOrder)[..|db.availabilities| - |old(db.availabilities)|]),
                                 AvailabilityOwners(Visit(oldAvailabilities, availabilityOrder)[..|db.availabilities| - |old(db.availabilities)|]) +
                                 ProfileOwners(Visit(oldProfiles, profileOrder)[..|db.profiles| - |old(db.profiles)|]));
        return;
      }
      ghost var legacy, accounts, middle := oldAccounts, db.accounts, db.applications;
      ghost var avails, availRows := Visit(oldAvailabilities, availabilityOrder), db.availabilities[|old(db.availabilities)|..];
      MigrateCompetences(competenceOrder);
      AppendExtends(old(db.competences), Visit(competences, competenceOrder));
      ghost var profilesBefore := db.profiles;
      outcome := MigrateCompetenceProfiles(profileOrder);
      AvailabilityPassSame(legacy, accounts, old(db.applications), middle, avails, availRows, Done,
                           oldAccounts, db.accounts, Visit(oldAvailabilities, availabilityOrder),
                           db.availabilities[|old(db.availabilities)|..]);
      ProfilePassSame(oldAccounts, competences, db.accounts, middle, db.applications, Visit(oldProfiles, profileOrder),
                      db.profiles[|profilesBefore|..], outcome, db.profiles[|old(db.profiles)|..]);
      CreatedApplicationsTrans(old(db.applications), middle, db.applications, now);
      assert |db.availabilities[|old(db.availabilities)|..]| == |db.availabilities| - |old(db.availabilities)|;
      assert |db.profiles[|old(db.profiles)|..]| == |db.profiles| - |old(db.profiles)|;
      ApplicationPassesCompose(oldAccounts, competences, db.accounts, old(db.applications), middle, db.applications,
                               Visit(oldAvailabilities, availabilityOrder), Visit(competences, competenceOrder),
                               Visit(oldProfiles, profileOrder), db.availabilities[|old(db.availabilities)|..],
                               db.competences[|old(db.competences)|..], db.profiles[|old(db.profiles)|..],
                               Done, outcome,
                               AvailabilityOwners(Visit(oldAvailabilities, availabilityOrder)[..|db.availabilities| - |old(db.availabilities)|]),
                               AvailabilityOwners(Visit(oldAvailabilities, availabilityOrder)[..|db.availabilities| - |old(db.availabilities)|]) +
                               ProfileOwners(Visit(oldProfiles, profileOrder)[..|db.profiles| - |old(db.profiles)|]));
    }

    /** The account pass, then, when it completed, the application passes. */
    method MigrateTables(accountOrder: seq<int>, availabilityOrder: seq<int>, competenceOrder: seq<int>,
                         profileOrder: seq<int>)
      returns (outcome: Outcome)
      requires db.Valid() && OneApplicationPerAccount(db.applications)
      requires forall i :: 0 <= i < |accountOrder| ==> accountOrder[i] in oldAccounts
      requires forall i :: 0 <= i < |availabilityOrder| ==> availabilityOrder[i] in oldAvailabilities
      requires forall i :: 0 <= i < |competenceOrder| ==> competenceOrder[i] in competences
      requires forall i :: 0 <= i < |profileOrder| ==> profileOrder[i] in oldProfiles
      modifies db`accounts, db`nextAccountId, db`groups
      modifies db`applications, db`nextApplicationId, db`availabilities, db`competences, db`profiles
      ensures db.Valid() && OneApplicationPerAccount(db.applications)
      ensures CreatedApplications(old(db.applications), db.applications, now)
      ensures db.accounts == old(db.accounts) + AccountRows(accountOrder, oldAccounts, roles, old(db.nextAccountId))
      ensures RunResult(oldAccounts, competences, db.accounts, old(db.groups), db.groups,
                        old(db.applications), db.applications, old(db.availabilities), db.availabilities,
                        old(db.competences), db.competences, old(db.profiles), db.profiles,
                        Visit(oldAvailabilities, availabilityOrder), Visit(competences, competenceOrder),
                        Visit(oldProfiles, profileOrder), outcome)
      ensures outcome == Done ==>
        AvailabilitiesMigrated(oldAccounts, db.accounts, db.applications, Visit(oldAvailabilities, availabilityOrder),
                               db.availabilities[|old(db.availabilities)|..]) &&
        db.competences == old(db.competences) + Visit(competences, competenceOrder) &&
        ProfilesMigrated(oldAccounts, competences, db.accounts, db.applications, Visit(oldProfiles, profileOrder),
                         db.profiles[|old(db.profiles)|..])
    {
      outcome := MigrateAccounts(accountOrder);
      if outcome.Failed? {
        RunCompose(oldAccounts, competences, db.accounts, old(db.groups), db.groups,
                   old(db.applications), db.applications, old(db.availabilities), db.availabilities,
                   old(db.competences), db.competences, old(db.profiles), db.profiles,
                   Visit(oldAvailabilities, availabilityOrder), Visit(competences, competenceOrder),
                   Visit(oldProfiles, profileOrder), outcome, outcome, [], [], [], []);
        return;
      }
      ghost var accountRows, groupRows := db.accounts, db.groups;
      ghost var appsBefore, availsBefore, namesBefore, profilesBefore :=
        db.applications, db.availabilities, db.competences, db.profiles;
      outcome := MigrateApplications(availabilityOrder, competenceOrder, profileOrder);
      assert db.accounts == accountRows && db.groups == groupRows;
      RunCompose(oldAccounts, competences, db.accounts, old(db.groups), db.groups,
                 old(db.applications), db.applications, old(db.availabilities), db.availabilities,
                 old(db.competences), db.competences, old(db.profiles), db.profiles,
                 Visit(oldAvailabilities, availabilityOrder), Visit(competences, competenceOrder),
                 Visit(oldProfiles, profileOrder), Done, outcome,
                 db.availabilities[|availsBefore|..], db.competences[|namesBefore|..], db.profiles[|profilesBefore|..],
                 AvailabilityOwners(Visit(oldAvailabilities, availabilityOrder)[..|db.availabilities| - |availsBefore|]) +
                 ProfileOwners(Visit(oldProfiles, profileOrder)[..|db.profiles| - |profilesBefore|]));
    }
  }

  /**
   * The outcome of a run's two stages, the account pass and the application
   * passes, over the tables before and after: the run completes exactly when
   * every role is known and every dependent record's owner resolves; when a
   * role is missing the group pass stops at the first such account and
   * nothing else is written; otherwise the application passes have run, and
   * every application created belongs to the owner of a record they migrated.
   */
  ghost predicate RunResult(legacy: map<int, LegacyAccount>, competences: map<int, Text>,
                            accounts: seq<AccountRow>, groupsBefore: seq<GroupRow>, groups: seq<GroupRow>,
                            appsBefore: seq<ApplicationRow>, apps: seq<ApplicationRow>,
                            availsBefore: seq<AvailabilityRow>, availTable: seq<AvailabilityRow>,
                            namesBefore: seq<Text>, nameTable: seq<Text>,
                            profilesBefore: seq<ProfileRow>, profileTable: seq<ProfileRow>,
                            avails: seq<LegacyAvailability>, names: seq<Text>, profiles: seq<LegacyCompetenceProfile>,
                            outcome: Outcome)
  {
    availsBefore <= availTable && namesBefore <= nameTable && profilesBefore <= profileTable &&
    |availTable| - |availsBefore| <= |avails| && |profileTable| - |profilesBefore| <= |profiles| &&
    (outcome == Done <==>
       RolesKnown(accounts) && AvailabilityOwnersResolve(legacy, accounts, avails) &&
       ProfileOwnersResolve(legacy, accounts, profiles)) &&
    (!RolesKnown(accounts) ==>
       GroupPassResult(accounts, groupsBefore, groups, outcome) &&
       apps == appsBefore && availTable == availsBefore && nameTable == namesBefore && profileTable == profilesBefore) &&
    (RolesKnown(accounts) ==>
       groups == groupsBefore + GroupRows(accounts) &&
       ApplicationPassesResult(legacy, competences, accounts, apps, avails, names, profiles,
                               availTable[|availsBefore|..], nameTable[|namesBefore|..],
                               profileTable[|profilesBefore|..], outcome)) &&
    CreatedForOwners(legacy, accounts, appsBefore, apps,
                     AvailabilityOwners(avails[..|availTable| - |availsBefore|]) +
                     ProfileOwners(profiles[..|profileTable| - |profilesBefore|]))
  }

  /**
   * A run in terms of its two stages: the account pass (ACCOUNT and GROUPS
   * rows, `accountsOutcome`) and, when that pass completed, the application
   * passes (`outcome`).
   */
  lemma RunCompose(legacy: map<int, LegacyAccount>, competences: map<int, Text>,
                   accounts: seq<AccountRow>, groupsBefore: seq<GroupRow>, groups: seq<GroupRow>,
                   appsBefore: seq<ApplicationRow>, apps: seq<ApplicationRow>,
                   availsBefore: seq<AvailabilityRow>, availTable: seq<AvailabilityRow>,
                   namesBefore: seq<Text>, nameTable: seq<Text>,
                   profilesBefore: seq<ProfileRow>, profileTable: seq<ProfileRow>,
                   avails: seq<LegacyAvailability>, names: seq<Text>, profiles: seq<LegacyCompetenceProfile>,
                   accountsOutcome: Outcome, outcome: Outcome,
                   availRows: seq<AvailabilityRow>, nameRows: seq<Text>, profileRows: seq<ProfileRow>,
                   owners: seq<int>)
    requires GroupPassResult(accounts, groupsBefore, groups, accountsOutcome)
    requires accountsOutcome.Failed? ==>
      outcome == accountsOutcome && apps == appsBefore && availTable == availsBefore &&
      nameTable == namesBefore && profileTable == profilesBefore
    requires accountsOutcome == Done ==>
      availsBefore <= availTable && namesBefore <= nameTable && profilesBefore <= profileTable &&
      |availTable| - |availsBefore| <= |avails| && |profileTable| - |profilesBefore| <= |profiles| &&
      availRows == availTable[|availsBefore|..] && nameRows == nameTable[|namesBefore|..] &&
      profileRows == profileTable[|profilesBefore|..] &&
      owners == AvailabilityOwners(avails[..|availTable| - |availsBefore|]) +
                ProfileOwners(profiles[..|profileTable| - |profilesBefore|]) &&
      ApplicationPassesResult(legacy, competences, accounts, apps, avails, names, profiles,
                              availRows, nameRows, profileRows, outcome) &&
      CreatedForOwners(legacy, accounts, appsBefore, apps, owners)
    ensures RunResult(legacy, competences, accounts, groupsBefore, groups, appsBefore, apps,
                      availsBefore, availTable, namesBefore, nameTable, profilesBefore, profileTable,
                      avails, names, profiles, outcome)
  {
    if accountsOutcome.Failed? {
      assert AvailabilityOwners(avails[..|availTable| - |availsBefore|]) == [];
      assert ProfileOwners(profiles[..|profileTable| - |profilesBefore|]) == [];
    }
  }

  /**
   * One run: load the legacy tables into a fresh migrator, then the account
   * pass, then the application passes. Every HashMap is visited in an order
   * that lists each of its keys once.
   */
  method Migrate(db: TargetDb, now: Timestamp, hash: string -> string,
                 roleRows: seq<RoleRecord>, personRows: seq<PersonRecord>,
                 availabilityRows: seq<LegacyAvailability>, competenceRows: seq<CompetenceRecord>,
                 profileRows: seq<LegacyCompetenceProfile>,
                 accountOrder: seq<int>, availabilityOrder: seq<int>, competenceOrder: seq<int>, profileOrder: seq<int>)
    returns (outcome: Outcome, report: LoadReport)
    requires db.Valid() && OneApplicationPerAccount(db.applications)
    requires IsEnumeration(accountOrder, PutAll(AccountEntries(personRows, hash)).Keys)
    requires IsEnumeration(availabilityOrder, PutAll(AvailabilityEntries(availabilityRows)).Keys)
    requires IsEnumeration(competenceOrder, PutAll(CompetenceEntries(competenceRows)).Keys)
    requires IsEnumeration(profileOrder, PutAll(ProfileEntries(profileRows)).Keys)
    modifies db
    ensures db.Valid() && OneApplicationPerAccount(db.applications)
    ensures CreatedApplications(old(db.applications), db.applications, now)
    ensures report == LoadReportAsWritten(PutAll(RoleEntries(roleRows)), PutAll(AccountEntries(personRows, hash)),
                                          PutAll(AvailabilityEntries(availabilityRows)),
                                          PutAll(CompetenceEntries(competenceRows)), PutAll(ProfileEntries(profileRows)))
    ensures db.accounts == old(db.accounts) + AccountRows(accountOrder, PutAll(AccountEntries(personRows, hash)),
                                                           PutAll(RoleEntries(roleRows)), old(db.nextAccountId))
    ensures outcome == Done <==>
      RolesKnown(db.accounts) &&
      AvailabilityOwnersResolve(PutAll(AccountEntries(personRows, hash)), db.accounts,
                                Visit(PutAll(AvailabilityEntries(availabilityRows)), availabilityOrder)) &&
      ProfileOwnersResolve(PutAll(AccountEntries(personRows, hash)), db.accounts,
                           Visit(PutAll(ProfileEntries(profileRows)), profileOrder))
    ensures RunResult(PutAll(AccountEntries(personRows, hash)), PutAll(CompetenceEntries(competenceRows)),
                      db.accounts, old(db.groups), db.groups, old(db.applications), db.applications,
                      old(db.availabilities), db.availabilities, old(db.competences), db.competences,
                      old(db.profiles), db.profiles,
                      Visit(PutAll(AvailabilityEntries(availabilityRows)), availabilityOrder),
                      Visit(PutAll(CompetenceEntries(competenceRows)), competenceOrder),
                      Visit(PutAll(ProfileEntries(profileRows)), profileOrder), outcome)
    ensures outcome == Done ==>
      db.groups == old(db.groups) + GroupRows(db.accounts) &&
      old(db.availabilities) <= db.availabilities && old(db.profiles) <= db.profiles &&
      AvailabilitiesMigrated(PutAll(AccountEntries(personRows, hash)), db.accounts, db.applications,
                             Visit(PutAll(AvailabilityEntries(availabilityRows)), availabilityOrder),
                             db.availabilities[|old(db.availabilities)|..]) &&
      db.competences == old(db.competences) + Visit(PutAll(CompetenceEntries(competenceRows)), competenceOrder) &&
      ProfilesMigrated(PutAll(AccountEntries(personRows, hash)), PutAll(CompetenceEntries(competenceRows)),
                       db.accounts, db.applications, Visit(PutAll(ProfileEntries(profileRows)), profileOrder),
                       db.profiles[|old(db.profiles)|..]) &&
      var counts := LoadReportOf(PutAll(RoleEntries(roleRows)), PutAll(AccountEntries(personRows, hash)),
                                 PutAll(AvailabilityEntries(availabilityRows)),
                                 PutAll(CompetenceEntries(competenceRows)), PutAll(ProfileEntries(profileRows)));
      |db.availabilities| == |old(db.availabilities)| + counts.availabilities &&
      |db.competences| == |old(db.competences)| + counts.competences &&
      |db.profiles| == |old(db.profiles)| + counts.profiles
  {
    ghost var accounts := PutAll(AccountEntries(personRows, hash));
    ghost var availabilities := PutAll(AvailabilityEntries(availabilityRows));
    ghost var competences := PutAll(CompetenceEntries(competenceRows));
    ghost var profiles := PutAll(ProfileEntries(profileRows));
    var migrator := new RecruitoolMigrator(db, now);
    report := migrator.LoadLegacyTables(roleRows, personRows, availabilityRows, competenceRows, profileRows, hash);
    MergeIntoEmpty(accounts);
    MergeIntoEmpty(PutAll(RoleEntries(roleRows)));
    MergeIntoEmpty(availabilities);
    MergeIntoEmpty(competences);
    MergeIntoEmpty(profiles);
    outcome := migrator.MigrateTables(accountOrder, availabilityOrder, competenceOrder, profileOrder);
    EnumerationLength(availabilityOrder, availabilities.Keys);
    EnumerationLength(competenceOrder, competences.Keys);
    EnumerationLength(profileOrder, profiles.Keys);
  }
}
