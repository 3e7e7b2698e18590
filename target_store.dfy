/**
 * The target database, held in memory: one sequence of rows per relation and
 * one identity counter for each relation whose generated ID is read back.
 * Inserts append a row; the selects of the migrator return the first row that
 * matches, in table order.
 */
module TargetStore {
  import opened Common

  datatype AccountRow = AccountRow(
    id: int, firstName: Text, lastName: Text, email: Text,
    username: Text, password: Text, role: Text, ssn: Text)

  datatype GroupRow = GroupRow(groupName: string, username: Text, account: int)

  datatype ApplicationRow = ApplicationRow(id: int, status: string, timeOfReg: Timestamp, accId: int)

  datatype AvailabilityRow = AvailabilityRow(fromDate: Option<Date>, toDate: Option<Date>, applId: int)

  datatype ProfileRow = ProfileRow(yearsOfExp: Option<Decimal>, compId: Text, applId: int)

  const Submitted := "SUBMITTED"
  const Applicant := "APPLICANT"

  // ---------------------------------------------------------------------
  // select * from ACCOUNT where SSN=?
  // ---------------------------------------------------------------------

  /** The first ACCOUNT row whose SSN equals `ssn`; a NULL `ssn` matches nothing (SQL `= NULL`). */
  function SelectAccountBySsn(accounts: seq<AccountRow>, ssn: Text): (r: Option<AccountRow>)
    ensures r.Some? ==> ssn.Some?
    ensures r.Some? ==> exists i :: 0 <= i < |accounts| && accounts[i] == r.value &&
                                    accounts[i].ssn == ssn && forall j :: 0 <= j < i ==> accounts[j].ssn != ssn
    ensures r.None? <==> ssn.None? || forall i :: 0 <= i < |accounts| ==> accounts[i].ssn != ssn
  {
    if ssn.None? || accounts == [] then None
    else if accounts[0].ssn == ssn then Some(accounts[0])
    else
      var r := SelectAccountBySsn(accounts[1..], ssn);
      assert forall i :: 1 <= i < |accounts| ==> accounts[i] == accounts[1..][i - 1];
      r
  }

  // ---------------------------------------------------------------------
  // select * from APPLICATION where ACC_ID=?
  // ---------------------------------------------------------------------

  /** The first APPLICATION row of account `accId`, if there is one. */
  function SelectApplication(apps: seq<ApplicationRow>, accId: int): (r: Option<ApplicationRow>)
    ensures r.Some? ==> r.value.accId == accId &&
                        exists i :: 0 <= i < |apps| && apps[i] == r.value &&
                                    forall j :: 0 <= j < i ==> apps[j].accId != accId
    ensures r.None? <==> forall i :: 0 <= i < |apps| ==> apps[i].accId != accId
  {
    if apps == [] then None
    else if apps[0].accId == accId then Some(apps[0])
    else
      var r := SelectApplication(apps[1..], accId);
      assert forall i :: 1 <= i < |apps| ==> apps[i] == apps[1..][i - 1];
      r
  }

  /** Appending rows never changes which application an account already has. */
  lemma {:induction false} SelectApplicationStable(apps: seq<ApplicationRow>, more: seq<ApplicationRow>, accId: int)
    requires SelectApplication(apps, accId).Some?
    ensures SelectApplication(apps + more, accId) == SelectApplication(apps, accId)
  {
    if apps[0].accId != accId {
      assert (apps + more)[1..] == apps[1..] + more;
      SelectApplicationStable(apps[1..], more, accId);
    }
  }

  /** An account without an application finds the row appended for it. */
  lemma {:induction false} SelectApplicationAppended(apps: seq<ApplicationRow>, row: ApplicationRow)
    requires SelectApplication(apps, row.accId).None?
    ensures SelectApplication(apps + [row], row.accId) == Some(row)
  {
    if apps != [] {
      assert (apps + [row])[1..] == apps[1..] + [row];
      SelectApplicationAppended(apps[1..], row);
    }
  }

  /** The cardinality invariant of the APPLICATION table. */
  ghost predicate OneApplicationPerAccount(apps: seq<ApplicationRow>) {
    forall i, j :: 0 <= i < j < |apps| ==> apps[i].accId != apps[j].accId
  }

  /** Under the invariant, the application an account resolves to is its only one. */
  lemma OnlyApplication(apps: seq<ApplicationRow>, accId: int, i: int)
    requires OneApplicationPerAccount(apps)
    requires 0 <= i < |apps| && apps[i].accId == accId
    ensures SelectApplication(apps, accId) == Some(apps[i])
  {
  }

  // ---------------------------------------------------------------------
  // Get-or-create, as a function of the APPLICATION table and its counter
  // ---------------------------------------------------------------------

  /**
   * The effect of getMigratedApplication: the table, the next generated ID and
   * the application returned. An existing application is returned untouched;
   * otherwise one SUBMITTED row stamped `now` is appended and returned.
   */
  function GetOrCreate(apps: seq<ApplicationRow>, nextId: int, accId: int, now: Timestamp)
    : (seq<ApplicationRow>, int, ApplicationRow)
  {
    match SelectApplication(apps, accId)
    case Some(a) => (apps, nextId, a)
    case None =>
      var row := ApplicationRow(nextId, Submitted, now, accId);
      (apps + [row], nextId + 1, row)
  }

  /**
   * What get-or-create promises: the returned row belongs to the account and is
   * the one a select now finds; the table only grows, by at most one fresh
   * SUBMITTED row, and only when the account had no application.
   */
  lemma GetOrCreateResult(apps: seq<ApplicationRow>, nextId: int, accId: int, now: Timestamp)
    ensures var (apps', nextId', appl) := GetOrCreate(apps, nextId, accId, now);
      appl.accId == accId &&
      SelectApplication(apps', accId) == Some(appl) &&
      (SelectApplication(apps, accId).Some? ==> apps' == apps && nextId' == nextId) &&
      (SelectApplication(apps, accId).None? ==>
         apps' == apps + [ApplicationRow(nextId, Submitted, now, accId)] && nextId' == nextId + 1)
  {
    if SelectApplication(apps, accId).None? {
      SelectApplicationAppended(apps, ApplicationRow(nextId, Submitted, now, accId));
    }
  }

  /** A second get-or-create for the same account inserts nothing and returns the same row. */
  lemma GetOrCreateIdempotent(apps: seq<ApplicationRow>, nextId: int, accId: int, now: Timestamp, later: Timestamp)
    ensures var (apps', nextId', appl) := GetOrCreate(apps, nextId, accId, now);
      GetOrCreate(apps', nextId', accId, later) == (apps', nextId', appl)
  {
    GetOrCreateResult(apps, nextId, accId, now);
  }

  /** Get-or-create keeps at most one application per account. */
  lemma GetOrCreateKeepsOnePerAccount(apps: seq<ApplicationRow>, nextId: int, accId: int, now: Timestamp)
    requires OneApplicationPerAccount(apps)
    ensures OneApplicationPerAccount(GetOrCreate(apps, nextId, accId, now).0)
  {
  }

  // ---------------------------------------------------------------------
  // ACCOUNT_GROUPS derivation
  // ---------------------------------------------------------------------

  /** An account gets a group row iff its role is known and is not APPLICANT. */
  predicate HasGroup(a: AccountRow) {
    a.role.Some? && a.role.value != Applicant
  }

  function GroupsFor(a: AccountRow): seq<GroupRow> {
    if HasGroup(a) then [GroupRow(a.role.value, a.username, a.id)] else []
  }

  /** The group rows derived from the ACCOUNT table, read in table order. */
  function GroupRows(accounts: seq<AccountRow>): seq<GroupRow> {
    if accounts == [] then []
    else GroupRows(accounts[..|accounts| - 1]) + GroupsFor(accounts[|accounts| - 1])
  }

  /** How many group rows name account `id`. */
  function GroupCount(groups: seq<GroupRow>, id: int): nat {
    if groups == [] then 0
    else GroupCount(groups[..|groups| - 1], id) + (if groups[|groups| - 1].account == id then 1 else 0)
  }

  lemma {:induction false} GroupCountAppend(gs: seq<GroupRow>, hs: seq<GroupRow>, id: int)
    ensures GroupCount(gs + hs, id) == GroupCount(gs, id) + GroupCount(hs, id)
  {
    if hs != [] {
      var n := |hs| - 1;
      assert (gs + hs)[..|gs + hs| - 1] == gs + hs[..n];
      GroupCountAppend(gs, hs[..n], id);
    } else {
      assert gs + hs == gs;
    }
  }

  predicate DistinctIds(accounts: seq<AccountRow>) {
    forall i, j :: 0 <= i < j < |accounts| ==> accounts[i].id != accounts[j].id
  }

  /**
   * With distinct account ids, every account other than an applicant gets
   * exactly one group row, holding its role, username and id; an applicant
   * (or an account with no role) gets none.
   */
  lemma {:induction false} GroupRowsPerAccount(accounts: seq<AccountRow>, i: int)
    requires DistinctIds(accounts) && 0 <= i < |accounts|
    ensures GroupCount(GroupRows(accounts), accounts[i].id) == if HasGroup(accounts[i]) then 1 else 0
    ensures HasGroup(accounts[i]) ==>
      GroupRow(accounts[i].role.value, accounts[i].username, accounts[i].id) in GroupRows(accounts)
  {
    var n := |accounts| - 1;
    var front := accounts[..n];
    var id := accounts[i].id;
    GroupCountAppend(GroupRows(front), GroupsFor(accounts[n]), id);
    if i < n {
      GroupRowsPerAccount(front, i);
      assert accounts[n].id != id;
    } else {
      NoGroupRowsFor(front, id);
    }
  }

  lemma {:induction false} NoGroupRowsFor(accounts: seq<AccountRow>, id: int)
    requires forall i :: 0 <= i < |accounts| ==> accounts[i].id != id
    ensures GroupCount(GroupRows(accounts), id) == 0
  {
    if accounts != [] {
      var n := |accounts| - 1;
      GroupCountAppend(GroupRows(accounts[..n]), GroupsFor(accounts[n]), id);
      NoGroupRowsFor(accounts[..n], id);
    }
  }

  /** Every group row comes from an account that is not an applicant. */
  lemma {:induction false} GroupRowsFromAccounts(accounts: seq<AccountRow>, g: GroupRow)
    requires g in GroupRows(accounts)
    ensures g.groupName != Applicant
    ensures exists i :: 0 <= i < |accounts| && HasGroup(accounts[i]) &&
                        g == GroupRow(accounts[i].role.value, accounts[i].username, accounts[i].id)
  {
    var n := |accounts| - 1;
    if g in GroupRows(accounts[..n]) {
      GroupRowsFromAccounts(accounts[..n], g);
      var i :| 0 <= i < n && HasGroup(accounts[..n][i]) &&
               g == GroupRow(accounts[..n][i].role.value, accounts[..n][i].username, accounts[..n][i].id);
      assert accounts[i] == accounts[..n][i];
    } else {
      assert g in GroupsFor(accounts[n]);
    }
  }

  // ---------------------------------------------------------------------
  // The database object
  // ---------------------------------------------------------------------

  /** Generated ids are increasing in table order and below the next one to hand out. */
  ghost predicate FreshIds(ids: seq<int>, next: int) {
    (forall i, j :: 0 <= i < j < |ids| ==> ids[i] < ids[j]) &&
    (forall i :: 0 <= i < |ids| ==> ids[i] < next)
  }

  function AccountIds(accounts: seq<AccountRow>): seq<int> {
    seq(|accounts|, i requires 0 <= i < |accounts| => accounts[i].id)
  }

  function ApplicationIds(apps: seq<ApplicationRow>): seq<int> {
    seq(|apps|, i requires 0 <= i < |apps| => apps[i].id)
  }

  /** Ids handed out by an identity column are distinct. */
  lemma FreshAccountIdsDistinct(accounts: seq<AccountRow>, next: int)
    requires FreshIds(AccountIds(accounts), next)
    ensures DistinctIds(accounts)
  {
    forall i, j | 0 <= i < j < |accounts|
      ensures accounts[i].id != accounts[j].id
    {
      assert AccountIds(accounts)[i] < AccountIds(accounts)[j];
    }
  }

  /**
   * In an ACCOUNT table whose ids came from the identity column, every
   * account other than an applicant gets exactly one group row; an applicant gets none.
   */
  lemma OneGroupRowPerAccount(accounts: seq<AccountRow>, next: int, i: int)
    requires FreshIds(AccountIds(accounts), next) && 0 <= i < |accounts|
    ensures GroupCount(GroupRows(accounts), accounts[i].id) == if HasGroup(accounts[i]) then 1 else 0
  {
    FreshAccountIdsDistinct(accounts, next);
    GroupRowsPerAccount(accounts, i);
  }

  class TargetDb {
    var accounts: seq<AccountRow>
    var groups: seq<GroupRow>
    var applications: seq<ApplicationRow>
    var availabilities: seq<AvailabilityRow>
    var competences: seq<Text>
    var profiles: seq<ProfileRow>
    var nextAccountId: int
    var nextApplicationId: int

    /** The identity columns of ACCOUNT and APPLICATION hand out fresh, increasing ids. */
    ghost predicate Valid()
      reads this
    {
      FreshIds(AccountIds(accounts), nextAccountId) &&
      FreshIds(ApplicationIds(applications), nextApplicationId)
    }

    /** An empty target schema whose identity columns start at 1. */
    constructor Empty()
      ensures Valid() && OneApplicationPerAccount(applications)
      ensures accounts == [] && groups == [] && applications == []
      ensures availabilities == [] && competences == [] && profiles == []
      ensures nextAccountId == 1 && nextApplicationId == 1
    {
      accounts, groups, applications := [], [], [];
      availabilities, competences, profiles := [], [], [];
      nextAccountId, nextApplicationId := 1, 1;
    }

    /** insert into ACCOUNT(...): the row gets the next generated ID. */
    method InsertAccount(firstName: Text, lastName: Text, email: Text, username: Text,
                         password: Text, role: Text, ssn: Text)
      requires Valid()
      modifies this`accounts, this`nextAccountId
      ensures Valid()
      ensures accounts == old(accounts) +
        [AccountRow(old(nextAccountId), firstName, lastName, email, username, password, role, ssn)]
      ensures nextAccountId == old(nextAccountId) + 1
    {
      accounts := accounts + [AccountRow(nextAccountId, firstName, lastName, email, username, password, role, ssn)];
      nextAccountId := nextAccountId + 1;
      assert AccountIds(accounts) == AccountIds(old(accounts)) + [old(nextAccountId)];
    }

    /** insert into ACCOUNT_GROUPS(GROUPNAME, USERNAME, ACCOUNT). */
    method InsertGroup(groupName: string, username: Text, account: int)
      modifies this`groups
      ensures groups == old(groups) + [GroupRow(groupName, username, account)]
    {
      groups := groups + [GroupRow(groupName, username, account)];
    }

    /** insert into APPLICATION(APPL_STATUS, TIME_OF_REG, ACC_ID): the row gets the next generated ID. */
    method InsertApplication(status: string, timeOfReg: Timestamp, accId: int)
      requires Valid()
      modifies this`applications, this`nextApplicationId
      ensures Valid()
      ensures applications == old(applications) + [ApplicationRow(old(nextApplicationId), status, timeOfReg, accId)]
      ensures nextApplicationId == old(nextApplicationId) + 1
    {
      applications := applications + [ApplicationRow(nextApplicationId, status, timeOfReg, accId)];
      nextApplicationId := nextApplicationId + 1;
      assert ApplicationIds(applications) == ApplicationIds(old(applications)) + [old(nextApplicationId)];
    }

    /** insert into AVAILABILITY(FROM_DATE, TO_DATE, APPL_ID). */
    method InsertAvailability(fromDate: Option<Date>, toDate: Option<Date>, applId: int)
      modifies this`availabilities
      ensures availabilities == old(availabilities) + [AvailabilityRow(fromDate, toDate, applId)]
    {
      availabilities := availabilities + [AvailabilityRow(fromDate, toDate, applId)];
    }

    /** insert into COMPETENCE(NAME). */
    method InsertCompetence(name: Text)
      modifies this`competences
      ensures competences == old(competences) + [name]
    {
      competences := competences + [name];
    }

    /** insert into COMPETENCEPROFILE(YEARS_OF_EXP, COMP_ID, APPL_ID). */
    method InsertProfile(yearsOfExp: Option<Decimal>, compId: Text, applId: int)
      modifies this`profiles
      ensures profiles == old(profiles) + [ProfileRow(yearsOfExp, compId, applId)]
    {
      profiles := profiles + [ProfileRow(yearsOfExp, compId, applId)];
    }
  }
}
