/**
 * The legacy side: the rows the extractor reads from the scratch database,
 * the in-memory records it builds from them, and the field normalisation it
 * applies on the way (role names, password hashing).
 */
module Legacy {
  import opened Common

  // ---------------------------------------------------------------------
  // Rows of the legacy tables, as the `SELECT *` queries return them
  // ---------------------------------------------------------------------

  datatype RoleRecord = RoleRecord(roleId: int, name: string)

  datatype PersonRecord = PersonRecord(
    personId: int, name: Text, surname: Text, ssn: Text,
    email: Text, username: Text, password: Text, roleId: int)

  datatype CompetenceRecord = CompetenceRecord(competenceId: int, name: Text)

  // ---------------------------------------------------------------------
  // In-memory legacy records (the values of the extractor's maps)
  // ---------------------------------------------------------------------

  datatype LegacyAccount = LegacyAccount(
    firstName: Text, lastName: Text, ssn: Text,
    email: Text, username: Text, password: Text, roleId: int)

  /** The availability and competence_profile result rows carry exactly these fields. */
  datatype LegacyAvailability = LegacyAvailability(
    id: int, fromDate: Option<Date>, toDate: Option<Date>, accountId: int)

  datatype LegacyCompetenceProfile = LegacyCompetenceProfile(
    id: int, yearsOfExp: Option<Decimal>, accountId: int, competenceId: int)

  // ---------------------------------------------------------------------
  // Role-name normalisation
  // ---------------------------------------------------------------------

  predicate IsLower(c: char) { 'a' <= c <= 'z' }

  predicate IsUpperCase(s: string) { forall i :: 0 <= i < |s| ==> !IsLower(s[i]) }

  function UpperChar(c: char): char {
    if IsLower(c) then (c as int - 32) as char else c
  }

  /** Upper-casing keeps the length, leaves no lower-case letter and changes nothing else. */
  function ToUpper(s: string): (u: string)
    ensures |u| == |s| && IsUpperCase(u)
    ensures forall i :: 0 <= i < |s| ==> u[i] == UpperChar(s[i])
  {
    if s == [] then [] else [UpperChar(s[0])] + ToUpper(s[1..])
  }

  /**
   * The name stored for a role: upper-cased, and the legacy typo "RECRUIT"
   * replaced by "RECRUITER". "RECRUIT" is never the result.
   */
  function NormalizeRole(name: string): (r: string)
    ensures IsUpperCase(r) && r != "RECRUIT"
    ensures ToUpper(name) == "RECRUIT" ==> r == "RECRUITER"
    ensures ToUpper(name) != "RECRUIT" ==> r == ToUpper(name)
  {
    var upper := ToUpper(name);
    if upper == "RECRUIT" then "RECRUITER" else upper
  }

  /** Any spelling of "recruit", whatever its case, is stored as "RECRUITER". */
  lemma RecruitInAnyCase(name: string)
    requires |name| == 7 && forall i :: 0 <= i < 7 ==> UpperChar(name[i]) == "RECRUIT"[i]
    ensures NormalizeRole(name) == "RECRUITER"
  {
    assert ToUpper(name) == "RECRUIT";
  }

  // ---------------------------------------------------------------------
  // Password handling
  // ---------------------------------------------------------------------

  /**
   * A NULL password stays NULL; any other password is replaced by its hash.
   * `hash` stands for the one-way hash of the crypto collaborator.
   */
  function HashPassword(password: Text, hash: string -> string): (r: Text)
    ensures r.None? <==> password.None?
    ensures password.Some? ==> r == Some(hash(password.value))
  {
    match password
    case None => None
    case Some(p) => Some(hash(p))
  }

  /** The legacy account built from one person row: every field copied, only the password hashed. */
  function ToLegacyAccount(row: PersonRecord, hash: string -> string): (a: LegacyAccount)
    ensures a.firstName == row.name && a.lastName == row.surname && a.ssn == row.ssn
    ensures a.email == row.email && a.username == row.username && a.roleId == row.roleId
    ensures a.password == HashPassword(row.password, hash)
  {
    LegacyAccount(row.name, row.surname, row.ssn, row.email, row.username,
                  HashPassword(row.password, hash), row.roleId)
  }

  // ---------------------------------------------------------------------
  // Filling a HashMap with one `put` per result row
  // ---------------------------------------------------------------------

  /** The map after `put(k, v)` for every entry, in order: a later entry overwrites an earlier one. */
  function PutAll<V>(entries: seq<(int, V)>): map<int, V>
  {
    if entries == [] then map[]
    else
      var last := entries[|entries| - 1];
      PutAll(entries[..|entries| - 1])[last.0 := last.1]
  }

  /** A key is in the map iff some entry has it, and its value is that of the LAST such entry. */
  lemma {:induction false} PutAllLastWins<V>(entries: seq<(int, V)>, k: int)
    ensures k in PutAll(entries) <==> exists i :: 0 <= i < |entries| && entries[i].0 == k
    ensures k in PutAll(entries) ==>
      exists i :: 0 <= i < |entries| && entries[i] == (k, PutAll(entries)[k]) &&
                  forall j :: i < j < |entries| ==> entries[j].0 != k
  {
    if entries != [] {
      var n := |entries| - 1;
      var front := entries[..n];
      PutAllLastWins(front, k);
      if entries[n].0 != k {
        if k in PutAll(front) {
          var i :| 0 <= i < |front| && front[i] == (k, PutAll(front)[k]) &&
                   forall j :: i < j < |front| ==> front[j].0 != k;
          assert entries[i] == front[i];
        }
        if exists i :: 0 <= i < |entries| && entries[i].0 == k {
          var i :| 0 <= i < |entries| && entries[i].0 == k;
          assert front[i].0 == k;
        }
      }
    }
  }

  function RoleEntries(rows: seq<RoleRecord>): seq<(int, string)> {
    seq(|rows|, i requires 0 <= i < |rows| => (rows[i].roleId, NormalizeRole(rows[i].name)))
  }

  function AccountEntries(rows: seq<PersonRecord>, hash: string -> string): seq<(int, LegacyAccount)> {
    seq(|rows|, i requires 0 <= i < |rows| => (rows[i].personId, ToLegacyAccount(rows[i], hash)))
  }

  function AvailabilityEntries(rows: seq<LegacyAvailability>): seq<(int, LegacyAvailability)> {
    seq(|rows|, i requires 0 <= i < |rows| => (rows[i].id, rows[i]))
  }

  function CompetenceEntries(rows: seq<CompetenceRecord>): seq<(int, Text)> {
    seq(|rows|, i requires 0 <= i < |rows| => (rows[i].competenceId, rows[i].name))
  }

  function ProfileEntries(rows: seq<LegacyCompetenceProfile>): seq<(int, LegacyCompetenceProfile)> {
    seq(|rows|, i requires 0 <= i < |rows| => (rows[i].id, rows[i]))
  }

  /**
   * The role map loaded from the role table: one entry per role id, holding
   * the normalised name of the last row with that id; "RECRUIT" is never stored.
   */
  lemma RolesLoaded(rows: seq<RoleRecord>, id: int)
    ensures id in PutAll(RoleEntries(rows)) <==> exists i :: 0 <= i < |rows| && rows[i].roleId == id
    ensures id in PutAll(RoleEntries(rows)) ==>
      var name := PutAll(RoleEntries(rows))[id];
      name != "RECRUIT" && IsUpperCase(name) &&
      exists i :: 0 <= i < |rows| && rows[i].roleId == id && name == NormalizeRole(rows[i].name) &&
                  forall j :: i < j < |rows| ==> rows[j].roleId != id
  {
    var e := RoleEntries(rows);
    PutAllLastWins(e, id);
    if exists i :: 0 <= i < |rows| && rows[i].roleId == id {
      var i :| 0 <= i < |rows| && rows[i].roleId == id;
      assert e[i].0 == id;
    }
    if id in PutAll(e) {
      var i :| 0 <= i < |e| && e[i] == (id, PutAll(e)[id]) && forall j :: i < j < |e| ==> e[j].0 != id;
      assert rows[i].roleId == id;
      assert forall j :: i < j < |rows| ==> rows[j].roleId == e[j].0;
    }
  }

  /**
   * The account map loaded from the person table: one entry per person id,
   * built from the last row with that id, with its password hashed iff it was not NULL.
   */
  lemma AccountsLoaded(rows: seq<PersonRecord>, hash: string -> string, id: int)
    ensures id in PutAll(AccountEntries(rows, hash)) <==> exists i :: 0 <= i < |rows| && rows[i].personId == id
    ensures id in PutAll(AccountEntries(rows, hash)) ==>
      var acc := PutAll(AccountEntries(rows, hash))[id];
      exists i :: 0 <= i < |rows| && rows[i].personId == id &&
                  acc.firstName == rows[i].name && acc.lastName == rows[i].surname &&
                  acc.ssn == rows[i].ssn && acc.email == rows[i].email &&
                  acc.username == rows[i].username && acc.roleId == rows[i].roleId &&
                  (acc.password.None? <==> rows[i].password.None?) &&
                  (rows[i].password.Some? ==> acc.password == Some(hash(rows[i].password.value))) &&
                  forall j :: i < j < |rows| ==> rows[j].personId != id
  {
    var e := AccountEntries(rows, hash);
    PutAllLastWins(e, id);
    if exists i :: 0 <= i < |rows| && rows[i].personId == id {
      var i :| 0 <= i < |rows| && rows[i].personId == id;
      assert e[i].0 == id;
    }
    if id in PutAll(e) {
      var i :| 0 <= i < |e| && e[i] == (id, PutAll(e)[id]) && forall j :: i < j < |e| ==> e[j].0 != id;
      assert rows[i].personId == id;
      assert forall j :: i < j < |rows| ==> rows[j].personId == e[j].0;
    }
  }

  // ---------------------------------------------------------------------
  // HashMap iteration
  // ---------------------------------------------------------------------

  /** `order` lists every key of the map exactly once: an iteration order of `values()`. */
  ghost predicate IsEnumeration(order: seq<int>, keys: set<int>) {
    (forall i, j :: 0 <= i < j < |order| ==> order[i] != order[j]) &&
    (forall i :: 0 <= i < |order| ==> order[i] in keys) &&
    (forall k :: k in keys ==> k in order)
  }

  /** An iteration visits as many entries as the map holds. */
  lemma {:induction false} EnumerationLength(order: seq<int>, keys: set<int>)
    requires IsEnumeration(order, keys)
    ensures |order| == |keys|
  {
    if order != [] {
      var n := |order| - 1;
      var last := order[n];
      var front := order[..n];
      assert forall k :: k in front ==> k in order[..n];
      assert last !in front by {
        assert forall j :: 0 <= j < n ==> order[j] != order[n];
      }
      assert forall k :: k in front <==> k in keys - {last} by {
        forall k
          ensures k in front <==> k in keys - {last}
        {
          if k in keys - {last} {
            assert k in order;
            var j :| 0 <= j < |order| && order[j] == k;
            assert j != n;
            assert front[j] == k;
          }
        }
      }
      EnumerationLength(front, keys - {last});
    } else {
      assert forall k :: k !in keys;
      assert keys == {};
    }
  }
}
