# RecruitoolMigrator in Dafny

A model of the one-shot migration tool that moves Recruitool's legacy recruitment
database into the new schema, with its properties proved.

The tool works in five steps:

1. **Loading the dump.** It reads a legacy SQL dump character by character and cuts
   it into statements at every `;`. It runs each statement against a scratch
   database and only logs a statement that fails.
2. **Extraction.** It reads the legacy tables `role`, `person`, `availability`,
   `competence` and `competence_profile` into in-memory maps keyed by legacy id.
   - Role names are upper-cased, and the misspelt `RECRUIT` becomes `RECRUITER`.
   - Every non-NULL password is replaced by its hash.
3. **Account pass.** It writes one `ACCOUNT` row per legacy person. It then reads
   `ACCOUNT` back and writes one `ACCOUNT_GROUPS` row for every account whose role
   is not `APPLICANT`.
4. **Application passes.** Each availability and each competence profile is
   attached to an `APPLICATION` of its owner's migrated account.
   - The owner is found through the SSN.
   - The application is created on first use: get-or-create.
   - The competence catalogue is copied to `COMPETENCE`.
5. **The target database** is modelled in memory: one sequence of rows per
   relation, and an identity counter for `ACCOUNT` and `APPLICATION`.

Files:

- `common.dfy`: nullable text, opaque date, decimal and timestamp values, error outcomes.
- `legacy.dfy`: legacy rows and records, role normalisation, password hashing, HashMap filling (`PutAll`), HashMap iteration orders.
- `target_store.dfy`: the target tables (`TargetDb`), first-match selects, get-or-create, the group derivation.
- `migration.dfy`: the migrator class with the load, account, identity-resolution and dependent-row passes, and one whole run (`Migrate`).
- `script_splitter.dfy`: the dump splitter.

The iteration order of a `HashMap`'s `values()` is not fixed by Java. Each pass
therefore takes an `order` parameter: the map's keys in some order. `Migrate`
requires each order to list every key exactly once (`Legacy.IsEnumeration`). The
one-way password hash is a parameter `hash`.

## Model

| member | source | states |
|---|---|---|
| Legacy.ToUpper | src/recruitool/migrator/RecruitoolMigrator.java:149 | upper-casing keeps the length, leaves no lower-case letter, and maps each character by itself |
| Legacy.NormalizeRole | src/recruitool/migrator/RecruitoolMigrator.java:147-155 | the stored role name is upper-case and never `RECRUIT`. A name that upper-cases to `RECRUIT` becomes `RECRUITER`; any other name is its upper-cased form |
| Legacy.RecruitInAnyCase | src/recruitool/migrator/RecruitoolMigrator.java:149-153 | `recruit` in any mix of cases is stored as `RECRUITER` |
| Legacy.HashPassword | src/recruitool/migrator/RecruitoolMigrator.java:176-182 | the result is NULL iff the password is NULL; otherwise it is the hash of the password |
| Legacy.ToLegacyAccount | src/recruitool/migrator/RecruitoolMigrator.java:166-197 | a legacy account copies name, surname, SSN, email, username and role id from its row. Its password is the hashed password |
| Legacy.PutAllLastWins | src/recruitool/migrator/RecruitoolMigrator.java:155 | after one `put` per row, a key is present iff some row has it. Its value is that of the last row with that key |
| Legacy.RolesLoaded | src/recruitool/migrator/RecruitoolMigrator.java:141-158 | the role map has one entry per role id in the table. It holds the normalised name of the last row with that id, so it is upper-case and never `RECRUIT` |
| Legacy.AccountsLoaded | src/recruitool/migrator/RecruitoolMigrator.java:160-202 | the account map has one entry per person id. It copies the last such row's fields, and its password is NULL iff the row's is, the row's hash otherwise |
| Legacy.EnumerationLength | src/recruitool/migrator/RecruitoolMigrator.java:281 | an iteration over `values()` visits exactly as many records as the map holds |
| TargetStore.SelectAccountBySsn | src/recruitool/migrator/RecruitoolMigrator.java:303-309 | the select finds the first ACCOUNT row with the given SSN. It finds nothing iff the SSN is NULL or no row has it |
| TargetStore.SelectApplication | src/recruitool/migrator/RecruitoolMigrator.java:383-389 | the select finds the first APPLICATION row of the account. It finds nothing iff the account has none |
| TargetStore.SelectApplicationStable | src/recruitool/migrator/RecruitoolMigrator.java:383-401 | appending rows never changes the application an account already resolves to |
| TargetStore.SelectApplicationAppended | src/recruitool/migrator/RecruitoolMigrator.java:380 | an account without an application finds the row just inserted for it |
| TargetStore.OnlyApplication | src/recruitool/migrator/RecruitoolMigrator.java:383-394 | when every account has at most one application, the select returns that application |
| TargetStore.GetOrCreateResult | src/recruitool/migrator/RecruitoolMigrator.java:366-403 | get-or-create returns a row of the account, and that row is the one a select now finds. An existing application leaves the table and counter unchanged. Otherwise exactly one `SUBMITTED` row, stamped with the run's time and the next id, is appended |
| TargetStore.GetOrCreateIdempotent | src/recruitool/migrator/RecruitoolMigrator.java:382-401 | a second get-or-create for the same account, at any time, inserts nothing and returns the same row |
| TargetStore.GetOrCreateKeepsOnePerAccount | src/recruitool/migrator/RecruitoolMigrator.java:389-390 | get-or-create preserves "at most one APPLICATION per account" |
| TargetStore.GroupRowsPerAccount | src/recruitool/migrator/RecruitoolMigrator.java:340-354 | with distinct account ids, an account gets exactly one group row if its role is known and not `APPLICANT`, otherwise none. That row holds its role, username and id |
| TargetStore.NoGroupRowsFor | src/recruitool/migrator/RecruitoolMigrator.java:340-354 | no group row names an id that no account has |
| TargetStore.GroupRowsFromAccounts | src/recruitool/migrator/RecruitoolMigrator.java:343-354 | every group row comes from an account whose role is not `APPLICANT` |
| TargetStore.FreshAccountIdsDistinct | src/recruitool/migrator/RecruitoolMigrator.java:296 | ids handed out by the ACCOUNT identity column are distinct |
| TargetStore.OneGroupRowPerAccount | src/recruitool/migrator/RecruitoolMigrator.java:330-358 | with identity-column ids, a non-applicant account gets exactly one group row and an applicant gets none |
| TargetStore.TargetDb.InsertAccount | src/recruitool/migrator/RecruitoolMigrator.java:276-296 | the ACCOUNT insert appends the row with the next generated id and keeps ids fresh and increasing |
| TargetStore.TargetDb.InsertGroup | src/recruitool/migrator/RecruitoolMigrator.java:331-354 | the ACCOUNT_GROUPS insert appends one row |
| TargetStore.TargetDb.InsertApplication | src/recruitool/migrator/RecruitoolMigrator.java:367-377 | the APPLICATION insert appends the row with the next generated id and keeps ids fresh and increasing |
| TargetStore.TargetDb.InsertAvailability | src/recruitool/migrator/RecruitoolMigrator.java:406-422 | the AVAILABILITY insert appends one row |
| TargetStore.TargetDb.InsertCompetence | src/recruitool/migrator/RecruitoolMigrator.java:428-437 | the COMPETENCE insert appends one row |
| TargetStore.TargetDb.InsertProfile | src/recruitool/migrator/RecruitoolMigrator.java:443-460 | the COMPETENCEPROFILE insert appends one row |
| Migration.OneAccountRowPerLegacyAccount | src/recruitool/migrator/RecruitoolMigrator.java:281-296 | the account pass writes as many ACCOUNT rows as there are legacy accounts. Each legacy account has exactly one row copying its fields, with its role looked up by id (NULL when unknown) |
| Migration.ResolvesToStable | src/recruitool/migrator/RecruitoolMigrator.java:413-420 | a migrated dependent row keeps pointing at its owner's application while later applications are created |
| Migration.AvailabilitiesShareApplication | src/recruitool/migrator/RecruitoolMigrator.java:411-418 | two AVAILABILITY rows whose legacy owners share an SSN carry the same APPL_ID. That application is the only one of their account |
| Migration.ProfilesShareApplication | src/recruitool/migrator/RecruitoolMigrator.java:448-458 | two COMPETENCEPROFILE rows whose legacy owners share an SSN carry the same APPL_ID. That application is the only one of their account |
| Migration.PassesShareApplication | src/recruitool/migrator/RecruitoolMigrator.java:411-418 | an AVAILABILITY row and a COMPETENCEPROFILE row whose legacy owners share an SSN carry the same APPL_ID, so a person's availabilities and competences end up on one application |
| Migration.SameOwnerSameApplication | src/recruitool/migrator/RecruitoolMigrator.java:450-458 | two dependent rows whose owners share an SSN point at the same application. That application is the account's only one |
| Migration.AvailabilitiesMigratedStable | src/recruitool/migrator/RecruitoolMigrator.java:411-422 | later application inserts keep every migrated availability attached where it was |
| Migration.ProfilesMigratedStable | src/recruitool/migrator/RecruitoolMigrator.java:448-460 | later application inserts keep every migrated profile attached where it was |
| Migration.OwnerAccountIdsMeaning | src/recruitool/migrator/RecruitoolMigrator.java:413-415 | an account id is among the accounts of a list of legacy owners iff one of those owners resolves to it, through its SSN, to that ACCOUNT row |
| Migration.OwnerAccountIdsConcat | src/recruitool/migrator/RecruitoolMigrator.java:410-415 | the accounts of two lists of owners, one after the other, are those of the first list, then those of the second |
| Migration.CreatedForOwnersStep | src/recruitool/migrator/RecruitoolMigrator.java:382-403 | get-or-create for a resolved owner's account adds at most an application of that account |
| Migration.CreatedForOwnersConcat | src/recruitool/migrator/RecruitoolMigrator.java:360-364 | the applications two passes in a row create belong to the owners of the one or of the other |
| Migration.CreatedApplicationsTrans | src/recruitool/migrator/RecruitoolMigrator.java:360-364 | when two passes in a row each only append SUBMITTED applications stamped with the run's time, so do both together |
| Migration.AvailabilityPassSucceedsIff | src/recruitool/migrator/RecruitoolMigrator.java:410-415 | the availability pass completes iff every visited record's owner resolves to an ACCOUNT row |
| Migration.ProfilePassSucceedsIff | src/recruitool/migrator/RecruitoolMigrator.java:447-450 | the profile pass completes iff every visited profile's owner resolves to an ACCOUNT row |
| Migration.ApplicationPassesCompose | src/recruitool/migrator/RecruitoolMigrator.java:360-364 | from the availability pass and, when it completed, the profile pass: the application passes complete iff both sets of owners resolve. Their new applications belong to the owners of the migrated availabilities, then those of the migrated profiles |
| Migration.RunCompose | src/recruitool/migrator/RecruitoolMigrator.java:104-122 | from the account pass and, when it completed, the application passes: a run completes iff every role is known and every owner resolves. A missing role leaves APPLICATION and the dependent tables unchanged, and GROUPS stops at the first account without a role. Otherwise groups are derived for every account, and the application passes ran |
| Migration.LoadReportAsWritten | src/recruitool/migrator/RecruitoolMigrator.java:124-139 | roles, accounts, availabilities and competences are reported as the sizes of their maps. The profile line reports the number of competences |
| Migration.PrintedReportCorrectIff | src/recruitool/migrator/RecruitoolMigrator.java:134-138 | the printed counts equal the intended ones exactly when there are as many competences as competence profiles |
| Migration.ProfileCountMisreported | src/recruitool/migrator/RecruitoolMigrator.java:138 | with one competence and no profile, the printed profile count is 1 |
| Migration.LoadReportOf | src/recruitool/migrator/RecruitoolMigrator.java:124-139 | each reported count is the size of the map its line names |
| Migration.RecruitoolMigrator.constructor | src/recruitool/migrator/RecruitoolMigrator.java:94-102 | the migrator starts with five empty maps, the target store and the run's time stamp |
| Migration.RecruitoolMigrator.LoadRoles | src/recruitool/migrator/RecruitoolMigrator.java:141-158 | the role map becomes the old map updated with one `put(id, NormalizeRole(name))` per row, in row order |
| Migration.RecruitoolMigrator.LoadAccounts | src/recruitool/migrator/RecruitoolMigrator.java:160-202 | the account map becomes the old map updated with one `put` of the hashed legacy account per person row, in row order |
| Migration.RecruitoolMigrator.LoadAvailabilities | src/recruitool/migrator/RecruitoolMigrator.java:204-230 | the availability map is updated with one `put` per row, keyed by availability id |
| Migration.RecruitoolMigrator.LoadCompetences | src/recruitool/migrator/RecruitoolMigrator.java:232-245 | the competence map is updated with one `put(id, name)` per row |
| Migration.RecruitoolMigrator.LoadCompetenceProfiles | src/recruitool/migrator/RecruitoolMigrator.java:247-273 | the profile map is updated with one `put` per row, keyed by profile id |
| Migration.RecruitoolMigrator.LoadLegacyTables | src/recruitool/migrator/RecruitoolMigrator.java:124-139 | the five loads run in order. The report holds the counts as printed: each line gives the size of its map, except the profile line, which repeats the competence count |
| Migration.RecruitoolMigrator.MigrateAccounts | src/recruitool/migrator/RecruitoolMigrator.java:275-301 | ACCOUNT grows by one row per visited legacy account, with consecutive fresh ids. Then the group pass runs over the whole ACCOUNT table |
| Migration.RecruitoolMigrator.MigrateAccountGroups | src/recruitool/migrator/RecruitoolMigrator.java:330-358 | the group pass succeeds iff no account has a NULL role, and then appends exactly the derived group rows. Otherwise it fails with NullRole at the first such account, after the rows for the accounts before it |
| Migration.RecruitoolMigrator.GetMigratedAccount | src/recruitool/migrator/RecruitoolMigrator.java:302-329 | the result is an ACCOUNT row with the given, non-NULL SSN. It fails (NoAccountWithSsn) iff the SSN is NULL or no row has it |
| Migration.RecruitoolMigrator.GetMigratedApplication | src/recruitool/migrator/RecruitoolMigrator.java:382-403 | the new APPLICATION table, the counter and the returned row are exactly those of get-or-create |
| Migration.RecruitoolMigrator.CreateMigratedApplication | src/recruitool/migrator/RecruitoolMigrator.java:366-381 | one `SUBMITTED` row stamped with the run's time is appended, and the row returned is the one a select for the account then finds |
| Migration.RecruitoolMigrator.MigrateAvailabilities | src/recruitool/migrator/RecruitoolMigrator.java:405-425 | the pass writes one AVAILABILITY row per visited record, in order, copying its dates and pointing at its owner's application. It creates only SUBMITTED applications and keeps one application per account. It stops at the first record whose owner cannot be resolved, reporting why. It completes iff every visited record's owner resolves to an ACCOUNT row, and every application it creates belongs to the account of a record it migrated |
| Migration.RecruitoolMigrator.MigrateCompetences | src/recruitool/migrator/RecruitoolMigrator.java:427-440 | COMPETENCE grows by the visited competence names, in order |
| Migration.RecruitoolMigrator.MigrateCompetenceProfiles | src/recruitool/migrator/RecruitoolMigrator.java:442-463 | the pass writes one COMPETENCEPROFILE row per visited record, copying its years and naming its competence (NULL for an unknown id). Each row points at its owner's application, with the same invariants and failure rule as the availability pass. It completes iff every visited profile's owner resolves, and every application it creates belongs to the account of a profile it migrated |
| Migration.RecruitoolMigrator.MigrateApplications | src/recruitool/migrator/RecruitoolMigrator.java:360-364 | availabilities, then competences, then profiles. The passes complete iff every availability's owner and every profile's owner resolves to an ACCOUNT row. When the availability pass fails, COMPETENCE and COMPETENCEPROFILE are not written. On success all three are migrated as above. At most one application per account holds throughout, and every application created belongs to the account of an availability or profile that was migrated |
| Migration.RecruitoolMigrator.MigrateTables | src/recruitool/migrator/RecruitoolMigrator.java:117-118 | the account pass, then the application passes. ACCOUNT gets one row per visited legacy account. The outcome is `Done` iff every role is known and every owner resolves. A missing role leaves APPLICATION and the dependent tables unchanged. Otherwise groups are derived for every account and the application passes ran, creating applications only for the owners of migrated records |
| Migration.Migrate | src/recruitool/migrator/RecruitoolMigrator.java:104-122 | one run: the report is the printed one, and ACCOUNT gets one row per person. The run completes iff every account's role is known and every availability's and profile's owner resolves. A missing role stops the group pass at the first such account, and nothing after it is written. Every application created belongs to the account of a migrated dependent record. On success, groups, availabilities, competences and profiles are all migrated. AVAILABILITY, COMPETENCE and COMPETENCEPROFILE each grow by the size of the map loaded for them, which is the intended count and not the printed profile count |
| ScriptSplitter.StatementsAfterSegment | src/recruitool/migrator/RecruitoolMigrator.java:474-483 | text without `;` followed by a `;` is the first statement; the remaining statements and the trailing text are those of the rest |
| ScriptSplitter.StatementsHaveNoSemicolon | src/recruitool/migrator/RecruitoolMigrator.java:474-486 | no statement contains `;` |
| ScriptSplitter.TrailingHasNoSemicolon | src/recruitool/migrator/RecruitoolMigrator.java:472-488 | the text after the last `;` contains no `;` |
| ScriptSplitter.StatementsRebuild | src/recruitool/migrator/RecruitoolMigrator.java:469-488 | the script is exactly its statements in order, each followed by its `;`, then the trailing text, which is never executed |
| ScriptSplitter.SplitUnique | src/recruitool/migrator/RecruitoolMigrator.java:469-488 | any way of writing the script as `;`-free statements, each with its `;`, then `;`-free trailing text, is its statements and trailing text: the split is unique |
| ScriptSplitter.StatementsCount | src/recruitool/migrator/RecruitoolMigrator.java:474-483 | there are exactly as many statements as `;` characters |
| ScriptSplitter.ParseLegacySqlScript | src/recruitool/migrator/RecruitoolMigrator.java:465-489 | every statement of the script is executed, in order, whether or not earlier ones failed. The failure log is exactly the rejected statements, in order. Each statement is judged after all the statements before it have run |
| ScriptSplitter.RejectedAreExecuted | src/recruitool/migrator/RecruitoolMigrator.java:475-484 | the failure log holds only executed statements, and never more than were executed |

## Left out

- The command-line and Swing front end (`main`, the file chooser and the message dialogs) is not modelled. Nor is the log of printed messages beyond the load counts.
- Connections are not modelled: opening the scratch and target databases, the commit and the close. A run that fails is not rolled back in the model; the tables keep what was written before the failure.
- SQL and JDBC are replaced by the in-memory tables. Only the selects and inserts the migrator issues are modelled.
- Target-schema constraints are left out: NOT NULL, UNIQUE, foreign keys, column widths, and the errors an insert would raise for them.
- Whether a statement of the dump is accepted by the scratch database is a parameter `accepts` of `ParseLegacySqlScript`. It is given the statements executed before, so a verdict may depend on their effects, such as a table an earlier statement created. The statements' effects on the legacy tables are not modelled; the load methods receive the legacy rows as parameters.
- Reading the file as UTF-8 is not modelled; the script is the decoded character sequence.
- `Crypto.simpleHash` is not part of this model; it is the parameter `hash`.
- Legacy.ToUpper: models Java's `toUpperCase` for the ASCII letters only; other characters are left unchanged. This matches Java in a locale without special casing rules (not tr/az).
- Role names are assumed to be non-NULL, as the code calls `toUpperCase` on them without a check.
- A NULL `role_id` or `person_id` column is read by `getLong` as 0. In the rows the loads receive, that column holds the id 0.
- Java `long` ids and the identity counters are unbounded integers: no overflow.
- `Date`, `BigDecimal` and `Timestamp` values are opaque: they are only copied.
- The classes `LegacyAccount`, `LegacyAvailability`, `LegacyCompetenceProfile`, `MigratedAccount` and `MigratedApplication` are not part of this model. Their fields are taken from how the migrator uses them.
- HashMap iteration order is a parameter (`order`), not the JDK's hash order.
- A profile whose competence id was never loaded gets a NULL COMP_ID; the code does not stop there. An account whose role id is unknown gets a NULL ACC_ROLE, and the run then fails in the group pass (`NullRole`, the `NullPointerException` of `groupName.equals`).
- A dependent row whose owner id was never loaded ends the run with `UnknownOwner` (the `NullPointerException` of `acc.ssn`). An SSN found in no ACCOUNT row ends it with `NoAccountWithSsn` (the `SQLException` of reading a row that is not there).
- A `select` without `ORDER BY` is taken to return rows in insertion order. This fixes the first row `SelectAccountBySsn` finds, the order of the GROUPS rows, and which rows come before the account with a NULL role. SQL does not promise this order.
- Identity columns are taken to hand out consecutive values from the counter (`nextAccountId`, `nextApplicationId`). The database only promises distinct, increasing values.
- The group pass reads the whole ACCOUNT table, including rows that were there before the run, as the code does.

## Findings

| source | as written | input that shows it | evidently intended | confidence | as-written member | corrected member |
|---|---|---|---|---|---|---|
| src/recruitool/migrator/RecruitoolMigrator.java:138 | the "competence profiles loaded" line prints `competences.size()`; `LoadReportAsWritten` is this report, and `LoadLegacyTables` and `Migrate` return it | one competence and no competence profile: it prints 1 profile | print `oldProfiles.size()`; `LoadReportOf` is this report, and the table growth `Migrate` proves is stated with it | high; not executed | Migration.ProfileCountMisreported | Migration.LoadReportOf |
