# Session registry and request rules of a clinical-workflow API

This project models, in Dafny, the core of a Laravel back end. The back end
serves patients, their cases and tasks, surveys and users. A second small
application manages persons enriched from outside data providers. The
model is built around the **bearer-session registry**, which is the
`tokens` table shared by two pieces of code:

- Login (`AuthController::postLogin`) checks the credentials and the
  account's active flag. It then looks at the user's current session:
  - if that session was opened from another device, it is marked
    "used in other device";
  - if the session's token cannot be decoded, the session is dropped.
  
  Login then deletes the user's rows that are not marked "used in other
  device" and inserts a row for the new token.
- The request middleware (`AuthJWT::handle`) runs on every later request.
  It refuses a revoked session, giving each revocation reason its own
  message. Otherwise it verifies the token *stored* in the row and applies
  the user's own session-length override. Finally it rotates the stored
  token in place.

Around the registry, the model covers these request rules, each in the
module named after it:

- **SearchBy**: the `search_by` resolver.
- **FilterInput**: the filter parser that decides which joins and
  conditions a listing query gets.
- **LikeSearch**: keyword search through `LIKE '%word%'`.
- **Patients** and **PatientsV2**: patient access, soft deletion, patches,
  the `id_code` generator and the group filter of the patient listing.
- **UserRules**: the phone-format, country, sort-column, profile and
  password rules of the user controller.
- **UserModel**: role and permission checks, the public contact card and
  picture serialisation.
- **Tasks**: due-date propagation through a tree of task schedules.
- **Surveys**: the survey listing, tag filtering and tag merging.
- **Persons**, **PersonScope** and **PersonPolicy**: the person model's
  provider fallback, the visibility scope and the authorisation policy.
- **Observers**: the role and affiliate observers.
- **RequestStatistics**: the request-statistics counter.
- **ValidationMessage**: the validation exception's message.
- **PasswordReset**: the password-reset message.

Operations that change state in the source are methods of classes that
hold the table as a sequence or map. Each method is proved equal to a
specification function of the old state. The promised properties are
lemmas about those functions. Pure helpers are functions with their own
contracts.

## Model

| member | source | states |
|---|---|---|
| Sessions.ReasonCode | project1/app/Http/Middleware/AuthJWT.php:22-32 | The four logout reasons map to codes 0..3; 0 is the active session, 1 "used in other device" |
| Sessions.LoginStatus | project1/app/Http/Controllers/Auth/AuthController.php:44-55 | Bad credentials answer 403 and a deactivated account 401 |
| Sessions.AuthStatus | project1/app/Http/Middleware/AuthJWT.php:22-64 | "Session is Invalid" and "Forbidden" are 403; every other refusal (revoked, expired) is 401 |
| Sessions.DistinctRowsDistinctRefresh | project1/app/Http/Controllers/Auth/AuthController.php:68 | In a table that satisfies the invariant, no two rows share a stored token, so marking by stored token hits one session |
| Sessions.FirstActive | project1/app/Http/Controllers/Auth/AuthController.php:60 | The user's current session is an active row of the user, and none is found only when the user has no active row |
| Sessions.Lookup | project1/app/Http/Middleware/AuthJWT.php:20 | The row found carries the presented token, and nothing is found only when no row has it or no token was sent |
| Sessions.LookupFindsRow | project1/app/Http/Middleware/AuthJWT.php:20 | Under the invariant, looking up a row's token finds exactly that row |
| Sessions.SetRefresh | project1/app/Http/Middleware/AuthJWT.php:53-55 | The rotation changes only the stored token of the presented row; token id, user and reason stay, other rows stay |
| Sessions.FailureError | project1/app/Http/Middleware/AuthJWT.php:56-63 | An invalid token gives "Session is Invalid" (403), an expired one the expiry message (401), any other failure "Forbidden" (403), and nothing else |
| Sessions.StoredTokenFailureRefused | project1/app/Http/Middleware/AuthJWT.php:34-63 | An active session whose stored token fails verification is refused: invalid with 403 "Session is Invalid", expired with 401 and the expiry message, otherwise 403 "Forbidden" |
| Sessions.RevokedError | project1/app/Http/Middleware/AuthJWT.php:22-32 | Every revoked reason is refused with 401 |
| Sessions.AuthDecision | project1/app/Http/Middleware/AuthJWT.php:17-64 | A request passes only with a token that has a stored row |
| Sessions.TokenTable.Login | project1/app/Http/Controllers/Auth/AuthController.php:33-82 | Bad credentials and a deactivated account change nothing; a successful login leaves the table its login function gives and keeps the invariant when the issued token is new |
| Sessions.TokenTable.Authenticate | project1/app/Http/Middleware/AuthJWT.php:15-66 | The outcome is the middleware's decision; a pass rotates the stored token of the presented row, a refusal changes nothing, and the invariant is kept |
| Sessions.CheckOldSessionKeepsInvariant | project1/app/Http/Controllers/Auth/AuthController.php:60-73 | Marking or dropping the current session keeps the table invariant |
| Sessions.LoginKeepsInvariant | project1/app/Http/Controllers/Auth/AuthController.php:60-79 | A login that issues a new token keeps the table invariant |
| Sessions.LoginWithoutTakeover | project1/app/Http/Controllers/Auth/AuthController.php:60-79 | Without a device change, the user's rows after login are exactly the earlier superseded ones followed by the new active row |
| Sessions.LoginWithTakeover | project1/app/Http/Controllers/Auth/AuthController.php:60-79 | After a login from another device, the user's rows are the superseded ones (the old session now among them) followed by the new active row |
| Sessions.LoginSameDeviceClosesSession | project1/app/Http/Controllers/Auth/AuthController.php:67-75 | A login from the device of the current session deletes that session |
| Sessions.LoginMarksTakenOverSession | project1/app/Http/Controllers/Auth/AuthController.php:67-75 | A login from another device keeps the current session, marked "used in other device" |
| Sessions.LoginKeepsOtherUsers | project1/app/Http/Controllers/Auth/AuthController.php:60-79 | Login leaves every other user's rows as they were |
| Sessions.MarkingKeepsOtherUsers | project1/app/Http/Controllers/Auth/AuthController.php:68 | Marking one user's session by its stored token leaves other users' rows unchanged |
| Sessions.RotationKeepsInvariant | project1/app/Http/Middleware/AuthJWT.php:53-55 | Rotating to a new token keeps the table invariant |
| Sessions.RevokedSessionRefused | project1/app/Http/Middleware/AuthJWT.php:22-35 | A revoked session is refused with its own reason, whatever the token verification would say |
| Sessions.DecisionUsesStoredToken | project1/app/Http/Middleware/AuthJWT.php:35-38 | Only the stored token is verified: two codecs that agree on it decide alike |
| Sessions.UnknownTokenForbidden | project1/app/Http/Middleware/AuthJWT.php:20-62 | A missing or unknown token is refused as Forbidden |
| Sessions.OverrideDecides | project1/app/Http/Middleware/AuthJWT.php:42-51 | For a valid stored token of an active session, the request is refused as expired exactly when the per-user window has passed |
| Sessions.SupersededTokenRefused | project1/app/Http/Middleware/AuthJWT.php:22-24 | After a takeover the old session's token is refused as "used in other device" |
| Sessions.IssuedTokenAuthenticates | project1/app/Http/Controllers/Auth/AuthController.php:77-81 | The token a login returns passes the middleware, unless the codec refuses it or the window has passed |
| Sessions.NextRequestUsesRotatedToken | project1/app/Http/Middleware/AuthJWT.php:37-55 | After a pass, the row found for the same token id stores the rotated token |
| PasswordReset.NewPassword | project1/app/Http/Controllers/Auth/AuthController.php:116-127 | The new password is a capital, a small letter, a four-digit number 1000..9999 and two small letters, taken from the draws |
| PasswordReset.Put | project1/app/Http/Controllers/Auth/AuthController.php:144-148 | Setting a variable sets its value, changes no other, keeps an existing key's place and appends a new key |
| PasswordReset.FillKeys | project1/app/Http/Controllers/Auth/AuthController.php:143 | Every declared name maps to "", nothing else is present, and no key repeats |
| PasswordReset.TemplateVariables | project1/app/Http/Controllers/Auth/AuthController.php:143-148 | The five placeholders hold the user's values and the password; every other declared name is ""; nothing else is present; no key repeats; the keys are the declared names in first-declaration order, then the undeclared placeholders in assignment order |
| PasswordReset.TableValues | project1/app/Http/Controllers/Auth/AuthController.php:143-148 | After the five assignments each placeholder holds its value, other declared names hold "", and no other key is present |
| PasswordReset.TableKeys | project1/app/Http/Controllers/Auth/AuthController.php:143-148 | After the five assignments the keys run in declaration order, followed by the placeholders the template does not declare, in assignment order |
| PasswordReset.KeyStep | project1/app/Http/Controllers/Auth/AuthController.php:144-148 | Assigning a placeholder appends it to the keys exactly when the template does not declare it |
| PasswordReset.PlaceholdersDistinct | project1/app/Http/Controllers/Auth/AuthController.php:144-148 | The five placeholder names are pairwise distinct, so no assignment overwrites another |
| PasswordReset.PutFresh | project1/app/Http/Controllers/Auth/AuthController.php:144-148 | Setting a variable keeps keys distinct, sets its value and changes no other |
| PasswordReset.ReplaceAllWithoutOccurrence | project1/app/Http/Controllers/Auth/AuthController.php:150-151 | Text without the placeholder is left unchanged |
| PasswordReset.ReplaceAllLeadingKey | project1/app/Http/Controllers/Auth/AuthController.php:150-151 | A placeholder at the start is replaced by its value and the rest is processed on its own |
| PasswordReset.ReplaceAllCopiesPrefix | project1/app/Http/Controllers/Auth/AuthController.php:150-151 | A prefix holding no occurrence of the placeholder is copied unchanged |
| PasswordReset.Accounts.Reset | project1/app/Http/Controllers/Auth/AuthController.php:112-158 | A password of the reset shape is drawn, its hash replaces the user's stored password and no other, and the message's table carries the password itself |
| PasswordReset.RenderResetMail | project1/app/Http/Controllers/Auth/AuthController.php:140-158 | Body and subject are both substituted, key by key in table order, with the same variable table, which holds the user's values, the new password and "" for other declared names, in declaration-then-assignment key order |
| LikeSearch.SearchPatterns | project1/app/Http/Controllers/PatientController.php:208-219 | A falsy search adds no condition; otherwise there is one pattern per trimmed word, each the word with only `%` and `_` escaped, between `%` |
| LikeSearch.CorrectedSearchPatterns | project1/app/Http/Controllers/PatientController.php:208-219 | The same, with the backslash escaped as well |
| LikeSearch.EscapedTokens | project1/app/Http/Controllers/PatientController.php:215 | An escaped word is read back by LIKE as its own characters, each literal |
| LikeSearch.PatternMatchesIffContains | project1/app/Http/Controllers/PatientController.php:215 | With the backslash escaped too, a word's pattern matches a value exactly when the word occurs in it |
| LikeSearch.SearchMeaning | project1/app/Http/Controllers/PatientController.php:208-219 | When no word holds a backslash, a row passes the search as written exactly when every word occurs in some searched field |
| LikeSearch.CorrectedSearchMeaning | project1/app/Http/Controllers/PatientController.php:208-219 | With the corrected patterns, a row passes exactly when every word occurs in some searched field, whatever the words |
| LikeSearch.EmptyWordMatchesAnything | project1/app/Http/Controllers/PatientController.php:209 | The empty word left by a doubled space matches every value |
| LikeSearch.BackslashWordMismatch | project1/app/Http/Controllers/PatientController.php:215 | As written, the word "\" matches "50%" and does not match "\" |
| LikeSearch.WrittenPatternAgreesWithoutBackslash | project1/app/Http/Controllers/PatientController.php:215 | For words without a backslash the written and the corrected patterns coincide |
| SearchBy.Parts | project1/app/Services/SearchByParser.php:39-43 | A falsy input is replaced by the default; the parts are its trimmed comma-separated pieces |
| SearchBy.SearchByParser.SearchByToFields | project1/app/Services/SearchByParser.php:37-64 | The parser's answer is the specification function of its configuration and input |
| SearchBy.SearchByParser.Resolve | project1/app/Services/SearchByParser.php:44-61 | The loop over the parts computes the reference resolution |
| SearchBy.AppendFields | project1/app/Services/SearchByParser.php:56-60 | The inner loop appends each field not yet collected |
| SearchBy.DedupMembers | project1/app/Services/SearchByParser.php:56-60 | De-duplication keeps every element and repeats none |
| SearchBy.DedupFirstOccurrenceOrder | project1/app/Services/SearchByParser.php:56-60 | De-duplication keeps first-occurrence order |
| SearchBy.AppendNewIsDedup | project1/app/Services/SearchByParser.php:56-60 | Appending new fields to a de-duplicated list de-duplicates the concatenation |
| SearchBy.ResolveIsDedupOfExpansions | project1/app/Services/SearchByParser.php:45-61 | With every part known, the result is the de-duplicated concatenation of the parts' expansions |
| SearchBy.ResolveReportsError | project1/app/Services/SearchByParser.php:52-54 | An unknown part aborts with its "Incorrect field" message |
| SearchBy.SearchByFieldsMeaning | project1/app/Services/SearchByParser.php:37-64 | The result is distinct columns, each from some part's expansion, all expanded columns present, in first-occurrence order; or the first unknown part's error |
| SearchBy.FirstUnknownPartReported | project1/app/Services/SearchByParser.php:45-54 | The first unknown part is the one reported, whatever follows it |
| SearchBy.RepeatedPartChangesNothing | project1/app/Services/SearchByParser.php:45-61 | Naming a part again does not change the result |
| SearchBy.PaddingIgnored | project1/app/Services/SearchByParser.php:43 | Whitespace around the parts does not change the result |
| SearchBy.PatientSearch | project1/app/Http/Controllers/PatientController.php:85-113 | The patient configuration is well formed and its default key stands for all basic columns |
| SearchBy.UserSearch | project1/app/Http/Controllers/UserController.php:120-137 | The user configuration is well formed and its default key stands for all basic columns |
| SearchBy.SurveySearch | project1/app/Http/Controllers/SurveyController.php:48-67 | The survey configuration is well formed and its default key stands for all basic columns |
| FilterInput.FilterInputParser.ReadFields | project1/app/Services/FilterInputParser.php:58-83 | The constructor loop stores the parsed value of every argument it reads |
| FilterInput.FilterInputParser.ReadField | project1/app/Services/FilterInputParser.php:64-81 | One iteration stores the argument's parsed value |
| FilterInput.ParseField | project1/app/Services/FilterInputParser.php:64-81 | A comma-separated argument is always a list; any other is unset exactly when absent |
| FilterInput.ParseNamesMeaning | project1/app/Services/FilterInputParser.php:64-82 | Reading a list of names sets exactly those names, each to its parsed value |
| FilterInput.FilterInputParser.TaskTableFilters | project1/app/Services/FilterInputParser.php:108-123 | The closure's tasks-table conditions are the reference ones |
| FilterInput.FilterInputParser.CaseTableFilters | project1/app/Services/FilterInputParser.php:125-142 | The closure's cases-table conditions are the reference ones |
| FilterInput.FilterInputParser.ModifyQuery | project1/app/Services/FilterInputParser.php:96-154 | One condition group is added, built from the given tables, even when it is empty (Laravel drops an empty nested group; the SQL is the same); joins and grouping are untouched |
| FilterInput.FilterInputParser.TaskJoinFilters | project1/app/Services/FilterInputParser.php:185-205 | The sub-select's conditions are the reference ones |
| FilterInput.FilterInputParser.ModifyQueryWithManyTasks | project1/app/Services/FilterInputParser.php:167-220 | The join is added and true returned exactly when the due date (if asked for), assignee, assignor or survey status filter is present |
| FilterInput.FilterInputParser.ModifyTasksQuery | project1/app/Services/FilterInputParser.php:226-260 | The tasks query gets exactly the reference joins |
| FilterInput.FilterInputParser.AddTaskJoins | project1/app/Services/FilterInputParser.php:228-241 | The joins added are the reference joins of the tasks query |
| FilterInput.FilterInputParser.TaskDates | project1/app/Services/FilterInputParser.php:245-256 | The due-date conditions are the reference ones, in filter order |
| FilterInput.FilterInputParser.ModifyDetailsTasksQuery | project1/app/Services/FilterInputParser.php:266-290 | One condition group over tasks, cases and treatment paths is added, with the case dates and, when truthy, the task due date; joins and grouping are untouched |
| FilterInput.FilterInputParser.ModifyDetailsCasesQuery | project1/app/Services/FilterInputParser.php:296-324 | The first-task join is added exactly when a task filter is present, and then the cases must have a matching task and are grouped by id |
| FilterInput.FilterInputParser.ModifyCpCasesQuery | project1/app/Services/FilterInputParser.php:329-356 | As the case details, but without the grouping |
| FilterInput.AllNamesRead | project1/app/Services/FilterInputParser.php:16-31 | Every recognised argument is one the constructor reads |
| FilterInput.ParsedFieldsComplete | project1/app/Services/FilterInputParser.php:64-82 | After construction every argument is set: lists default to [], the others hold the raw value or false |
| FilterInput.EmptyListArgumentCounts | project1/app/Services/FilterInputParser.php:67-70 | A list argument supplied as "" parses to [""], which counts as a filter |
| FilterInput.ListItemsTrimmed | project1/app/Services/FilterInputParser.php:69 | Each list item is a trimmed comma-separated piece of the input |
| FilterInput.ZeroIsSetButNotTruthy | project1/app/Services/FilterInputParser.php:115 | "0" is a value for the status and date-range filters but not for the due date |
| FilterInput.TaskJoinUsesIntegers | project1/app/Services/FilterInputParser.php:193-204 | Every id list and status in the sub-select is the `intval` of the input |
| Common.IntValOfDecimal | project1/app/Http/Controllers/PatientController.php:138 | `intval` reads back every number written in decimal |
| Common.IntValLeadingControl | project1/app/Http/Controllers/PatientController.php:138 | `intval` skips a leading form feed that `trim` leaves, and stops at a leading NUL |
| FilterInput.IdList | project1/app/Services/FilterInputParser.php:194 | The text spliced into the sub-select is the ids' `intval` literals joined by ", " and holds only digits, minus signs, commas and spaces |
| FilterInput.TasksQueryJoinDecision | project1/app/Services/FilterInputParser.php:228-241 | Cases are joined exactly when a case-level filter is present, treatment paths exactly when cp is |
| FilterInput.TableBlocksStayOnTheirTable | project1/app/Services/FilterInputParser.php:108-142 | Each table's conditions name only that table |
| FilterInput.TasksQueryHasNoDanglingAlias | project1/app/Services/FilterInputParser.php:226-257 | Every column of the tasks query's filters belongs to tasks or a joined alias |
| FilterInput.CaseBlockHasNoCaseIdColumn | project1/app/Services/FilterInputParser.php:125-142 | The cases block never compares `case_id` |
| FilterInput.TaskBlockCaseId | project1/app/Services/FilterInputParser.php:118-122 | The tasks block compares `case_id` exactly when no cases table is given |
| FilterInput.CaseIdRouting | project1/app/Services/FilterInputParser.php:118-141 | caseid filters the tasks' `case_id` without a cases table and the cases' `id` with one |
| Patients.FindIn | project1/app/Http/Controllers/PatientController.php:63 | A patient is found exactly when it exists and is not soft-deleted |
| Patients.GetPatient | project1/app/Http/Controllers/PatientController.php:59-76 | A success returns the found patient with 200 |
| Patients.GetPatientAccess | project1/app/Http/Controllers/PatientController.php:59-76 | A patient is returned exactly when it exists and the caller owns it or administers a group with the owner; missing is 404, forbidden 403 |
| Patients.OwnerAlwaysAllowed | project1/app/Http/Controllers/PatientController.php:69-73 | The owner always gets the patient; a caller who administers no group gets only their own |
| Patients.DeleteOnlySetsFlag | project1/app/Http/Controllers/PatientController.php:321-342 | Deletion changes only the deleted flag of that patient, and the table changes exactly when the answer is 200 |
| Patients.DeleteTwice | project1/app/Http/Controllers/PatientController.php:325-329 | A deleted patient is gone: a second delete answers 204 and a read answers 404 |
| Patients.ActivePatientSurvivesDelete | project1/app/Http/Controllers/PatientController.php:335-337 | An active patient is never deleted |
| Patients.PatchStatus | project1/app/Http/Controllers/PatientController.php:686-694 | 404 exactly for a missing patient, 403 exactly for another user's, 200 otherwise |
| Patients.Prefix | project1/app/Http/Controllers/PatientController.php:374 | The prefix is the abbreviation's first two characters, or all of a shorter one |
| Patients.IdCodeHasShape | project1/app/Http/Controllers/PatientController.php:372-374 | A code is the prefix, then capital, digit, capital, capital |
| Patients.InsertKeepsCodesUnique | project1/app/Http/Controllers/PatientController.php:371-382 | Inserting a patient with a free code keeps codes unique |
| Patients.PatientTable.DeletePatient | project1/app/Http/Controllers/PatientController.php:321-342 | The answer and the new table are the specification's |
| Patients.PatientTable.PatchPatients | project1/app/Http/Controllers/PatientController.php:677-700 | Only the owner's rename goes through, changing first and last name only; 404 and 403 change nothing |
| Patients.PatientTable.PatchDeactivate | project1/app/Http/Controllers/PatientController.php:715-737 | Only the owner's change goes through, changing the active flag only; 404 and 403 change nothing |
| Patients.PatientTable.NewIdCode | project1/app/Http/Controllers/PatientController.php:371-375 | The do-while returns the first draw whose code no patient that is not deleted has, in the right shape |
| Patients.PatientTable.PostPatient | project1/app/Http/Controllers/PatientController.php:357-384 | Without an affiliate for the caller, 404 and nothing saved; otherwise 201 and a new active patient of the caller with a fresh, well-shaped code; unique codes stay unique |
| Patients.ParseIds | project1/app/Http/Controllers/PatientController.php:138-140 | No parsed id is 0: ids that parse to 0 are dropped |
| Patients.NoFilterMeansCaller | project1/app/Http/Controllers/PatientController.php:127-129 | Without a filter, or for a caller in no group, only the caller's id is used |
| Patients.ChosenGroupsAreAdministered | project1/app/Http/Controllers/PatientController.php:133-150 | The groups used are groups the caller administers; an empty, "all" or non-matching request falls back to all of them |
| Patients.AdminGroupIdsAreAdminRows | project1/app/Http/Controllers/PatientController.php:133-135 | Each administered group id comes from an admin membership row of the caller |
| Patients.MatchingRowsUsers | project1/app/Http/Controllers/PatientController.php:164-167 | The users taken from the matching membership rows are listed users that are members of a chosen group |
| Patients.ExplicitUserListOnlyMembers | project1/app/Http/Controllers/PatientController.php:159-173 | An explicit user list yields only listed members of the chosen groups; a list parsing to nothing yields the caller |
| Patients.AllMembersOfChosenGroups | project1/app/Http/Controllers/PatientController.php:154-157 | "all" yields exactly the members of the chosen groups |
| Patients.UndefinedExactlyWithoutGroupUserId | project1/app/Http/Controllers/PatientController.php:153-176 | The user list is undefined exactly when a filter is given, the caller is in a group and `groupuserid` is empty |
| PatientsV2.Optional | project1/Modules/APIv2/Http/Controllers/PatientController.php:67-74 | An optional column takes the request's value when it has a non-blank one, and keeps its value otherwise |
| PatientsV2.OwnerDefaultsToCaller | project1/Modules/APIv2/Http/Controllers/PatientController.php:57 | The new patient belongs to the user the request names, or to the caller when it names none; it is active and not deleted |
| PatientsV2.PatchFields | project1/Modules/APIv2/Http/Controllers/PatientController.php:114-126 | A patch overwrites names, email and birthdate, never id_code, owner or flags, and changes an optional column only when the request has it |
| PatientsV2.BlankValueKeepsColumn | project1/Modules/APIv2/Http/Controllers/PatientController.php:119-120 | A blank optional value leaves the column as it was |
| PatientsV2.PostPatient | project1/Modules/APIv2/Http/Controllers/PatientController.php:32-79 | Without an affiliate for the caller, 404 and nothing saved; otherwise 201 and the reference new patient with a fresh, well-shaped code; unique codes stay unique |
| PatientsV2.PatchPatients | project1/Modules/APIv2/Http/Controllers/PatientController.php:92-131 | 404 and 403 change nothing; otherwise the record becomes the reference patched one |
| UserRules.QuoteRun | project1/app/Http/Controllers/UserController.php:529 | On a run without letters and '#', `preg_quote` is the character-wise translation |
| UserRules.PiecesTranslate | project1/app/Http/Controllers/UserController.php:520-530 | The callback over the matches renders the character-wise translation of the format |
| UserRules.PhoneFormatToRegexp | project1/app/Http/Controllers/UserController.php:518-531 | The expression is the translation between `^` and `$` |
| UserRules.TranslateParses | project1/app/Http/Controllers/UserController.php:518-531 | Read back, the expression asks for a digit under each letter and the format's own character elsewhere |
| UserRules.PhoneFormatIsValid | project1/app/Http/Controllers/UserController.php:540-561 | An empty phone is valid; a non-empty one for an unknown country is an error |
| UserRules.PhoneFormatMeaning | project1/app/Http/Controllers/UserController.php:540-561 | For a known country a non-empty phone is valid exactly when it fits the format, or fits it followed by one newline |
| UserRules.NormalizeCountryMeaning | project1/app/Http/Controllers/UserController.php:843-851 | Every spelling of "united states" becomes "USA", any other name is kept, and normalising is idempotent |
| UserRules.UnitedStatesStateGroup | project1/app/Http/Controllers/UserController.php:711-716 | Every spelling of the United States looks up the "state_usa" list |
| UserRules.ListingSort | project1/app/Http/Controllers/UserController.php:38-64 | No sort means "id"; an accepted value is kept (position becomes position.name); any other non-blank value is refused |
| UserRules.Strpos | project1/app/Http/Controllers/UserController.php:1074 | The first index of the character, or none exactly when it does not occur |
| UserRules.OrderColumnQualification | project1/app/Http/Controllers/UserController.php:1070-1076 | A name gets the "users." prefix unless a '.' occurs after its first character |
| UserRules.ListedSort | project1/app/Http/Controllers/UserController.php:38-44 | An accepted sort is kept, except "position", which becomes "position.name" |
| UserRules.SortableHaveNoDot | project1/app/Http/Controllers/UserController.php:46-64 | No accepted sort value holds a '.' |
| UserRules.AcceptedSortsAreQualified | project1/app/Http/Controllers/UserController.php:1068-1087 | Every accepted sort orders by the full-name expression, the position's name or a column of the users table |
| UserRules.PositionOrder | project1/app/Http/Controllers/UserController.php:1074-1076 | "position.name" is used as it is |
| UserRules.UnqualifiedOrder | project1/app/Http/Controllers/UserController.php:1070-1076 | A name without '.' is full_name's expression or a users column, never the position's name |
| UserRules.StepsAccepted | project1/app/Http/Controllers/UserController.php:727-760 | A field loop succeeds exactly when the rule accepts every field |
| UserRules.StepsFirstRejection | project1/app/Http/Controllers/UserController.php:727-760 | A failed loop reports the first field the rule refuses |
| UserRules.StepsEffect | project1/app/Http/Controllers/UserController.php:727-760 | After a successful loop each visited field holds the rule's effect and the others are untouched |
| UserRules.KnownCountryRules | project1/app/Http/Controllers/UserController.php:709-745 | With a known country the patch passes exactly when the state is the country's and each phone is digits only and at most 21 long; given phones are stored, blank ones become "", absent ones kept |
| UserRules.UnknownCountryRules | project1/app/Http/Controllers/UserController.php:746-761 | Without a mailing address the patch passes exactly when every given value is falsy, and each given one becomes NULL |
| UserRules.EveryColumnUnsettable | project1/app/Http/Controllers/UserController.php:747 | State and both phones are in the clearing loop |
| UserRules.UnknownCountryAccepts | project1/app/Http/Controllers/UserController.php:747-760 | The clearing loop passes when every given value is falsy |
| UserRules.UnknownCountryRejects | project1/app/Http/Controllers/UserController.php:747-760 | A refusal of the clearing loop carries its message |
| UserRules.UnknownCountryClears | project1/app/Http/Controllers/UserController.php:747-760 | A given field becomes NULL; the others are kept |
| UserRules.SetPhones | project1/app/Http/Controllers/UserController.php:727-744 | The phone loop computes the reference field loop |
| UserRules.UnsetWithoutCountry | project1/app/Http/Controllers/UserController.php:746-761 | The clearing loop computes the reference field loop |
| UserRules.UserAccount.PatchLocation | project1/app/Http/Controllers/UserController.php:706-762 | A refusal leaves the stored row as it was; otherwise the row becomes the patched one; the password is untouched |
| UserRules.UserAccount.PostPassword | project1/app/Http/Controllers/UserController.php:994-1006 | 200 exactly for a password the rule as written accepts (a trailing newline included), which then replaces the stored hash; 422 otherwise; the location is unchanged |
| UserRules.UserAccount.PostPasswordCorrected | project1/app/Http/Controllers/UserController.php:994-1006 | With the corrected rule, 200 exactly for a password of letters and digits only, which then replaces the stored hash; 422 otherwise |
| UserRules.PasswordNewlineAccepted | project1/app/Http/Controllers/UserController.php:999 | The written rule accepts "abc\n", which is not letters and digits |
| UserRules.PasswordRuleMeaning | project1/app/Http/Controllers/UserController.php:999 | The intended rule accepts a subset of the written one, and they differ only on a trailing newline |
| UserModel.RoleIs | project1/app/User.php:99-109 | True exactly when some role has the slug |
| UserModel.Can | project1/app/User.php:121-133 | True exactly when some role holds the permission with the action strictly equal to 1 |
| UserModel.NonGrantingRoleAddsNothing | project1/app/User.php:121-133 | A role that does not grant changes nothing wherever it sits; a granting one is enough |
| UserModel.StrictOne | project1/app/User.php:126 | An action holding the string "1", true or 2 grants nothing |
| UserModel.CopyColumns | project1/app/User.php:172-188 | The named columns are copied from the user and every other key of the card is kept |
| UserModel.KeyGroupsDisjoint | project1/app/User.php:169-196 | No key belongs to two groups of the card |
| UserModel.PublicContacts | project1/app/User.php:169-196 | Each key group is present exactly when its flag is truthy, with the user's values and the first position; with no flag set the card is empty |
| UserModel.ContactColumns | project1/app/User.php:172-188 | The basic and contact groups are copied when their flags are truthy |
| UserModel.PictureValue | project1/app/User.php:140-161 | Null becomes ""; a non-empty value becomes an existing remote URL or ""; an empty non-null value stays |
| UserModel.ToArray | project1/app/User.php:135-164 | Pictures are serialised by their rule, a birthday gains its timestamp, every other attribute is kept |
| Tasks.Completed | project1/app/Task.php:98-101 | Exactly the rows with status 1, in their order |
| Tasks.IsDelegated | project1/app/Task.php:216-218 | Delegated exactly when an assignee exists and is not the creator |
| Tasks.ChildDue | project1/app/Task.php:200-207 | START_END adds the child's duration to the parent's due date; START_START first subtracts the parent's; any other type keeps what `$dueDate` held, unassigned (None) before the first task-bearing child |
| Tasks.Propagate | project1/app/Task.php:181-214 | Propagation, whether it completes or stops on an unassigned `$dueDate`, keeps the set of tasks and writes only tasks ranked below the start |
| Tasks.Children | project1/app/Task.php:195-213 | The child loop, whether it completes or stops, keeps the set of tasks and writes only tasks of the remaining children or tasks ranked below the parent |
| Tasks.PropagationStaysBelow | project1/app/Task.php:181-214 | The start task and everything ranked as high are untouched; a task without a schedule changes nothing |
| Tasks.EarlierSlotUntouched | project1/app/Task.php:195-213 | The loop from a position on never rewrites an earlier child's task |
| Tasks.StepSparesSibling | project1/app/Task.php:208-211 | In a tree, writing one child's due date and propagating below it leaves every sibling's task as it was |
| Tasks.ChildrenDueDates | project1/app/Task.php:195-213 | Each child task gets the due date its own dependency type gives it from the parent's, or keeps its old one when the loop stopped before reaching it |
| Tasks.PropagatedDueDates | project1/app/Task.php:195-213 | After propagation each START_END or START_START child of a tree has its due date unless the propagation stopped first; a child of another type without an earlier task-bearing sibling stops the call at once with nothing changed |
| Tasks.AbortAtUnassigned | project1/app/Task.php:196-208 | When the first task-bearing child is of another type, the loop stops before any save |
| Tasks.PropagationCompletes | project1/app/Task.php:181-214 | When every schedule has one of the two dependency types, propagation never stops early |
| Tasks.ChildrenComplete | project1/app/Task.php:195-213 | When every schedule has one of the two dependency types, the child loop never stops early |
| Tasks.ChildrenSkip | project1/app/Task.php:196-197 | A child without a task is skipped |
| Tasks.ChildrenStep | project1/app/Task.php:196-211 | One pass writes the child's due date and propagates from it, leaving the parent alone, and goes on only if that propagation completed; an unassigned `$dueDate` stops the loop with nothing written |
| Tasks.FirstIterationUpdate | project1/app/Task.php:187-191 | The task's own schedule loses its dependency and takes the given type; children and tasks of schedules are kept |
| Tasks.TaskBoard.ModifyDependedTaskDueDates | project1/app/Task.php:181-214 | The schedules get the first-iteration update; the due dates and whether the call stopped on an unassigned `$dueDate` are the propagation's |
| Tasks.TaskBoard.ClearDependency | project1/app/Task.php:187-191 | Only the first-iteration update is applied |
| Tasks.TaskBoard.VisitChildren | project1/app/Task.php:194-213 | The loop, left at the first stop, computes the reference child pass |
| Tasks.TaskBoard.VisitChild | project1/app/Task.php:196-212 | One iteration computes one step of the reference child pass, saving nothing when `$dueDate` is unassigned |
| Surveys.SurveyOrdering | project1/app/Http/Controllers/SurveyController.php:34-38 | No sort means "name"; "count_questions", "author" and "name" have their orders; a blank value is used as it is; any other unknown value is refused |
| Surveys.TagNames | project1/app/Http/Controllers/SurveyController.php:113 | Every name is a non-falsy trimmed piece |
| Surveys.TagNamesMeaning | project1/app/Http/Controllers/SurveyController.php:113 | The names are exactly the non-falsy trimmed comma-separated pieces |
| Surveys.MatchedTagIds | project1/app/Http/Controllers/SurveyController.php:114-118 | The ids are exactly those of tags some name selects |
| Surveys.TagFilterMeaning | project1/app/Http/Controllers/SurveyController.php:112-127 | A survey passes exactly when it carries every tag some name selects |
| Surveys.NoNamesSelectsAllTags | project1/app/Http/Controllers/SurveyController.php:112-127 | A tags value without names selects every tag |
| Surveys.CommaHasNoNames | project1/app/Http/Controllers/SurveyController.php:112-113 | "," is truthy yet has no name |
| Surveys.PlainNameSelectsContaining | project1/app/Http/Controllers/SurveyController.php:116 | A name without wildcards selects the tags whose name contains it |
| Surveys.UnderscoreStandsForComma | project1/app/Http/Controllers/SurveyController.php:116 | "a_b" selects the tag "a,b" |
| Surveys.SearchedValues | project1/app/Http/Controllers/SurveyController.php:101-106 | The values are exactly those of searched columns the survey has |
| Surveys.ListSurveys | project1/app/Http/Controllers/SurveyController.php:90-145 | An error exactly for a search with a bad search_by; otherwise exactly the surveys that pass the search as written (only `%` and `_` escaped), the tag filter and visibility (shared with the user's affiliate, or with no affiliate when the user has none, or linked to the user; not ignored), never more than given |
| Surveys.ListingMeaning | project1/app/Http/Controllers/SurveyController.php:94-145 | When no search word holds a backslash, a survey is listed exactly when every word occurs in a searched column, it carries every selected tag, and it is visible to the user and not ignored |
| Surveys.IgnoredNeverListed | project1/app/Http/Controllers/SurveyController.php:132-145 | An ignored survey is never listed |
| Surveys.NullAffiliateListing | project1/app/Http/Controllers/SurveyController.php:139-145 | For a user without an affiliate, an unlinked, unignored survey is listed exactly when no affiliate row shares it (the comparison with NULL becomes IS NULL after the left join) |
| Surveys.SearchByIgnoredWithoutSearch | project1/app/Http/Controllers/SurveyController.php:94-110 | Without a search a bad search_by is no error |
| Surveys.AddNewTagsIsFresh | project1/app/Http/Controllers/SurveyController.php:187-198 | The merge appends exactly the fresh tags |
| Surveys.FreshTagsMeaning | project1/app/Http/Controllers/SurveyController.php:187-198 | Added tags come from the new list with unseen, distinct ids, and no id is left out |
| Surveys.AddNewTagsMeaning | project1/app/Http/Controllers/SurveyController.php:187-198 | The original tags stay first, each new id is added once, and none is left out |
| Surveys.AddNewTagsAppend | project1/app/Http/Controllers/SurveyController.php:185-192 | Merging in two steps is merging the concatenation |
| Surveys.AppendNewTags | project1/app/Http/Controllers/SurveyController.php:187-192 | The inner loop computes the merge and keeps the id list in step |
| Surveys.MergeQuestionTags | project1/app/Http/Controllers/SurveyController.php:184-193 | A question gains its subquestions' tags by the merge |
| Surveys.PrepareSurvey | project1/app/Http/Controllers/SurveyController.php:176-201 | Every question gains its subquestions' tags and the survey its questions' merged tags |
| Surveys.SearchTags | project1/app/Http/Controllers/SurveyController.php:222-237 | All tags without a search, otherwise exactly those whose name is LIKE the search |
| Surveys.ShownFile | project1/app/Http/Controllers/SurveyController.php:262 | The bookkeeping columns are hidden and every other is kept |
| Surveys.GetSurvey | project1/app/Http/Controllers/SurveyController.php:249-267 | An unknown id is 404 "Survey not found"; otherwise 200 with the survey's columns, questions, subquestions and files kept in place, and every file is the original with its bookkeeping columns hidden |
| Persons.FirstSupplied | project2/Person.php:106-118 | The first provider with a non-empty value gives it; null exactly when none does |
| Persons.FirstSuppliedAppend | project2/Person.php:108-115 | A later provider is consulted only when the earlier ones supply nothing |
| Persons.AttributeFromProviders | project2/Person.php:106-118 | The loop with its break computes the first supplied value |
| Persons.ProviderColumn | project2/Person.php:122-206 | First name, last name, gender, birthday and retirement savings read the provider column of their own name; mobile phone reads `number`, profile image URL reads `profileImage`, geo-location data reads `geo_location`; any other attribute has no provider column |
| Persons.ProviderPrecedence | project2/Person.php:52-55 | FullContact wins when it supplies the value, Pipl only otherwise, "0" counts as empty |
| Persons.FullcontactColumn | project2/Person.php:134-157 | The FullContact-only columns are null without a FullContact row |
| Persons.FullcontactIgnoresPipl | project2/Person.php:134-157 | Pipl has no say in those columns |
| Persons.SummaryInfo | project2/Person.php:148-150 | The summary is the LinkedIn bio |
| Persons.FullNameInfo | project2/Person.php:176-178 | First name, a space, last name, with a missing part as "" |
| Persons.FullNameShape | project2/Person.php:176-178 | With no provider data the name is one space; the space always follows the first name |
| Persons.WithoutAddressesOf | project2/Person.php:75-79 | None of the person's addresses is left and every other is kept unchanged |
| Persons.WithoutAddressesIdempotent | project2/Person.php:75-79 | Removing the addresses twice removes nothing more |
| Persons.AddressTable.PersonDeleted | project2/Person.php:75-79 | The hook's loop leaves the table without the person's addresses |
| PersonScope.Apply | project2/PersonsAttributedToUserScope.php:14-24 | No condition for an administrator; otherwise the rows of the allowed owners |
| PersonScope.ScopeNarrows | project2/PersonsAttributedToUserScope.php:21-23 | The scope only removes rows, and a non-administrator sees a row exactly when its owner is the user or connected |
| PersonScope.OwnPersonsVisible | project2/PersonsAttributedToUserScope.php:21 | The user's own persons are always visible |
| PersonScope.ScopeIdempotent | project2/PersonsAttributedToUserScope.php:23 | Applying the scope twice is applying it once |
| PersonPolicy.BelongingMeaning | project2/PersonPolicy.php:33-35 | A person belongs to the user exactly when a connected user owns it; the user's own id does not count |
| PersonPolicy.PolicyRules | project2/PersonPolicy.php:20-88 | An administrator may do everything; otherwise create needs only its permission and view, edit and destroy need theirs and belonging |
| PersonPolicy.AllowedIsVisible | project2/PersonPolicy.php:58-88 | What the policy lets a user view, edit or destroy is visible to them through the scope |
| PersonPolicy.OwnPersonNotConnected | project2/PersonPolicy.php:33-35 | A user's own person, the user not being connected to themselves, is visible but not viewable, editable or destroyable |
| Observers.BlankGrants | project1/app/Observers/RoleObserver.php:20-31 | One row per permission, in order, of the role, with all six flags 0 |
| Observers.PermissionRoleTable.RoleCreated | project1/app/Observers/RoleObserver.php:16-32 | The loop appends exactly the blank grants of the role |
| Observers.PermissionRoleTable.RoleDeleting | project1/app/Observers/RoleObserver.php:37-40 | The table keeps exactly the rows of other roles, in order |
| Observers.RoleDeletingMeaning | project1/app/Observers/RoleObserver.php:39 | No row of the role is left and every row of another role stays |
| Observers.RoleDeletingUndoesCreated | project1/app/Observers/RoleObserver.php:16-40 | Deleting a new role restores the table |
| Observers.TemplateLinks | project1/app/Observers/AffiliateObserver.php:20-25 | One link per template, in order, each with the template and the affiliate |
| Observers.AffiliateEmailTemplateTable.AffiliateCreated | project1/app/Observers/AffiliateObserver.php:16-26 | The loop appends exactly the affiliate's links |
| Observers.AffiliateEmailTemplateTable.AffiliateDeleting | project1/app/Observers/AffiliateObserver.php:31-34 | The table keeps exactly the links of other affiliates, in order |
| Observers.AffiliateDeletingMeaning | project1/app/Observers/AffiliateObserver.php:33 | No link of the affiliate is left and every other link stays |
| Observers.AffiliateDeletingUndoesCreated | project1/app/Observers/AffiliateObserver.php:16-34 | Deleting a new affiliate restores the link table |
| RequestStatistics.OrEmpty | project1/app/Http/Middleware/RequestStatistics.php:29-30 | A missing or falsy platform or version is stored as "" |
| RequestStatistics.VersionFrom | project1/app/Http/Middleware/RequestStatistics.php:43 | The capture is empty exactly when the user agent has no match, and holds only version characters |
| RequestStatistics.LeadingVersion | project1/app/Http/Middleware/RequestStatistics.php:43-47 | A version after "project/" and before a blank is the app version |
| RequestStatistics.FindStatistic | project1/app/Http/Middleware/RequestStatistics.php:32-37 | The row found is the first with the key, and none is found only when no row has it |
| RequestStatistics.Bump | project1/app/Http/Middleware/RequestStatistics.php:39-41 | The counter of the found row goes up by one; nothing else changes |
| RequestStatistics.RecordedMeaning | project1/app/Http/Middleware/RequestStatistics.php:32-56 | A known key gains one visit and a new key has 1; at most one row is added; keys stay unique; other keys keep their visits and rows |
| RequestStatistics.RecordedExisting | project1/app/Http/Middleware/RequestStatistics.php:39-41 | For a known key no row is added and only its counter moves |
| RequestStatistics.RecordedNew | project1/app/Http/Middleware/RequestStatistics.php:45-55 | For a new key one row is appended, the key has 1 visit and the earlier rows are kept |
| RequestStatistics.StatisticsTable.Handle | project1/app/Http/Middleware/RequestStatistics.php:22-56 | The table becomes the recorded one for the request's key |
| ValidationMessage.Construct | project1/app/Exceptions/ProjectValidationHttpException.php:18-26 | Null or an empty array give a null message, a bag gives its joined text, a non-empty plain array fails; bag and code are passed on |
| ValidationMessage.EmptyInputs | project1/app/Exceptions/ProjectValidationHttpException.php:20-23 | No errors give no message; an empty bag gives the empty message |
| ValidationMessage.FirstFieldLeads | project1/app/Exceptions/ProjectValidationHttpException.php:23 | The message opens with the first field's messages, followed by a space when more fields follow |
| ValidationMessage.SingleMessagesRoundTrip | project1/app/Exceptions/ProjectValidationHttpException.php:23 | With one space-free message per field, splitting the message at spaces gives the messages back in field order |

## Left out

- Token signing, decoding, refresh and payload reading are an abstract codec: `decode` for login and `verify` for the middleware are parameters, and the refreshed and issued tokens are inputs.
- Password hashing and the credential check: login receives the matched account, if any; the reset's hash function (`bcrypt`) is a parameter.
- Mail delivery, file uploads, remote-file checks (`NetHelper`): the checked URLs are given as a set.
- The reset mail's branch without a template (AuthController.php:160-163) and the user lookup before the reset (AuthController.php:100-110).
- SQL execution: queries are lists of rows or lists of abstract conditions and joins; collation case folding in LIKE and `=` is not modelled, so comparisons are exact.
- Request validation: a 422 from `$this->validate` is not modelled; the validated inputs are preconditions.
- PatientsV2.PostPatient: the required fields are a precondition instead of the 422 validation answer.
- PatientsV2.PatchPatients: the required fields are a precondition instead of the 422 validation answer, which the source gives before the 404 and 403 checks.
- Patients.PatientTable.PostPatient: the length check of the names (1..100) is not modelled.
- Dates: Carbon conversions are parameters (the birthday timestamp function, the birthdate string); due dates are integers and "now" is a parameter.
- Randomness: the random draws of the `id_code` loop and the reset password are inputs that satisfy their ranges; the `id_code` loop is given draws among which some code is free.
- Patients.PatientTable.NewIdCode: termination rests on the given draws holding a free code; the source loops until it finds one.
- Tasks.TaskBoard.ModifyDependedTaskDueDates: the error that reading the unassigned `$dueDate` raises is the returned `aborted` flag; the error answer the framework then gives the caller is not modelled.
- Tasks.TaskBoard.ModifyDependedTaskDueDates: the schedules must form a tree (a ghost rank that decreases from parent to child); the source would recurse forever on a cycle.
- The `scopeTasksOrderBy` defect (Task.php:116) and other Task query scopes, and Patient.php's relation accessors, are not part of this model.
- `intval` saturation at the platform's integer bounds and PHP's loose comparisons beyond the cases the source relies on.
- Common.IntVal: a digit run followed by a fraction or an exponent ("1e3", "1.5e3") is read by PHP 7.1 and later as a float and then truncated; the model reads only the leading digits ("1e3" is 1), because floating point is not modelled.
- LikeSearch.SearchPatterns: the patterns are those the source sends; their meaning is stated only for words without a backslash (see Findings).
- LikeSearch.SearchMeaning: states the meaning of the search only when no word holds a backslash; on such a word the written pattern misreads the backslash as an escape (see Findings).
- Surveys.ListSurveys: the search condition is the pattern as written; what it means is stated only for backslash-free words.
- Surveys.ListingMeaning: holds only when no search word holds a backslash; a word with one is matched by the written pattern, whose meaning LikeSearch.BackslashWordMismatch shows to differ.
- Surveys.GetSurvey: `orderQuestions` is not modelled; the questions come back in the order given.
- The session table has no locking in the source and is modelled sequentially.
- The deleted scope of patients is modelled only as the `is_deleted` flag hiding a patient from `find`.
- The survey listing's pagination, offset, ordering and the question count; the order of listed rows is the table order. Sort direction is not checked by the source and is not modelled.
- Surveys.PrepareSurvey: the merged tag lists are returned rather than written into the loaded survey and question objects.
- `Permission::canCRUD`, `Company::userIdListConnectedWithMyCompanies` and the `dictionaries` and mailing-address lookups are inputs.
- The Pipl and FullContact fetch (`fillAdditionalDataFromInfoProviders`) and the User-Agent library: their outputs are inputs.
- Persons.AddressTable.PersonDeleted: the loaded `addresses` relation is given as the list of the person's address ids.
- RequestStatistics.StatisticsTable.Handle: the next handler is not modelled; database ids of new rows are not modelled.
- The previous exception and the headers of the validation exception are passed to the parent untouched and are not modelled.
- `TextHelper::t` is taken to be the identity on messages.
- `User::sendContactToSupport` and the rest of UserController (profile pictures, `putMe`, role and permission CRUD) are not part of this model.

## Findings

| source | as written | input that shows it | evidently intended | confidence | as-written member | corrected member |
|---|---|---|---|---|---|---|
| project1/app/Http/Controllers/PatientController.php:215 | `addcslashes($keyword, '%_')` escapes `%` and `_` but not the backslash, which is LIKE's escape character | the word `\` gives the pattern `%\%`, which matches "50%" and not a value holding `\` | every search word matches the values that contain it | not executed | LikeSearch.BackslashWordMismatch | LikeSearch.PatternMatchesIffContains |
| project1/app/Http/Controllers/UserController.php:999 | `regex:/^[a-zA-Z0-9]+$/`, where PCRE's `$` also matches before a final newline | the new password "abc\n" is accepted and stored | a password is one or more ASCII letters and digits, nothing else | not executed | UserRules.PasswordNewlineAccepted | UserRules.PasswordRuleMeaning |
