# Blood donation system: a Dafny model of its core logic

This project models the logic of a blood donation application, which is spread over
several programs.

- **Compatibility checks.** Blood-group compatibility is written five times:
  - the browser database's table (`getCompatibleBloodGroups`);
  - the C++ core's `canDonate` and its command-line output line;
  - the Flask app's pure-Python fallback, the parser for the C++ line, and the request normalisation;
  - the FastAPI backend's rule-based `check_blood_compatibility`;
  - the backend's `compatibility_map` endpoint.

  Each version is proved against one reference rule, `BloodGroups.Receives`: an Rh-negative recipient takes only Rh-negative blood, and the donor's ABO group must be O, equal to the recipient's, or the recipient must be AB. The proofs also relate the versions to each other, including where they differ off the eight codes.
- **The 90-day donation cooldown.** `calculateNextEligibleDate` and `isEligibleToDonate` are modelled over a calendar date type. Dates are read and printed in ISO 8601 `YYYY-MM-DD` form, and strings are compared as JavaScript compares them.
- **Donor search.** The filter pipeline of the `useDonors` hook and that of the `GET /api/donors` route.
- **Record stores changed in place:**
  - `saveDonation` and `saveUser`, which upsert into lists kept in the browser's `localStorage`;
  - `findUserByEmail`;
  - the C++ server's `BloodDonationManager` (create, update and delete on a vector of donations);
  - the CSV backend's `get_next_id` and `update_request_status`.
- **Validation.** The form actions (`signInAction`, `signUpAction`, `updateProfileAction`, `scheduleDonationAction`), the email rule `^[^\s@]+@[^\s@]+\.[^\s@]+$`, and the `POST /api/auth` route.

Modules, one per file: `Wrappers`, `Text`, `Sequences`, `Decimal`, `BloodGroups`,
`FrontendCompatibility`, `CppBloodLogic`, `PythonApp`, `BackendCompatibility`,
`BackendCsv`, `Dates`, `Eligibility`, `Records`, `Server`, `DonorSearch`, `DonorsRoute`,
`Actions`, `AuthRoute`.

How state is modelled:
- Objects whose fields the source updates are classes with `modifies` clauses:
  - `Records.LocalStorage`;
  - `Server.BloodDonationManager`;
  - `DonorSearch.DonorSearchState`.
- Their methods are proved against specification functions (`Upsert`, `UpdateFirst`, `RemoveId`, `MergeFilters`, `ApplyFilters`).
- The loop of `update_request_status` is a method whose result equals a functional specification, and the row-by-row properties are proved about that specification.

What is passed in rather than modelled:
- The clock ("today" as a UTC calendar date).
- Fresh ids.
- The outcome of reading stored JSON (a `Stored` slot: missing, malformed or a parsed list).
- Whether the C++ executable was built.

## Model

| member | source | states |
|---|---|---|
| FrontendCompatibility.TableMatchesRule | frontend/lib/database.ts:105-118 | for every pair of groups, the donor's code is in the recipient's list exactly when the transfusion rule allows the transfusion |
| FrontendCompatibility.DonorsForMatchesRule | frontend/lib/database.ts:106-115 | each table row holds exactly the donor groups the rule allows |
| FrontendCompatibility.SelfCompatible | frontend/lib/database.ts:106-115 | every group's list contains the group itself |
| FrontendCompatibility.UniversalDonorAndRecipient | frontend/lib/database.ts:111-114 | "O-" is in every list; the list for "O-" is ["O-"]; the list for "AB+" is all eight groups |
| FrontendCompatibility.RhNegativeReceivesOnlyNegative | frontend/lib/database.ts:106-115 | an Rh-negative recipient's list holds only Rh-negative donors |
| FrontendCompatibility.UnknownGroupYieldsEmpty | frontend/lib/database.ts:117 | the result is the empty list exactly when the argument is not one of the eight codes |
| FrontendCompatibility.ListHoldsOnlyCodes | frontend/lib/database.ts:106-117 | every string in any returned list is a blood-group code |
| FrontendCompatibility.ListsHaveNoDuplicates | frontend/lib/database.ts:106-115 | no returned list names a group twice |
| BloodGroups.ParseCode | frontend/lib/database.ts:106-115 | every group's code reads back as that group, so codes are distinct |
| BloodGroups.IsCodeIffInAll | frontend/lib/database.ts:106-115 | a string is a table key exactly when it is the code of one of the eight listed groups |
| CppBloodLogic.AgreesWithRule | blood_donation_system/cpp_core/blood_logic.cpp:5-51 | on the 64 pairs of codes, `canDonate` is the transfusion rule |
| CppBloodLogic.AgreesWithFrontendTable | blood_donation_system/cpp_core/blood_logic.cpp:5-51 | on the 64 pairs, `canDonate` agrees with membership in the browser table |
| CppBloodLogic.CaseInsensitive | blood_donation_system/cpp_core/blood_logic.cpp:9-11 | the verdict depends only on the upper-cased arguments |
| CppBloodLogic.AgreesWithRuleInAnyCase | blood_donation_system/cpp_core/blood_logic.cpp:9-51 | any spelling that upper-cases to two codes gets the rule's verdict |
| CppBloodLogic.UniversalDonorAnyRecipient | blood_donation_system/cpp_core/blood_logic.cpp:13-14 | a donor that upper-cases to "O-" is compatible with every recipient string |
| CppBloodLogic.SameStringAlwaysCompatible | blood_donation_system/cpp_core/blood_logic.cpp:16-17 | two strings with the same upper-case form are compatible, even when they are not blood groups |
| CppBloodLogic.SameStringExample | blood_donation_system/cpp_core/blood_logic.cpp:16-17 | "XYZ" can donate to "xyz" |
| CppBloodLogic.PositiveNeverToNegative | blood_donation_system/cpp_core/blood_logic.cpp:19-50 | an Rh-positive donor group never gives to a recipient string ending in '-' |
| CppBloodLogic.ABPositiveOnlyToABPositive | blood_donation_system/cpp_core/blood_logic.cpp:49-50 | "AB+" is compatible only with recipients that upper-case to "AB+" |
| CppBloodLogic.InvalidDonorIncompatible | blood_donation_system/cpp_core/blood_logic.cpp:16-50 | a donor string that is no group is compatible only with its own upper-case form |
| CppBloodLogic.MessageDeterminesVerdict | blood_donation_system/cpp_core/blood_logic.cpp:53-57 | the "can" and "cannot" sentences for a pair differ |
| CppBloodLogic.MessageIffCompatible | blood_donation_system/cpp_core/blood_logic.cpp:53-57 | the message is the "can" sentence exactly when `canDonate` holds |
| PythonApp.FallbackAgreesWithCpp | blood_donation_system/python_app/app.py:125-155 | with `upper` on ASCII letters, the pure-Python fallback gives the C++ verdict and message for every pair of strings, flagged as the fallback |
| PythonApp.StripCliLine | blood_donation_system/python_app/app.py:27 | stripping the printed line removes the newline and trailing white space of the message, and nothing at its front |
| PythonApp.LowerOfVerdict | blood_donation_system/python_app/app.py:31 | the printed verdict word lower-cases to "true" exactly for true |
| PythonApp.CliLineRoundTrip | blood_donation_system/cpp_core/main.cpp:19 | parsing `true:m` or `false:m` plus a newline returns the printed verdict and `m` stripped |
| PythonApp.CppLineParsesToVerdict | blood_donation_system/python_app/app.py:19-33 | parsing the C++ program's line for any two strings gives `canDonate` and the full message |
| PythonApp.BoundCheckerAnswersRule | blood_donation_system/python_app/app.py:76-78 | on two valid groups, the C++ path and the fallback both give the rule's verdict and the same sentence |
| PythonApp.MissingFieldRejected | blood_donation_system/python_app/app.py:61-67 | a missing or all-white-space field gives the 400 "required" response |
| PythonApp.InvalidTypeRejected | blood_donation_system/python_app/app.py:69-74 | a normalised field outside the eight codes gives the 400 listing them |
| PythonApp.NormalizeExample | blood_donation_system/python_app/app.py:61-62 | " o- " is read as "O-" |
| PythonApp.ValidRequestAnswersRule | blood_donation_system/python_app/app.py:56-78 | once both fields normalise to codes, the response is the rule's verdict |
| PythonApp.CodesAreValid | blood_donation_system/python_app/app.py:64-71 | a pair of codes passes both validation checks |
| BackendCompatibility.UniversalDonor | backend/app.py:377-378 | donor "O-" is compatible with every recipient string, the empty one included |
| BackendCompatibility.UniversalRecipient | backend/app.py:379-380 | recipient "AB+" is compatible with every donor string |
| BackendCompatibility.RhFactorRejected | backend/app.py:383-388 | outside the universal cases, a '+' donor and a '-' recipient are refused with the Rh message |
| BackendCompatibility.EmptyTypeIsServerError | backend/app.py:383-418 | an empty type that misses both early returns raises IndexError, which the endpoint answers with 500 |
| BackendCompatibility.AgreesWithRule | backend/app.py:375-403 | on the 64 pairs of codes, the function returns the transfusion rule's verdict |
| BackendCompatibility.AgreesWithCpp | backend/app.py:375-403 | on the 64 pairs it agrees with the C++ `canDonate` |
| BackendCompatibility.DiffersFromCppOffTable | backend/app.py:375-403 | off the codes the versions differ: "XYZ" to "AB+" and lower-case "o-" |
| BackendCompatibility.MapEntryMatchesRule | backend/app.py:331-364 | each map entry's donate-to and receive-from lists are exactly those the rule allows |
| BackendCompatibility.TableIsSymmetric | backend/app.py:331-364 | X is in Y's `can_donate_to` exactly when Y is in X's `can_receive_from`, for all 64 pairs |
| BackendCompatibility.ReceiveColumnIsFrontendTable | backend/app.py:331-373 | every `can_receive_from` list equals the browser table's list, element for element |
| BackendCompatibility.UnknownTypeNotFound | backend/app.py:366-367 | a type that is not a key, lower case included, gives 404 |
| BackendCsv.NumericIdsAre | backend/app.py:120 | with no blank row, the collected ids are exactly the values of the ASCII all-digit id cells |
| BackendCsv.GetNextIdIsFresh | backend/app.py:116-121 | the next id exceeds every ASCII all-digit id; it is 1 when there are none, and otherwise the largest plus one |
| BackendCsv.BlankRowRaises | backend/app.py:120 | a blank row after the header makes `row[0]` raise IndexError |
| BackendCsv.PyIntOfDigits | backend/app.py:313 | `int()` of an all-digit cell is its decimal value |
| BackendCsv.UpdateRequestStatus | backend/app.py:304-326 | the loop over the rows returns exactly the functional specification: the rewritten file, 404, or the error a malformed row raises |
| BackendCsv.RewriteRowsShape | backend/app.py:312-316 | a successful rewrite keeps the number of rows; matching rows get `status` in column 7 and other rows are unchanged |
| BackendCsv.RewriteRowsUpdated | backend/app.py:312-316 | the `updated` flag is set exactly when some row's id equals the request id |
| BackendCsv.UpdateRequestStatusKeepsHeader | backend/app.py:309-326 | success writes a file of the same length with the same header, and only when some row matched |
| BackendCsv.UpdateRequestStatusRows | backend/app.py:312-324 | success sets column 7 in every matching row and leaves everything else as it was |
| BackendCsv.NoMatchIsNotFound | backend/app.py:318-319 | well-formed rows with no match give 404 and nothing is written |
| Dates.Next | frontend/lib/database.ts:125 | the following day is a valid date and later |
| Dates.NextIsSuccessor | frontend/lib/database.ts:125 | no valid date lies strictly between a date and the next one |
| Dates.AddDaysCounts | frontend/lib/database.ts:125 | the month-jumping `setDate(getDate() + n)` equals stepping one day n times |
| Dates.AddDaysIsLater | frontend/lib/database.ts:125 | adding a positive number of days gives a later valid date |
| Dates.AddDaysAtMostNextYear | frontend/lib/database.ts:125 | adding at most 308 days ends in the same year or the next |
| Dates.ParseFormat | frontend/lib/database.ts:123-127 | a valid date with a four-digit year prints and reads back as itself |
| Dates.FormatParse | frontend/lib/database.ts:123-127 | a string that reads as a date prints back unchanged |
| Dates.FormatOrder | frontend/lib/database.ts:136 | for years 0..9999, JavaScript order on the printed dates is calendar order |
| Dates.ExpandedYearBreaksOrder | frontend/lib/database.ts:127 | past year 9999 the six-digit form "+010000-01-01" sorts before "2026-01-01" |
| Eligibility.NoDonationMeansToday | frontend/lib/database.ts:120-131 | with no last donation (null or ""), the next date is today and the donor is eligible |
| Eligibility.NextEligibleIsNinetyDaysLater | frontend/lib/database.ts:120-128 | otherwise the next date is the donation's date 90 calendar days on: later, and in the same or the next year |
| Eligibility.NextEligibleExample | frontend/lib/database.ts:120-128 | "2024-01-01" gives "2024-03-31" |
| Eligibility.RolloverIntoLeapFebruary | frontend/lib/database.ts:125 | 2023-12-01 plus 90 days is 2024-02-29 |
| Eligibility.RolloverPastCommonFebruary | frontend/lib/database.ts:125 | 2022-12-01 plus 90 days is 2023-03-01 |
| Eligibility.RolloverCenturyYear | frontend/lib/database.ts:125 | 2100-01-01 plus 90 days is 2100-04-01 (2100 is not a leap year) |
| Eligibility.EligibleIffCooldownOver | frontend/lib/database.ts:130-137 | the donor is eligible exactly when today is not before the last donation plus 90 days |
| Eligibility.DonatingTodayMeansNotEligible | frontend/lib/database.ts:130-137 | someone who gave blood today is not eligible today |
| Eligibility.UnreadableDateThrows | frontend/lib/database.ts:123-127 | a last donation that is not a date makes both functions throw RangeError |
| Records.UpsertReplacesFirst | frontend/lib/database.ts:90-93 | with the key present, only its first occurrence is replaced and the length stays the same |
| Records.UpsertAppends | frontend/lib/database.ts:94-95 | with the key absent, the record is appended to the untouched list |
| Records.UpsertIdempotent | frontend/lib/auth.ts:68-75 | saving the same record twice is saving it once |
| Records.UpsertFindsSaved | frontend/lib/auth.ts:68-75 | after a save, the first record with that key is the saved one |
| Records.LocalStorage.SaveDonation | frontend/lib/database.ts:86-99 | the donation list becomes the upsert by id of the stored list; malformed stored text throws and writes nothing; users are untouched |
| Records.LocalStorage.SaveUser | frontend/lib/auth.ts:65-78 | the user list becomes the upsert by id of what `getAllUsers` read; donations are untouched |
| Records.SavedUserIsPresent | frontend/lib/auth.ts:68-77 | after `saveUser`, a user with that id is stored, and it is the saved user |
| Records.SaveUserOverMalformed | frontend/lib/auth.ts:58-75 | saving over malformed stored text leaves only that user |
| Records.GetDonations | frontend/lib/database.ts:79-84 | a missing key reads as [], parsed text as its list, and only malformed text throws |
| Records.GetAllUsers | frontend/lib/auth.ts:52-63 | a missing key and malformed text both read as [] |
| Records.DonationsByDonorSelects | frontend/lib/database.ts:101-103 | a donor's donations are exactly the stored ones with that donor id, in stored order |
| Records.FindUserByEmail | frontend/lib/auth.ts:80-83 | the result is the first stored user whose email matches exactly, and null exactly when no email matches |
| Server.BloodDonationManager.GetAllDonations | backend/src/server.cpp:40-43 | returns the current list |
| Server.BloodDonationManager.CreateDonation | backend/src/server.cpp:45-51 | appends the input with the fresh id, returns it, and leaves earlier records as they were |
| Server.BloodDonationManager.UpdateDonation | backend/src/server.cpp:53-63 | returns true exactly when the id is present, and the list becomes the first-match replacement that keeps the id |
| Server.BloodDonationManager.DeleteDonation | backend/src/server.cpp:65-74 | returns true exactly when the id is present, and the list becomes the records with another id, in order |
| Server.UpdateFirstChangesOne | backend/src/server.cpp:55-60 | the update changes only the first record with the id, keeps the id, and leaves the length and every other record alone |
| Server.UpdateAbsentIsNoOp | backend/src/server.cpp:62 | with an absent id nothing changes |
| Server.RemoveIdKeepsOthers | backend/src/server.cpp:67-73 | deletion keeps exactly the other records in order, and shortens the list exactly when the id was present |
| DonorSearch.FilterOrThrow | frontend/hooks/use-donors.ts:55-59 | a filter whose callback may throw returns an ordered subsequence of exactly the accepted elements, and throws exactly when some callback throws |
| DonorSearch.LoadedDonorsAreDonors | frontend/hooks/use-donors.ts:32-38 | the loaded donors are exactly the stored users with role donor, in order |
| DonorSearch.ByGroupAndLocationSelects | frontend/hooks/use-donors.ts:43-52 | the first two steps keep exactly the donors whose group is compatible with the request (unless "all") and whose location contains the text, case-insensitively (unless it is empty) |
| DonorSearch.ApplyFiltersIsSubsequence | frontend/hooks/use-donors.ts:40-62 | the filtered donors are an order-preserving subsequence of the loaded ones |
| DonorSearch.AvailabilitySelects | frontend/hooks/use-donors.ts:55-59 | "available" keeps donors that are available and eligible; "upcoming" keeps donors that are not eligible, whatever their flag |
| DonorSearch.AvailableAndUpcomingDisjoint | frontend/hooks/use-donors.ts:55-59 | the "available" and "upcoming" results share no donor |
| DonorSearch.DefaultFiltersKeepAll | frontend/hooks/use-donors.ts:17-21 | the initial filters keep every loaded donor |
| DonorSearch.UnreadableDateBreaksUpcoming | frontend/hooks/use-donors.ts:57-58 | an "upcoming" search throws when a matching donor's last donation is not a date |
| DonorSearch.MergeFilters | frontend/hooks/use-donors.ts:64-66 | each supplied field replaces the previous one, and each absent field is kept |
| DonorSearch.MergeFiltersIdempotent | frontend/hooks/use-donors.ts:64-66 | merging an update twice is merging it once, and an empty update changes nothing |
| DonorSearch.DonorSearchState.LoadDonors | frontend/hooks/use-donors.ts:28-38 | the donor list becomes the loaded donors and loading ends; the `[donors, filters]` effect then sets the shown list to the filter pipeline over the new donors, or keeps it and passes on the throw, and the state is settled |
| DonorSearch.DonorSearchState.ApplyFiltersNow | frontend/hooks/use-donors.ts:40-62 | the shown donors become the pipeline's result; a throw leaves them as they were; afterwards the state is settled |
| DonorSearch.DonorSearchState.UpdateFilters | frontend/hooks/use-donors.ts:64-66 | the filters become the merge of the old ones and the update; the effect then refilters the donors under the merged filters, and the state is settled |
| DonorSearch.DonorSearchState.SearchDonors | frontend/hooks/use-donors.ts:68-70 | the filters are replaced whole; the effect then refilters the donors under them, and the state is settled |
| DonorsRoute.FilterDonorsSelects | frontend/app/api/donors/route.ts:40-52 | the result keeps, in order, exactly the donors whose group equals the parameter (unless it is absent or "all"), whose location contains it case-insensitively, and which are flagged available when "available" is asked |
| DonorsRoute.GetTotalCounts | frontend/app/api/donors/route.ts:54-57 | `total` is the number of donors returned, which form a subsequence of the fixture |
| DonorsRoute.ExactGroupMatch | frontend/app/api/donors/route.ts:42-44 | asking for "AB+" returns nobody ... |
| DonorsRoute.FixtureCompatibleWithABPositive | frontend/app/api/donors/route.ts:14-36 | ... although the compatibility table lets "AB+" receive from both fixture donors |
| Actions.EmailCheckMatchesPattern | frontend/lib/actions.ts:43-44 | the one-pass email check accepts exactly the strings of the pattern |
| Actions.ValidEmailShape | frontend/lib/actions.ts:43-44 | an accepted address has exactly one '@', not at the front, no white space, and a '.' with text on both sides after the '@' |
| Actions.EmailAccepted | frontend/lib/actions.ts:43-44 | "jo@mail.com" is accepted |
| Actions.EmailWithoutDotRejected | frontend/lib/actions.ts:43-44 | "jo@mail" is rejected |
| Actions.EmailWithTwoAtSignsRejected | frontend/lib/actions.ts:43-44 | "a@b@c.com" is rejected |
| Actions.EmailWithSpaceRejected | frontend/lib/actions.ts:43-44 | "j o@mail.com" is rejected |
| Actions.SignIn | frontend/lib/actions.ts:3-21 | success exactly when email and password are non-empty and the password is at least 6 long, returning the email; otherwise the missing-field or the "Invalid credentials" error |
| Actions.SignInLengthBoundary | frontend/lib/actions.ts:16-18 | six characters always pass; five BMP characters fail; three astral characters count as six and pass |
| Actions.SignUp | frontend/lib/actions.ts:23-58 | a missing field is reported before the password length, which is reported before the email rule; success exactly when all three checks pass, echoing the fields with an empty `lastDonation` as null |
| Actions.SignUpThenSignIn | frontend/lib/actions.ts:12-46 | whoever signs up can sign in with the same credentials, and their address matches the pattern |
| Actions.UpdateProfile | frontend/lib/actions.ts:60-78 | success exactly when all five fields are non-empty, echoing them |
| Actions.ScheduleDonationAsWritten | frontend/lib/actions.ts:80-102 | accepted exactly when date and location are given and the date is not read as a day on or before today; an unreadable date counts as not on or before |
| Actions.UnreadableDateIsScheduled | frontend/lib/actions.ts:91-96 | as written, "soon" is accepted as a donation date |
| Actions.ScheduleDonation | frontend/lib/actions.ts:87-100 | corrected: accepted exactly when date and location are given and the date reads as a day after today |
| Actions.ScheduleAgreesOnReadableDates | frontend/lib/actions.ts:91-96 | the correction agrees with the code as written on every readable date |
| Actions.ScheduledDateIsFuture | frontend/lib/actions.ts:94-100 | a scheduled date is a valid day after today that prints back as submitted |
| AuthRoute.Post | frontend/app/api/auth/route.ts:3-43 | statuses are 200, 400, 401 or 500, and success comes exactly with 200; 500 comes exactly for a body that is not JSON or a signup without `userData`; any other action gives 400 "Invalid action" |
| AuthRoute.SignInAgreesWithAction | frontend/app/api/auth/route.ts:11-25 | signin gives 200 exactly when `signInAction` succeeds, otherwise its message, with 400 for missing credentials and 401 for a short password |
| AuthRoute.SignUpActionImpliesRoute | frontend/app/api/auth/route.ts:27-37 | every form `signUpAction` accepts is accepted by the route |
| AuthRoute.RouteSignUpSkipsActionChecks | frontend/app/api/auth/route.ts:29-36 | the route accepts a two-character password and an address without '@', which the action refuses |
| AuthRoute.SignUpWithoutUserDataIsServerError | frontend/app/api/auth/route.ts:29-42 | a signup with no `userData` gives 500 |

## Left out

- Storage and serialisation: `localStorage`, `JSON.parse`/`stringify`, CSV file reading and writing, and `initializeSampleData` (frontend/lib/database.ts:7-77). The stored value is a parameter. For JSON it is a `Stored` slot; for CSV it is the rows as lists of strings.
- The `typeof window === "undefined"` early returns (server-side rendering). The model is always in the browser.
- The clock. "Today" and "now" are a UTC calendar date passed in. Random and clock-based ids are parameters, and their uniqueness is not claimed.
- Time zones. `setDate` works in local time while `toISOString` prints UTC, so a 90-day step across a daylight-saving change can come out a day short. The model uses pure day arithmetic, as in UTC.
- Date reading. `new Date(s)` is modelled for the `YYYY-MM-DD` form with years 0..9999. Other formats are implementation-defined and count as unreadable, and so do expanded `+YYYYYY` years and out-of-range days such as `2025-02-30`. The time-value range limit (±8.64e15 ms) is not modelled either.
- Dates.FormatOrder: holds only for years 0..9999. Past 9999 the printed form has six digits and the string order breaks (`Dates.ExpandedYearBreaksOrder`).
- Eligibility.EligibleIffCooldownOver: stated only while today and the next eligible date have four-digit years, for the same reason.
- Case mapping is ASCII only. This is exact for the C++ `toupper` in the C locale. JavaScript's `toLowerCase` and Python's `upper` also map non-ASCII letters, and some of them to several characters. This changes the location substring tests for non-ASCII text. It also changes the Python fallback's equality test (next line).
- PythonApp.FallbackAgreesWithCpp: holds for the model's `upper`, which maps ASCII letters only. Python's `str.upper()` maps "ı" to "I" and "ß" to "SS". So the real fallback finds ("ı", "i") and ("ß", "ss") compatible through its `donor == recipient` test, while `canDonate` in the C locale does not. The agreement holds in the source only for ASCII strings.
- BackendCsv.PyInt / BackendCsv.NumericIds: digits are the ASCII `0`-`9` only. Python's `str.isdigit()` is also true for other digit characters, such as the superscript "²" and the Arabic-Indic "٣". `int()` accepts every Unicode decimal digit. The model treats ids written with such characters as non-numeric, which gives different answers:
  - `get_next_id` skips an id "²" here, while the source raises `ValueError`;
  - `get_next_id` skips an id "٣" here, while the source counts it as 3;
  - `update_request_status` answers 500 for a row id "١", while the source matches it to request 1.
- BackendCsv.NumericIdsAre: the collected ids are exactly the ASCII all-digit id cells; rows whose ids use other Unicode digits are not covered (see the line above).
- BackendCsv.GetNextIdIsFresh: fresh and maximal with respect to ASCII all-digit ids only; with a Unicode-digit id the source may raise or answer a larger id (see above).
- Strings are sequences of Unicode scalar values. JavaScript strings with lone surrogates cannot be expressed. `length` is counted in UTF-16 code units (`Text.Utf16Length`).
- Form and request fields are strings or absent. JSON values of other types (numbers, booleans, objects) in the auth route's body are not modelled, and neither is a `File` in `FormData`.
- `Partial<SearchFilters>` with a key that is present but `undefined` is treated as absent.
- A compatibility-table key such as `"constructor"` reached through the prototype chain is not modelled. Unknown keys give the empty list.
- The artificial `setTimeout` delays, the `std::mutex` (operations are sequential), HTTP routing and JSON mapping in the servers, the subprocess call and CMake build, JWT and bcrypt, and the Mongo backend.
- React's scheduling of the `[donors, filters]` effect (frontend/hooks/use-donors.ts:28-30) is modelled as running right after the setter that triggers it, with the same "today". A component that renders between the two is not modelled, and neither is React skipping the effect when `setFilters` receives the same object.
- The outer `try`/`catch` of the donors route (its 500 answer) is left out, since nothing the model covers inside it throws.

## Findings

| source | as written | input that shows it | evidently intended | confidence | as-written member | corrected member |
|---|---|---|---|---|---|---|
| frontend/lib/actions.ts:91-96 | `new Date(date)` of a string that is not a date is an Invalid Date; `selectedDate <= today` is then false, so the date passes as "in the future" | date "soon", location "Downtown" | reject any date that does not read as a day after today | not executed | Actions.UnreadableDateIsScheduled | Actions.ScheduleDonation |
