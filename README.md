# Bank sampah: a verified model of the waste-bank back end

The bank-sampah web app runs a neighbourhood waste bank. Members (`pengguna`) bring
in or have picked up their waste as deposits (`setoran`). Operators (`pengelola`)
weigh the waste and credit the members' balances (`saldo`). Members then ask to
cash out (`pencairan`). Admins manage accounts, the waste-type catalog (`jenis
sampah`), the application settings and the educational articles (`artikel`).

This project models the rules inside the app's API route handlers. Each handler is
a method over one in-memory store, the class `Store.Db`, which holds one sequence
per table. The method returns `Http.Reply`: the HTTP status plus either the body
or the error message the route sends. Pure helpers become functions. The model
covers:

- **ledger records**: creating a deposit, requesting a cash-out, the per-role
  deposit and cash-out listings, and the dashboard counters;
- **member registry**: self-registration, admin account creation, bulk import,
  profile completion, QR scanning, short-code lookup and the member list;
- **waste-type catalog**: list, create, rename and delete;
- **settings store**: read as a map, and upsert;
- **pure string helpers**: WhatsApp number formatting, and image URL resolution
  for articles, together with the article creation that stores those URLs.

Each module's contracts tie its handler to a specification function or
predicate. The lemmas then prove what the app promises of those functions:
- the validation order of every chain;
- email uniqueness across registration, creation and import;
- the split/join round trip between the QR payload and the scanned email;
- rename propagation and the delete guard in the catalog;
- the upsert semantics of settings;
- idempotence of the phone formatter;
- the device fallback orders of the image resolver.

Conventions:
- Authorization (`requireRole`/`requireAuth` in lib/auth) is a `Caller(id, role)`
  argument, and a handler's `requires` says which roles reach its body.
- Generated ids and clock readings are an `Env(id, now)` argument.
- Password hashing, `JSON.parse` and `JSON.stringify` are function arguments.
- `Present(x)` is JavaScript truthiness of an optional string: present and
  non-empty.

## Model

| member | source | states |
|---|---|---|
| Types.ParseRole | lib/types.ts:10 | The role column names exactly one of admin, pengelola, pengguna: a parsed role spells the input, and any role spelling the input is the one parsed. |
| Types.ParseMetode | lib/types.ts:26 | A deposit method is exactly one of pick-up or drop-off, in the same two directions. |
| Types.ParseSetoranStatus | lib/types.ts:27 | A deposit status is exactly one of pending, validated, rejected. |
| Types.ParsePencairanStatus | lib/types.ts:45 | A cash-out status is exactly one of pending, approved, rejected. |
| QrData.Build | app/api/auth/register/route.ts:33 | The QR payload starts with `BANKSAMPAH-`. |
| QrData.BuildSplits | app/api/member/create/route.ts:70 | Split on '-', the payload is the prefix, the email's own pieces, then the decimal timestamp. |
| SetoranCreate.Post | app/api/setoran/create/route.ts:12-26 | A missing type or method gives 400 and stores nothing. Otherwise exactly one deposit is appended, owned by the caller, pending, with no weight, price, total, validator or validation date; the reply is 201. |
| SetoranCreate.AnyMetodeAdmitted | app/api/setoran/create/route.ts:12 | A method string that names no enumeration value is still admitted, because only presence is checked. |
| PencairanRequest.Admit | app/api/pencairan/request/route.ts:12-37 | Admitted exactly when the nominal is present and positive, the caller's account exists, and the balance (missing counts as 0) covers it. The refusals are 400 InvalidNominal, 404 UserNotFound and 400 InsufficientSaldo, in that order. |
| PencairanRequest.BalanceBoundIsInclusive | app/api/pencairan/request/route.ts:32-37 | Requesting exactly the balance is admitted; one unit more is refused with "Saldo tidak mencukupi". |
| PencairanRequest.Post | app/api/pencairan/request/route.ts:12-46 | A refusal stores nothing. An admission appends one pending request of that nominal for the caller with a 201, and no user (balance included) changes. |
| PencairanRequest.RequestTwice | app/api/pencairan/request/route.ts:32-46 | Two requests, each within the balance, are both admitted even when their sum exceeds it. |
| SetoranList.FindMany | app/api/setoran/list/route.ts:19-30 | The result holds exactly the matching deposits with their multiplicities, newest `tanggal_setor` first. |
| SetoranList.FormatAll | app/api/setoran/list/route.ts:32-43 | One row per record, in order, carrying the record itself, the owner summary (null when no user has the owner id) and the validator's name (null when no validator is recorded or none has that id). |
| SetoranList.Get | app/api/setoran/list/route.ts:14-43 | A member gets exactly their own deposits and staff get every deposit, each as often as stored, newest first, each with its owner summary and its validator's name. |
| PencairanList.FindMany | app/api/pencairan/list/route.ts:27-38 | Exactly the matching requests with their multiplicities, newest `tanggal_request` first. |
| PencairanList.FormatAll | app/api/pencairan/list/route.ts:40-49 | One row per request, in order, carrying the request itself, the owner summary and the approver's name, each null when the referenced user is missing. |
| PencairanList.MatchesVisible | app/api/pencairan/list/route.ts:19-25 | The `where` object built by the route selects exactly the requests visible under ownership and status together. |
| PencairanList.Listing | app/api/pencairan/list/route.ts:19-49 | For a known status or none: exactly the visible requests (own only for a member, of the named status when one is given), each as often as stored, newest first, with owner and approver summaries. |
| PencairanList.Get | app/api/pencairan/list/route.ts:19-49 | Fails with 500 exactly when a status other than `all` names no withdrawal status; otherwise 200 with the caller's listing. |
| PencairanList.AllMeansNoStatusFilter | app/api/pencairan/list/route.ts:23-25 | `status=all` and an empty status both act as no status filter. |
| DashboardStats.Compute | app/api/dashboard/stats/route.ts:16-79 | Each role gets its own shape of figures: member, operator or admin. |
| DashboardStats.SumNominal | app/api/dashboard/stats/route.ts:30-31 | With positive nominals the sum is never negative, and zero exactly for the empty list. |
| DashboardStats.SumApproved | app/api/dashboard/stats/route.ts:76-77 | With positive nominals `totalPencairan` is never negative, and zero exactly when no request is approved. |
| DashboardStats.SumKg | app/api/dashboard/stats/route.ts:63-65 | With non-negative weights the sum of weights is never negative; its value is pinned by SumKgAppend. |
| DashboardStats.SumKgAppend | app/api/dashboard/stats/route.ts:63-65 | Appending a deposit adds its weight, an absent weight counting 0. |
| DashboardStats.SumValidatedKg | app/api/dashboard/stats/route.ts:63-65 | With non-negative weights on the validated deposits, `totalSampahKg` is never negative; its value is pinned by SumValidatedKgAppend. |
| DashboardStats.SumValidatedKgAppend | app/api/dashboard/stats/route.ts:63-65 | Appending a deposit adds its weight (absent counting 0) to `totalSampahKg` exactly when it is validated; any other deposit leaves the figure unchanged. |
| DashboardStats.MemberFiguresIgnoreOthers | app/api/dashboard/stats/route.ts:18-32 | Adding other users' deposits and requests changes none of a member's figures. |
| DashboardStats.SetoranStatusPartition | app/api/dashboard/stats/route.ts:25-26 | Pending, validated and rejected counts add up to the total. |
| DashboardStats.PencairanStatusPartition | app/api/dashboard/stats/route.ts:30-32 | Pending, approved and rejected counts add up to the total. |
| DashboardStats.RolePartition | app/api/dashboard/stats/route.ts:59-60 | The admin's `totalUsers` is the sum of the three per-role counts. |
| DashboardStats.PendingAndValidatedBounded | app/api/dashboard/stats/route.ts:24-26 | For members and operators, `setoranPending + setoranValidated <= totalSetoran`. |
| DashboardStats.NewPendingSetoran | app/api/dashboard/stats/route.ts:63-69 | A new pending deposit adds one to the total and to pending, and changes neither validated nor validated kilograms. |
| DashboardStats.NewPendingPencairan | app/api/dashboard/stats/route.ts:76-77 | A new pending request adds one to pending and leaves `totalPencairan`. |
| DashboardStats.SumApprovedSplits | app/api/dashboard/stats/route.ts:30-31 | The approved total is the member's own part plus everyone else's. |
| DashboardStats.SumApprovedAppend | app/api/dashboard/stats/route.ts:76-77 | Appending a request adds its nominal exactly when it is approved. |
| DashboardStats.StaffViewsAgree | app/api/dashboard/stats/route.ts:43-77 | Admin and operator agree on the deposit total and the validated count; the admin's `totalUsers` equals the operator's member count plus the operators plus the admins. |
| DashboardStats.MemberShareOfTotal | app/api/dashboard/stats/route.ts:30-31 | A member's `totalPencairan` is their own share of the admin's figure. |
| AuthRegister.Post | app/api/auth/register/route.ts:22-64 | Missing name, email or password gives 400. A taken email gives 400 "Email sudah terdaftar" and no change. Otherwise one member is appended: saldo 0, profile incomplete, the QR payload built from email and clock, empty optional fields stored as null; the reply is 201 with its id. Email uniqueness is kept. |
| MemberCreate.Validate | app/api/member/create/route.ts:30-64 | Passes exactly when fields are present, the role is pengguna or pengelola, the password has 8 or more characters and the email is free. Otherwise the first failing check, in that order, names the error. |
| MemberCreate.AdmittedRoleIsNotAdmin | app/api/member/create/route.ts:38-43 | An admitted role is pengguna or pengelola, never admin. |
| MemberCreate.LengthBeforeUniqueness | app/api/member/create/route.ts:46-64 | A short password for a taken email reports the password. |
| MemberCreate.Post | app/api/member/create/route.ts:30-101 | A failed check gives 400 with its message and no change. Otherwise exactly one user is appended with the requested name and role, the creation time of the request, saldo 0, profile incomplete and the `BANKSAMPAH-` QR payload. Email uniqueness is kept. |
| MemberImport.NormaliseAll | app/api/member/import/route.ts:47-51 | One normalised row per sheet row, in order, each exactly as Normalise gives it: trimmed name, trimmed lower-cased email, raw password, trimmed phone, saldo defaulting to 0. |
| MemberImport.Normalise | app/api/member/import/route.ts:47-55 | Name and phone are their cells trimmed, the email is its cell trimmed and lower-cased (so has no upper-case letter and no surrounding white space), the password is kept exactly, and a missing saldo is 0. |
| Strings.TrimIsSlice | app/api/member/import/route.ts:47-50 | A trimmed cell is the slice of the cell left after cutting only white space from its two ends (and Trim ensures that slice neither starts nor ends with white space). |
| MemberImport.RowCheck | app/api/member/import/route.ts:57-80 | A refusal is one of the four messages; acceptance implies a name, an `@` in the email, an 8-character password and an unregistered email; "already registered" implies the email is taken. |
| MemberImport.RowCheckFirstFailure | app/api/member/import/route.ts:57-80 | A row passes exactly when all four checks pass; otherwise the first failing one decides the message (required fields, '@', length, unregistered email). |
| MemberImport.NewUser | app/api/member/import/route.ts:82-98 | A created user is a member with an incomplete profile, the normalised name and email, the hashed password, the given saldo, a null phone exactly when the cell is empty, no address, and the `BANKSAMPAH-<email>-<now>` payload. |
| MemberImport.Run | app/api/member/import/route.ts:43-104 | Every row lands in exactly one of successes or errors, and one user is created per success. |
| MemberImport.Step | app/api/member/import/route.ts:44-103 | Each row adds exactly one outcome: a passing row appends its user and email and no error; a failing row appends its row number, email and reason and changes nothing else. |
| MemberImport.RunKeepsEmailsUnique | app/api/member/import/route.ts:72-100 | Starting from unique emails, no two users share an email afterwards, including repeats within the file. |
| MemberImport.RunCreatesMembers | app/api/member/import/route.ts:86-100 | From any starting state, the import keeps the existing users and reported emails as a prefix, and every user it appends is a member with an incomplete profile whose email is the matching reported success. |
| MemberImport.StepErrors | app/api/member/import/route.ts:45-80 | One row adds at most one error report, numbered row index + 2. |
| MemberImport.RunErrorRows | app/api/member/import/route.ts:43-45 | Error rows are numbered from 2 to count+1, strictly increasing. |
| MemberImport.ImportOne | app/api/member/import/route.ts:44-103 | One loop iteration on the store is one step of the fold. |
| MemberImport.ImportAll | app/api/member/import/route.ts:43-104 | The loop leaves the store and the two lists equal to the fold over all rows. |
| MemberImport.Post | app/api/member/import/route.ts:27-112 | No file gives 400 "File tidak ditemukan" and an empty sheet 400 "Tidak ada data di file", both with no change. Otherwise the store is the fold's users and the report is total, successes, failures and the errors, with success + failed == total. |
| ProfileComplete.CompletedKeepsAccount | app/api/profile/complete/route.ts:16-25 | Each of the five fields is null exactly when its input is missing or empty and the input otherwise; the flag is set; id, name, email, password, role, saldo, QR payload and creation time are kept. |
| ProfileComplete.Completed | app/api/profile/complete/route.ts:16-25 | The updated row is marked completed and holds no field as the empty string. |
| ProfileComplete.ReplyShowsCompleted | app/api/profile/complete/route.ts:26-41 | The reply shows the profile as completed, with the account's id, name, email, role and balance (null read as 0). |
| ProfileComplete.CompletedIdempotent | app/api/profile/complete/route.ts:16-25 | Completing twice with the same form equals completing once. |
| ProfileComplete.CompletedKeepsEmailsUnique | app/api/profile/complete/route.ts:16-25 | The update keeps emails unique. |
| ProfileComplete.Post | app/api/profile/complete/route.ts:9-43 | A non-member gets 403 and nothing changes. An unknown account gets 500. Otherwise exactly the caller's row is replaced by its completed form and the reply views it. |
| MemberScan.FindByQr | app/api/member/scan/route.ts:22-26 | The first member whose stored payload equals the scan, or none when no member's does. |
| MemberScan.FindByEmail | app/api/member/scan/route.ts:55-60 | The first member with the extracted email, or none. |
| MemberScan.ExtractEmail | app/api/member/scan/route.ts:41-50 | An email is read out exactly when the payload starts with `USER-` or `BANKSAMPAH-` and has at least three dash-separated pieces. |
| MemberScan.ExtractEmailOfBuilt | app/api/member/scan/route.ts:46-50 | Extraction recovers any email, hyphens included, from a payload built by registration or creation. |
| MemberScan.ExtractEmailOfLegacy | app/api/member/scan/route.ts:41-45 | For `USER-<stamp>-<email>` with a hyphen-free stamp, extraction recovers the email. |
| MemberScan.HealedPayloadIsFoundDirectly | app/api/member/scan/route.ts:75-81 | After the rewrite the same scan is found by exact match at that member. |
| MemberScan.Post | app/api/member/scan/route.ts:12-110 | Missing payload gives 400. An exact match is returned with no change. Otherwise an extracted email matching a member returns that member and rewrites only its payload. Anything else gives 404 with no change. |
| MemberByCode.Search | app/api/member/by-code/route.ts:19-43 | The first member whose id ends with the lower-cased code, or none when no member's id does. |
| MemberByCode.SearchIgnoresCase | app/api/member/by-code/route.ts:19 | Lower-casing the code first changes nothing. |
| MemberByCode.FullIdFindsMember | app/api/member/by-code/route.ts:21-38 | A member's own lower-case id always finds a member, that one or an earlier one. |
| MemberByCode.Post | app/api/member/by-code/route.ts:12-50 | Under 3 characters gives 400, no match 404, otherwise 200 with the first match's card. |
| MemberList.FindMany | app/api/member/list/route.ts:35-52 | Exactly the matching users with their multiplicities, newest `created_at` first. |
| MemberList.RoleSelected | app/api/member/list/route.ts:18-26 | An operator is always restricted to members. An admin with no role or `all` gets every role, and with a valid role that role; an invalid role string fails (500). |
| MemberList.MatchesVisible | app/api/member/list/route.ts:18-33 | The built `where` selects exactly the users visible under role and search together. |
| MemberList.Directory | app/api/member/list/route.ts:18-52 | Exactly the visible users with multiplicities, newest first. |
| MemberList.SearchIgnoresCase | app/api/member/list/route.ts:28-33 | The search matches name or email case-insensitively. |
| MemberList.OperatorIgnoresRoleParameter | app/api/member/list/route.ts:20-21 | An operator's result does not depend on the requested role. |
| MemberList.Get | app/api/member/list/route.ts:18-57 | Fails with 500 exactly when an admin names a role (other than `all`) that is not one of the three roles; otherwise 200 with the directory's rows. |
| JenisSampahCatalog.FindById | app/api/jenis-sampah/route.ts:101-107 | The index of an entry with that id, or none when none has it. |
| JenisSampahCatalog.Listing | app/api/jenis-sampah/route.ts:13-18 | With `active=true` exactly the active entries, else all, with multiplicities, sorted by name ascending. |
| JenisSampahCatalog.Get | app/api/jenis-sampah/route.ts:13-18 | The reply is 200 with the listing. |
| JenisSampahCatalog.RenameAllLeavesNoOldName | app/api/jenis-sampah/route.ts:126-130 | After a rename no deposit keeps the old name, and a used name now is the new one. |
| JenisSampahCatalog.RenameTouchesOnlyName | app/api/jenis-sampah/route.ts:126-130 | The cascade changes only the waste-type column, and changes exactly the deposits that had the old name. |
| JenisSampahCatalog.Updated | app/api/jenis-sampah/route.ts:133-140 | Only the supplied fields change; the id stays. |
| JenisSampahCatalog.InsertKeepsNamesUnique | app/api/jenis-sampah/route.ts:48-64 | Inserting a free name keeps names unique. |
| JenisSampahCatalog.RenameKeepsNamesUnique | app/api/jenis-sampah/route.ts:110-124 | Renaming to a name no other entry holds keeps names unique. |
| JenisSampahCatalog.RenameKeepsReferences | app/api/jenis-sampah/route.ts:126-140 | A rename with carry-over keeps every deposit's type in the catalog. |
| JenisSampahCatalog.RenameWithoutCarryOverOrphans | app/api/jenis-sampah/route.ts:110-130 | A rename that skips the carry-over leaves a deposit naming no catalog entry. |
| JenisSampahCatalog.RemoveKeepsReferences | app/api/jenis-sampah/route.ts:186-202 | Removing an unused entry keeps every deposit's type in the catalog. |
| JenisSampahCatalog.RemoveKeepsNamesUnique | app/api/jenis-sampah/route.ts:198-202 | Removing an entry keeps names unique. |
| JenisSampahCatalog.Post | app/api/jenis-sampah/route.ts:40-69 | Missing name gives 400, a held name 400 with no insert; otherwise one entry appended, active by default, and names stay unique. |
| JenisSampahCatalog.Put | app/api/jenis-sampah/route.ts:89-145 | Missing id gives 400 and an unknown id 404. A name held by another entry gives 400. Otherwise only that entry changes, and a real rename rewrites the deposits. Every failure changes nothing, and names stay unique. |
| JenisSampahCatalog.Delete | app/api/jenis-sampah/route.ts:165-206 | Missing id gives 400, an unknown id 404, a used name 400 with the entry kept; otherwise exactly that entry is removed. Both invariants stay. |
| Settings.UniqueIsFunctional | app/api/settings/route.ts:12-23 | Unique keys mean each key has one setting. |
| Settings.ToMapSpec | app/api/settings/route.ts:17-23 | The map's keys are the stored keys, and each maps to its value and description. |
| Settings.ToMap | app/api/settings/route.ts:17-23 | Every stored key is in the object, and the last row written wins its key. |
| Settings.Get | app/api/settings/route.ts:12-25 | The loop's map has exactly the stored keys, each with its value and description. |
| Settings.FindKey | app/api/settings/route.ts:52 | The index of the setting with that key, or none. |
| Settings.Upsert | app/api/settings/route.ts:52-62 | An existing key keeps the row count, a new key appends exactly one row after the old ones, and some row then holds the key with the new value. |
| Settings.UpsertSpec | app/api/settings/route.ts:52-62 | Keys stay unique and the key holds the new value. Other settings are untouched. An existing key keeps its description; a new key gets the WhatsApp description for `cs_whatsapp_number`, else null. |
| Settings.UpsertThenGet | app/api/settings/route.ts:12-62 | A later GET shows the new value for the key and every other key as before. |
| Settings.Put | app/api/settings/route.ts:45-67 | A missing key or value gives 400 with no change; otherwise the store is the upsert and the reply is the stored row. |
| SettingsPage.FormatPhoneNumber | app/dashboard/settings/page.tsx:267-282 | The result is digits only and starts with "62". |
| SettingsPage.FormatPhoneNumberKeepsNumber | app/dashboard/settings/page.tsx:272-281 | A leading 0 becomes 62, digits starting with 62 are unchanged, anything else gets 62 prepended. |
| SettingsPage.FormatPhoneNumberOfEmpty | app/dashboard/settings/page.tsx:277-279 | The empty input gives "62". |
| SettingsPage.FormatPhoneNumberIdempotent | app/dashboard/settings/page.tsx:267-282 | Formatting its own output changes nothing. |
| SettingsPage.SaveValue | app/dashboard/settings/page.tsx:252 | The saved value is digits only and keeps every digit of the input, each as often as it occurs. |
| SettingsPage.SaveValueKeepsOrder | app/dashboard/settings/page.tsx:252 | Removing non-digits commutes with concatenation, so the digits are kept in their order. |
| SettingsPage.SaveValueOfFormatted | app/dashboard/settings/page.tsx:252 | Saving a formatted number sends it unchanged. |
| ArtikelUtils.FirstNonEmpty | lib/artikel-utils.ts:35-43 | The preference list's first non-empty URL, "" exactly when all are empty. |
| ArtikelUtils.GetArtikelImageUrl | lib/artikel-utils.ts:19-49 | The URL is empty exactly when there is no value or it parses to an object whose three sizes are all empty. |
| ArtikelUtils.GetResponsiveImageUrls | lib/artikel-utils.ts:57-81 | A present desktop size implies a tablet size, a tablet size implies a mobile size, and the mobile size is what a mobile device gets. |
| ArtikelUtils.NoImage | lib/artikel-utils.ts:23 | No image gives "" on every device and three empty responsive URLs. |
| ArtikelUtils.RawValueUsedAsIs | lib/artikel-utils.ts:26-28 | A legacy URL, or one that fails to parse, is returned for every device and size. |
| ArtikelUtils.ResolvedByPreference | lib/artikel-utils.ts:35-43 | A parsed object gives each device the first non-empty URL of its order (mobile: m, t, d; tablet: t, d, m; desktop: d, t, m). |
| ArtikelUtils.SomeUrlShows | lib/artikel-utils.ts:35-43 | Any non-empty parsed URL makes every device's URL non-empty. |
| ArtikelUtils.ResponsiveBorrowing | lib/artikel-utils.ts:72-76 | Desktop never borrows, tablet borrows only from desktop, and mobile equals the mobile device's URL. |
| ArtikelCreate.Post | app/api/artikel/create/route.ts:12-39 | Missing title or body gives 400 with no article. Otherwise one article is appended with the caller as author and 201. |
| ArtikelCreate.StoredUrlsResolve | app/api/artikel/create/route.ts:21-25 | A stored URL object resolves per device by its preference order; a non-empty desktop URL is the default result. |
| ArtikelCreate.StoredLegacyUrlResolves | app/api/artikel/create/route.ts:31 | A stored legacy URL is shown unchanged on every device. |

## Left out

- Balance credit and debit: the deposit validation and cash-out approval handlers are not part of this model, so no balance arithmetic or status transition is asserted.
- Authorization: `requireRole`/`requireAuth` are not part of this model; the caller is an argument and the allowed roles are preconditions.
- bcrypt hashing, QR image generation, XLSX reading and JSON parsing or serialisation are function arguments or given inputs.
- Numbers are integers: `Decimal` columns, `Number(...)`, `parseFloat` of the imported saldo, and `toFixed(2)` of `totalSampahKg` are not modelled.
- DashboardStats.Compute: the `setoranBulanIni` month window is left out, because it compares dates with ISO strings and reads the clock.
- Concurrency: check-then-insert races between requests cannot happen in this sequential model.
- Database errors: the 500 replies for failures the store can raise, and their message texts, are not modelled. A duplicate email in registration is modelled as the P2002 reply.
- MemberImport.Post: the per-row `catch` around user creation cannot fire in the sequential model, because uniqueness is checked first.
- Strings: lower-casing is by ASCII letter, trimming removes a fixed whitespace set, and name ordering is by code point rather than the database collation. String lengths are counted in code points, while JavaScript's `.length` counts UTF-16 units. A character outside the Basic Multilingual Plane counts once here and twice there, so the model refuses some inputs the route accepts: four such characters pass the route's 8-character password checks (app/api/member/create/route.ts:46, app/api/member/import/route.ts:67) but not the model's, and likewise for the 3-character code check (app/api/member/by-code/route.ts:12).
- Settings.Put: the route rejects only an `undefined` `setting_value` (app/api/settings/route.ts:45), so a JSON `null` value is stored; the model's value is an optional string with no null, so that case is not modelled.
- Enumerations: `role` and the two `status` columns are database enumerations, so a `where` naming a value outside them is a query error, reported as the generic 500 (MemberList.Get, PencairanList.Get). `metode` is kept as free text, because its client values `pick-up` and `drop-off` contain a hyphen, which an enumeration value of the schema language cannot.
- SetoranCreate.Post: `metode` is stored as the given string, since the route only checks that it is present.
- JenisSampahCatalog.Put: with `nama` set to "", the route stores the empty name but skips the carry-over, which can orphan deposits. RenameWithoutCarryOverOrphans shows this. The rename to "" fails (500) when another entry already has the empty name.
- Thin routes: single-query reads (public settings, email check, article list), exports, uploads, the UI pages apart from the phone formatter, and scripts are not part of this model.
