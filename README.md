# Employee-Management: experience arithmetic and REST rules, in Dafny

This project models the core logic of an employee-record web application:

- **Experience arithmetic** (`models/Employee.js`). The `currentExperience` virtual cuts a whole-day count since the joining date into (years, months, days), using 365-day years and 30-day months. The `totalExperience` virtual adds the stored `previousExperience` triple to that. It carries days into months at 30, then months into years at 12, in one pass. The schema puts bounds and defaults on `previousExperience`.
- **Duration formatting** (`formatExperience` in `public/js/dashboard.js`). Positive components appear in the order years, months, days, with a singular or plural unit, joined by `", "`. Missing or all-non-positive durations show as `"N/A"`.
- **Employee routes** (`routes/employees.js`). The `auth` bearer-token check runs before every handler. Each route has its own role and ownership rules. The PUT handler patches fields one by one, and DELETE removes a record.
- **Admin routes** (`routes/admin.js`). The user listing derives `page`/`limit`/`skip`/`sortOrder`/`totalPages` from the query, through `parseInt(..) || default`. The dashboard derives user counts. The user create, update, delete and toggle-status handlers refuse to act on the caller's own account where the code says so.

Files:

- `wrappers.dfy`: `Option` and `Result`.
- `http.dfy`: error replies and the truthiness of an optional body string.
- `numerals.dfy`: the decimal rendering of a number (template literals) and the value of a numeral (parseInt).
- `employee_model.dfy`, `dashboard_format.dfy`, `employee_routes.dfy`, `admin_routes.dfy`: one module per core source file.

Stores are modelled as classes:

- `EmployeeRoutes.EmployeeStore` is a map from document id to `Employee`. Its invariant: every stored previous experience is within the schema bounds, and `employeeId` is unique.
- `AdminRoutes.UserStore` is a map from id to `User`. Its invariant: usernames are unique, and so are emails.

Handlers that change the store are methods with `modifies`. Their `ensures` state the whole new map. Read-only handlers that can fail return a `Result`.

Notable behaviour of the code that the model keeps:

- `currentExperience` uses fixed 365-day years and 30-day months on a single day count, not calendar-aware differences; the schema stores one previous-experience triple, not a list of intervals.
- The code's `currentExperience` can have `months == 12`, when the day remainder after whole years is 360 to 364. That triple is not normalised; `totalExperience` normalises it (`CurrentMonthsTwelve`, `TotalExperience`).
- Future joining dates give a negative day count. JavaScript then mixes `Math.floor` with a truncating `%`, and the triple no longer adds back up to the day count unless the count is a whole number of 365-day years; -1, for instance, gives (-1, -1, -1) (`CurrentExperienceAddsUp`, `CurrentExperienceOneDayAhead`).

The record fields follow what the route handlers read and write: `email`, `password`, flat `ugQualification`/`pgQualification`/`phdQualification` and `profilePhoto`. The schema in `models/Employee.js` declares none of these. It nests `qualifications.ug/pg/phd` instead. With the database library's default strict schemas, the four PUT writes at `routes/employees.js:162-164,168` would probably not be persisted. The model follows the handler's code, and this observation is not checked here.

## Model

| member | source | states |
|---|---|---|
| `Numerals.NatToString` | public/js/dashboard.js:471-473 | a count is rendered as a non-empty run of decimal digits, without a leading zero unless it is 0, and it is one digit exactly when it is below 10 |
| `Numerals.NatToStringValue` | public/js/dashboard.js:471-473 | reading the rendered numeral back gives the number, so the rendering loses nothing |
| `Numerals.NatToStringInjective` | public/js/dashboard.js:471-473 | distinct counts render differently |
| `EmployeeModel.FloorDiv` | models/Employee.js:83-85 | `Math.floor(a / b)` for a positive divisor is the quotient q with q*b <= a < q*b + b |
| `EmployeeModel.JsRem` | models/Employee.js:84-86 | JavaScript's `%` is a - trunc(a / b) * b, with the quotient rounded toward zero: it lies in [0, b) for a non-negative dividend and in (-b, 0] for a negative one |
| `EmployeeModel.StoredPrevious` | models/Employee.js:43-61 | a supplied previous experience is stored exactly when years >= 0, months in 0..11 and days in 0..30, with each missing field defaulting to 0 |
| `EmployeeModel.StoredPreviousDefault` | models/Employee.js:43-61 | a previous experience with no fields is stored as (0, 0, 0) |
| `EmployeeModel.CurrentExperience` | models/Employee.js:77-93 | for a non-negative day count, 365*years + 30*months + days equals the count, with years >= 0, months in 0..12 and days in 0..29 |
| `EmployeeModel.CurrentExperienceEuclidean` | models/Employee.js:81-86 | for a non-negative day count t the triple is (t div 365, (t mod 365) div 30, (t mod 365) mod 30) |
| `EmployeeModel.CurrentMonthsTwelve` | models/Employee.js:84-86 | months is 12 exactly when the remainder after whole years is 360 to 364 |
| `EmployeeModel.CurrentExperienceRoundTrip` | models/Employee.js:83-86 | every triple with non-negative years, months and days, days <= 29 and 30*months + days <= 364 is the decomposition of its own day count |
| `EmployeeModel.CurrentExperienceFutureJoining` | models/Employee.js:83-86 | a negative day count gives negative years, months in -13..0 and days in -29..0 |
| `EmployeeModel.CurrentExperienceOneDayAhead` | models/Employee.js:83-86 | a day count of -1 gives (-1, -1, -1), which does not add back up to -1 |
| `EmployeeModel.CurrentExperienceAddsUp` | models/Employee.js:81-86 | 365*years + 30*months + days equals the day count exactly when the count is non-negative or a multiple of 365 |
| `EmployeeModel.Normalized` | models/Employee.js:104-114 | the reference normal form of w days is normal (days < 30, months < 12) and has weight w |
| `EmployeeModel.NormalFormUnique` | models/Employee.js:104-114 | a normal triple is the normal form of its own weight, so weight and normality determine it |
| `EmployeeModel.TotalExperience` | models/Employee.js:96-121 | the carries preserve the weight (12*years + months)*30 + days and only add to years; with non-negative parts the result is normal in one pass and equals the normal form of the summed weight; below both thresholds the sums are returned unchanged; with previous (0,0,0) a normal current is returned as is and a 12-month current becomes one more year with 0 months |
| `DashboardFormat.FormatExperience` | public/js/dashboard.js:465-475 | the early "N/A" return, the conditional pushes and the `\|\| 'N/A'` fallback compute the rendering `Formatted` |
| `DashboardFormat.Join` | public/js/dashboard.js:474 | `parts.join(sep)` starts with the first part |
| `DashboardFormat.Phrase` | public/js/dashboard.js:471-473 | a component starts with its count's numeral followed by a space (the unit and its plural "s" are stated by `PhraseSingular`) |
| `DashboardFormat.Shown` | public/js/dashboard.js:470-473 | at most one phrase per component, and no phrase at all exactly when no component is positive |
| `DashboardFormat.Formatted` | public/js/dashboard.js:465-475 | the rendering is either "N/A" or a text that starts with a digit |
| `DashboardFormat.ShownComponents` | public/js/dashboard.js:470-473 | the shown phrases are those of the positive components, years, then months, then days |
| `DashboardFormat.FormattedNotApplicable` | public/js/dashboard.js:466-474 | the result is "N/A" exactly when the duration is missing or no component is positive, and it is never empty |
| `DashboardFormat.PhraseSingular` | public/js/dashboard.js:471-473 | a unit is written without the plural "s" exactly when its count is 1 |
| `DashboardFormat.FormattedAllThree` | public/js/dashboard.js:470-474 | three positive components appear as years, months, days separated by ", " |
| `DashboardFormat.FormattedSingleComponent` | public/js/dashboard.js:470-474 | a duration with one positive component shows only that component |
| `DashboardFormat.FormattedSkipsZeroMonths` | public/js/dashboard.js:470-474 | a non-positive middle component drops out together with its separator |
| `DashboardFormat.FormattedYearsMonths` | public/js/dashboard.js:470-474 | years and months without days give two phrases and one separator |
| `DashboardFormat.FormattedMonthsDays` | public/js/dashboard.js:470-474 | months and days without years give two phrases and one separator |
| `DashboardFormat.FormattedOneDay` | public/js/dashboard.js:470-474 | (0, 0, 1) renders as "1 day" |
| `DashboardFormat.FormattedYearsAndMonth` | public/js/dashboard.js:470-474 | (2, 1, 0) renders as "2 years, 1 month" |
| `DashboardFormat.FormattedMonthAndDays` | public/js/dashboard.js:470-474 | (0, 1, 15) renders as "1 month, 15 days" |
| `DashboardFormat.FormattedNothingPositive` | public/js/dashboard.js:466-474 | (0, 0, 0) and (-1, 0, -3) render as "N/A" |
| `EmployeeRoutes.StripBearerPrefixed` | routes/employees.js:8 | a header "Bearer " + t yields the token t |
| `EmployeeRoutes.StripBearer` | routes/employees.js:8 | `replace('Bearer ', '')` shortens the header by exactly the prefix's length or not at all, and a header it does not shorten is returned unchanged |
| `EmployeeRoutes.StripBearerFirst` | routes/employees.js:8 | when the header is shortened, the first occurrence of "Bearer " has been cut out, wherever it is in the header |
| `EmployeeRoutes.StripBearerKeeps` | routes/employees.js:8 | when the header comes back whole, "Bearer " occurs nowhere in it |
| `EmployeeRoutes.StripBearerAbsent` | routes/employees.js:8 | a header that does not contain "Bearer " is taken whole as the token |
| `EmployeeRoutes.StripBearerEmpty` | routes/employees.js:8-10 | the token is empty exactly for the headers "" and "Bearer " |
| `EmployeeRoutes.Authenticate` | routes/employees.js:7-21 | a request is let through exactly when the stripped token is non-empty and the verifier accepts it, with the claims of that token; every refusal is 401 |
| `EmployeeRoutes.NoTokenRejected` | routes/employees.js:8-12 | "No token" is answered exactly for a missing header, "" and "Bearer " |
| `EmployeeRoutes.Lower` | routes/employees.js:113-119 | lower-casing keeps the length and maps each character |
| `EmployeeRoutes.LowerIdempotent` | routes/employees.js:113-119 | lower-casing twice is lower-casing once |
| `EmployeeRoutes.Redacted` | routes/employees.js:53-59 | `select('-password')`: the response has no password and every other field of the record |
| `EmployeeRoutes.EmptyPatchKeepsRecord` | routes/employees.js:160-168 | a body that supplies no field leaves the record unchanged |
| `EmployeeRoutes.EmptyStringClearsOnlyQualifications` | routes/employees.js:160-164 | an empty string clears a qualification but does not overwrite the name |
| `EmployeeRoutes.ApplyPatch` | routes/employees.js:160-168 | name, designation and dates are overwritten only by a truthy value; qualifications and photo by any supplied value; previous experience whenever supplied, as the schema stores it; employeeId, email, password and createdBy never change |
| `EmployeeRoutes.PatchKeepsValid` | routes/employees.js:149-170 | a patched record keeps the schema bounds and the uniqueness of employeeId |
| `EmployeeRoutes.EmployeeStore.ListEmployees` | routes/employees.js:24-46 | only the admin role gets the collection (every record, without password); everyone else gets 403 |
| `EmployeeRoutes.EmployeeStore.GetById` | routes/employees.js:49-75 | a record is returned exactly when it exists and the caller is admin or its owner by email; otherwise 404 |
| `EmployeeRoutes.EmployeeStore.GetByEmployeeId` | routes/employees.js:78-105 | a non-admin is refused with 403 unless the token's employeeId is the path's; 404 exactly when no record has that employeeId; otherwise a record with that employeeId |
| `EmployeeRoutes.EmployeeStore.GetByEmail` | routes/employees.js:108-135 | a non-admin is refused with 403 unless the token's email is the lower-cased path email; 404 exactly when no record has that email; otherwise a record with that email |
| `EmployeeRoutes.EmployeeStore.UpdateEmployee` | routes/employees.js:138-179 | 404 for a missing record before any permission check; 403 unless admin or owner by email; 500 for a previous experience outside the schema bounds; on failure the store is unchanged; on success only that record changes, by the field rules, and the invariant is kept |
| `EmployeeRoutes.EmployeeStore.DeleteEmployee` | routes/employees.js:182-200 | 403 for a non-admin, 404 for a missing id, otherwise exactly that record is removed |
| `EmployeeRoutes.EmployeeStore.Handle` | routes/employees.js:7-21 | a request that `auth` refuses gets its 401 and changes nothing; an accepted request reaches its route's handler with the decoded claims: each route succeeds exactly under its handler's role and ownership conditions and then returns that handler's reply (the redacted listing, the redacted record, the deletion message); a refusal carries the handler's own code (403 for the role check, 404 for a missing record, 500 for a PUT that fails the bounds check); PUT changes only the patched record, DELETE removes exactly that record, and a failed PUT or DELETE leaves the store unchanged |
| `AdminRoutes.ParseUnsigned` | routes/admin.js:14-15 | parseInt's digit reading is NaN exactly when no digit of the radix comes first (a hexadecimal one after "0x" or "0X", a decimal one otherwise) |
| `AdminRoutes.SkipSpaces` | routes/admin.js:14-15 | `parseInt` drops exactly the leading run of white space: what remains is a suffix of the text that does not start with white space |
| `AdminRoutes.LeadingSpace` | routes/admin.js:14-15 | a leading white-space character does not change what `parseInt` reads |
| `AdminRoutes.JsParseInt` | routes/admin.js:14-15 | `parseInt(s)` is NaN exactly when the text after leading white space and an optional sign has no digit of the radix chosen by an optional "0x"/"0X" prefix; otherwise its magnitude is what those digits read as, and it is negative only after a minus sign |
| `AdminRoutes.MinusSign` | routes/admin.js:14-15 | after a minus sign parseInt negates what the digits read as |
| `AdminRoutes.ParseUnsignedNumeral` | routes/admin.js:14-15 | parseInt's digit reading returns n for the numeral of n followed by text that does not start with a digit (nor, when n is 0, with x or X) |
| `AdminRoutes.ParseIntNumeral` | routes/admin.js:14-15 | `parseInt` of a numeral, optionally followed by text that does not start with a digit (nor, when the numeral is "0", with x or X), is its value |
| `AdminRoutes.ParseIntNegative` | routes/admin.js:14-15 | a leading minus sign negates the value |
| `AdminRoutes.ParseIntNaN` | routes/admin.js:14-15 | "" and "abc" parse to NaN |
| `AdminRoutes.ParseIntTrailingText` | routes/admin.js:14-15 | " 12abc" parses to 12 |
| `AdminRoutes.ParseIntTrailingX` | routes/admin.js:14-15 | "12x" parses to 12: an "x" after a non-zero numeral is not a hexadecimal prefix |
| `AdminRoutes.ParseIntHex` | routes/admin.js:14-15 | "0x1A" parses to 26 |
| `AdminRoutes.ParsedOr` | routes/admin.js:14-15 | `parseInt(v) \|\| d` is the parsed value when that is a number other than 0, and the default otherwise (a missing parameter, NaN, or 0), so it is never 0 for a non-zero default |
| `AdminRoutes.ListingOf` | routes/admin.js:14-20 | page and limit are `parseInt(..) \|\| 1` and `parseInt(..) \|\| 10` of the query, so never 0; skip is (page-1)*limit; sortOrder is 1 exactly for "asc" and -1 otherwise; search defaults to "" and sortBy to "createdAt" |
| `AdminRoutes.ListingDefaults` | routes/admin.js:14-20 | an empty query lists page 1 with 10 users, skip 0, sorted by createdAt descending |
| `AdminRoutes.ParsedOrNumeral` | routes/admin.js:14-15 | a positive numeral is taken at its value |
| `AdminRoutes.ListingOfNumerals` | routes/admin.js:14-16 | numeral page p and limit l give page p, limit l and skip (p-1)*l |
| `AdminRoutes.ListingZeroPage` | routes/admin.js:14-16 | a page of "0" or "-0" falls back to page 1 and skip 0 |
| `AdminRoutes.ParseIntZero` | routes/admin.js:14-15 | "0" and "-0" both parse to zero, so `|| 1` replaces them |
| `AdminRoutes.TotalPages` | routes/admin.js:42 | `Math.ceil(total / limit)`: with a positive limit, (pages-1)*limit < total <= pages*limit for total > 0, and pages is 0 exactly when total is 0; with a negative limit (a negative `limit` query), pages <= 0 and pages*limit <= total < (pages-1)*limit |
| `AdminRoutes.DashboardStats` | routes/admin.js:248-266 | totalUsers - activeUsers is the number of inactive users, between 0 and the total |
| `AdminRoutes.Redacted` | routes/admin.js:57-58 | responses lack the password and keep every other field of the user (the password-reset fields the query also drops are not part of the modelled user) |
| `AdminRoutes.UsernameTaken` | routes/admin.js:144-148 | a clash on a truthy new username means another user already has it |
| `AdminRoutes.EmailTaken` | routes/admin.js:151-155 | a clash on a truthy new email means another user already has it |
| `AdminRoutes.Registered` | routes/admin.js:93-96 | the `$or` query finds a user exactly when some user has the email or some user has the username |
| `AdminRoutes.UserPatchKeepsValid` | routes/admin.js:143-168 | a patch that passed the clash checks keeps usernames and emails unique |
| `AdminRoutes.UserStore.Dashboard` | routes/admin.js:246-275 | active plus inactive is the total, and the inactive count is the number of inactive users |
| `AdminRoutes.UserStore.GetUser` | routes/admin.js:55-72 | a user is returned, without password, exactly when it exists; otherwise 404 |
| `AdminRoutes.UserStore.CreateUser` | routes/admin.js:77-117 | 400 for invalid input or an existing username or email; otherwise exactly the new user is added, which keeps both unique |
| `AdminRoutes.UserStore.UpdateUser` | routes/admin.js:122-184 | the checks run in order: validation, existence, username clash, email clash, self-deactivation; any failure leaves the store unchanged; on success username, email, password and role change only when truthy and isActive only when a boolean is supplied, and no other user changes |
| `AdminRoutes.UserStore.DeleteUser` | routes/admin.js:189-210 | 404 for a missing user, 400 for the caller's own account, otherwise exactly that user is removed |
| `AdminRoutes.UserStore.ToggleStatus` | routes/admin.js:215-241 | 404 for a missing user, 400 for the caller's own account, otherwise only that user's isActive is negated |
| `AdminRoutes.UserStore.ToggleTwice` | routes/admin.js:227 | toggling another user's status twice restores the collection |

## Left out

- The `age` virtual (models/Employee.js:72-74) is derived by the date library from the date of birth, and is not modelled.
- The day count `now.diff(joining, 'days')` (models/Employee.js:78-81) is a parameter of `CurrentExperience` and `TotalExperience`, because the clock and calendar arithmetic belong to the date library. Stored dates are kept as the text the client sent.
- `recalculateExperience` and the `save` after each read (routes/employees.js:35-36,67-68,97-98,127-128) are treated as no-ops. The method is not defined in models/Employee.js, so as the code stands each of those calls throws a TypeError and the handler's catch answers 500 instead of the record; the model's successful GET replies assume the method exists and changes nothing.
- The `Promise.all` over all employees (routes/employees.js:33-39) is concurrency. The listing returns the whole map at once.
- Token verification (`jwt.verify`) is a function parameter of `Authenticate`. The admin middleware (`middleware/auth.js`) is not part of this model: the admin handlers take the caller's id as already authenticated.
- Body validation by express-validator (routes/admin.js:79-82,124-128) is a boolean parameter, `inputValid`. It yields a 400 whose message in the model is a placeholder for the validator's error list.
- Password hashing in the User model's pre-save hook (routes/admin.js:166), and the User schema itself (`models/User.js` is not part of this model), are left out. A new user's `isActive` default is a parameter of `CreateUser`.
- The database's `findOne` returns any matching record. The model picks an arbitrary match.
- The search regex, sorting, skip and limit of the user query (routes/admin.js:22-38) and the recent-records lists of the dashboard (routes/admin.js:251-259) are database work, and are not modelled. `ListingOf` and `TotalPages` model the values passed to it and returned from it.
- Previous-experience components, and the triples computed from them, are integers in the model. The schema fields are `Number` with only min/max bounds (models/Employee.js:44-60), so fractions such as `years: 2.5` are accepted, pass through the carries at models/Employee.js:100-114 and render as "2.5 years"; fractional values are not modelled.
- Mongoose string trimming and type casting on assignment, `required` validation, and the 500 replies for exceptions other than the previous-experience bounds are not modelled.
- Handlers are modelled as running one at a time. The code awaits between its clash checks and the save (routes/admin.js:93-106, 144-170), so two concurrent requests could both pass the checks and break the uniqueness the model keeps.
- A `null` body value is not modelled: body fields are either supplied strings or absent.
- `EmployeeRoutes.Lower`: lower-cases ASCII letters only, because JavaScript's full Unicode case mapping is not modelled.
- `AdminRoutes.JsParseInt`: knows only the white-space characters space, tab, LF, CR, VT, FF, NBSP and BOM. It reads integers exactly, without the double-precision rounding of very long numerals.
- `Numerals.NatToString`: writes every count in plain decimal; JavaScript switches to exponent notation from 1e21.
- `EmployeeRoutes.ApplyPatch`: a supplied previous experience fills missing fields with the schema default 0. The save-time bounds check comes before the record is written, which has the same observable effect as a failed save.
- The remaining scripts and browser code (routes/auth.js, seeding and database check scripts, the rest of public/js/) are registration, login and DOM glue outside the modelled core.
