# Repair marketplace backend — a Dafny model of the request/quote lifecycle

This project models the core of a Flask backend for a repair marketplace. Clients post
repair requests, repairers answer with quotes, and the client accepts one quote. Admins
moderate users and requests. Accounts register, log in and edit their profile.

- **Tables.** The database tables are sequences of rows held by a `Store` object
  (`database.dfy`); the Flask session is a `Session` object.
- **Route handlers.** Each handler is a method that changes only the tables it names.
- **Decisions.** Every handler's answer is a pure decision function. It keeps the checks
  in the order the code makes them, and the method is proved to return exactly that
  answer.
- **Errors.** On an error status the tables are unchanged; a successful handler
  commits all of its writes at once.
- **Table constraints.** Every method keeps `Store.Valid()`:
  - ids, usernames and emails are unique;
  - ids stay below the id counters;
  - a request has at most one accepted quote;
  - an `accepted_quote_id` always names an accepted quote of its own request.

Files, one module each:

| file | module | models |
|---|---|---|
| `common.dfy` | `Common` | `Option`; Python `strip`/`lower`; SQL `ILIKE '%x%'`; `filter(...).order_by(created_at.desc())` |
| `models.dfy` | `Models` | `user.py`: rows, defaults, uniqueness, password hash, `to_dict` projections |
| `database.dfy` | `Database` | the store, the session, the cross-table constraints and the single-row writes that keep them |
| `repairs.dfy` | `Repairs` | `repairs.py`: listing, JSON request creation, quotes, acceptance, own requests/quotes |
| `uploads.dfy` | `RepairUploads` | `src/routes/repairs.py`: multipart request creation with a photo, own requests |
| `admin.dfy` | `Admin` | `src/routes/admin.py`: admin gate, dashboard, listings, status overrides, delete by email |
| `auth.dfy` | `Auth` | `src/routes/auth.py`: email check, register, login, logout, current user, profile |

Behaviour of the code that a reader might not expect, and that the model keeps:

- **Price conversion.** A quote's price becomes cents by truncation toward zero (`int(price * 100)`), not by rounding to nearest. In the model a price is an exact decimal, and with at most two decimals the truncation loses nothing (`ToCentsExact`). The program multiplies a float, which can lose a cent (see `Repairs.ToCents` under Left out).
- **Second quote.** A request leaves `open` on its first quote, and a quote can only be submitted while the request is `open`. So a second quote on the same request is refused with 400 (`SecondQuoteRefused`): a second repairer can never quote a `quoted` request.
- **Missing rows give 500, not 404.** A missing quote or request, or a missing user in the admin status override, is looked up by `get_or_404` inside `try: ... except Exception`. The not-found error is itself an `Exception`, so the handlers answer 500. The one exception is `get_repair_request`, whose own `except` clause answers 404.
- **`updated_at`.** The column is declared with `onupdate`, so creating a quote and accepting a quote both refresh the request's `updated_at`.
- **Deleting a user who owns rows.** `delete_user_by_email` deletes the user without a cascade. When that user still owns requests or quotes, their non-null owner column would have to be cleared, so the commit fails and the handler answers 500 with nothing deleted.

`src/routes/repairs.py` imports its tables from `src/models/user.py`, which is not part of this model; it is taken to declare the same tables as `user.py`.

## Model

| member | source | states |
|---|---|---|
| Common.Strip | src/routes/repairs.py:55-58 | the result is empty exactly when the text is all whitespace; otherwise it is the slice after the leading whitespace, starts and ends with non-whitespace, and everything after it is whitespace |
| Common.LastIndexOf | src/routes/repairs.py:71 | the position of the last occurrence of the character, with none after it; None exactly when it does not occur |
| Common.IndexOf | src/routes/auth.py:9-11 | the position of the first occurrence of the character, with none before it; None exactly when it does not occur |
| Common.Filter | repairs.py:20-36 | `query.filter(p)`: each row occurs in the result as often as in the table if it satisfies `p`, and not at all otherwise |
| Common.Count | src/routes/admin.py:35 | `query.filter(p).count()`: the length of the filtered table, so zero exactly when no row satisfies `p` |
| Common.OrElse | src/routes/admin.py:249-251 | Python `a or b`: the first value when it is a non-empty string, else the second |
| Common.Query | repairs.py:38 | `filter(p).order_by(created_at.desc()).all()`: newest first, and each row occurs as often as in the table if it satisfies `p`, else not at all |
| Models.HashPassword | user.py:25-26 | `set_password` keeps the salt and stores a hash that the password checks against |
| Models.CheckPasswordIff | user.py:25-29 | after `set_password(p)`, `check_password(q)` holds exactly when `q == p`; only the digest is stored |
| Models.NewUser | user.py:7-19 | a new user has role `client`, status `active`, no `verified_at` |
| Models.NewRequest | user.py:49-66 | a new request is `open`, `public`, has no accepted quote, and `created_at == updated_at` |
| Models.NewQuote | user.py:98-107 | a new quote is `pending`, location `domicile`, price in integer cents |
| Models.FindUser | user.py:8 | `User.query.get`: the row with that id, the first such; None when no row has it |
| Models.FindUserByEmail | src/routes/auth.py:29 | `filter_by(email=...).first()`: the first row with that email; None when there is none |
| Models.FindUserByUsername | src/routes/auth.py:32 | `filter_by(username=...).first()`: the first row with that username; None when there is none |
| Models.FindRequest | repairs.py:126 | the first request with that id; None when there is none |
| Models.FindQuote | repairs.py:176 | the first quote with that id; None when there is none |
| Models.QuoteCount | user.py:94 | the length of the quote table filtered to the request's quotes; zero exactly when none points to it |
| Models.UserToDict | user.py:34-47 | exactly the eleven public keys; `password_hash` is never among them |
| Models.OwnerToDict | user.py:95 | the owner's projection, or null exactly when no user has that id |
| Models.RequestColumns | user.py:75-91 | the column keys of the projection, with the status and the client id copied |
| Models.RequestToDict | user.py:75-96 | the listed keys; `quotes_count` is the request's quote count; `client` is the owner's projection |
| Models.QuoteToDict | user.py:112-124 | the listed keys; the price stays in cents; `repairer` is the owner's projection |
| Models.ImageToDict | user.py:133-141 | the five image keys with the stored url |
| Database.Session.Clear | src/routes/auth.py:97 | `session.clear()` removes both session keys |
| Database.Store.constructor | user.py:5 | an empty database satisfies every table constraint |
| Database.AppendQuoteKeeps | repairs.py:138-147 | inserting a non-accepted quote keeps "at most one accepted per request" and the accepted links |
| Database.AppendRequestKeepsTables | repairs.py:63-79 | inserting a request under the next id, without an accepted quote, keeps every table constraint |
| Database.AppendUserKeepsTables | user.py:8-10 | inserting a user under the next id with a fresh email and username keeps ids, usernames and emails unique |
| Database.ReplaceUserKeepsTables | user.py:9-10 | rewriting a user with the same id and email, and a username no other user holds, keeps uniqueness |
| Database.RemoveAt | src/routes/admin.py:264 | the table minus one row: the others in order, the multiset reduced by exactly that row |
| Database.RemoveUserKeepsTables | src/routes/admin.py:264-265 | deleting a user keeps every table constraint |
| Database.ReplaceRequestKeepsTables | src/routes/admin.py:190-193 | rewriting a request with the same id and accepted quote keeps every table constraint |
| Database.UpdateRequestKeepsLinks | repairs.py:149-153 | rewriting a request without touching its id or accepted quote keeps the accepted links |
| Database.AppendRequestKeepsLinks | repairs.py:78-79 | inserting a request without an accepted quote keeps the accepted links |
| Repairs.ListRequests | repairs.py:12-43 | exactly the requests matching every active filter, each as often as in the table, newest first, and `total` is their number |
| Repairs.ListingFilters | repairs.py:14-27 | without a status parameter only `open` requests are listed; a status other than `all`, or a category other than empty or `all`, admits only equal rows |
| Repairs.ListAllIsEveryRequest | repairs.py:26-27 | with status `all` and no other filter, every request is listed |
| Repairs.MissingField | repairs.py:57-60 | names the first of title, description, category, city that is absent or empty, in that order; None exactly when all four are present |
| Repairs.RequestFromInput | repairs.py:63-76 | the new row is owned by the session user, `open`, with visibility as given or `public`; every other field, subcategory, address and both budget bounds included, copies the input |
| Repairs.CreateRepairRequest | repairs.py:49-79 | 401 without a session, 400 on a missing field with no row created, else 201 with exactly that row appended |
| Repairs.GetRepairRequest | repairs.py:108-113 | 404 exactly when no request has that id, else 200 with its projection |
| Repairs.Pow10 | repairs.py:141 | the scale factor of a decimal amount is at least one, exceeds the number of decimals, and is a multiple of ten exactly when there are decimals |
| Repairs.TruncDiv | repairs.py:141 | truncating division keeps the sign of the dividend, and a dividend smaller than the divisor in magnitude gives 0 |
| Repairs.TruncDivBounds | repairs.py:141 | Python `int()` of a quotient truncates toward zero: never overshoots, short by less than one unit, on both signs |
| Repairs.DivBounds | repairs.py:141 | quotient-remainder bounds of natural division |
| Repairs.ToCents | repairs.py:141 | the cents have the sign of the price; a price below one cent in magnitude gives 0 |
| Repairs.ToCentsTruncates | repairs.py:141 | the stored cents never exceed the price in magnitude and fall short by less than one cent |
| Repairs.ToCentsExact | repairs.py:141 | with at most two decimals the cents are exact, so dividing by 100 gives the price back |
| Repairs.QuoteDecision | repairs.py:117-135 | 401 iff no session; 500 iff the session user is missing, or may quote and the request is missing; 403 iff the user exists with a role other than repairer/admin; 400 iff the user may quote, the request exists, and it is not `open` or price or duration is falsy; 201 otherwise |
| Repairs.QuoteFromInput | repairs.py:138-145 | the new quote is `pending`, with price = truncated cents, conditions `''` and location `domicile` by default |
| Repairs.AfterQuote | repairs.py:149-153 | only the quoted request changes, and in it only `status`, now `quoted`, and `updated_at`, now refreshed; every other column stays as it was |
| Repairs.FindRequestAfterUpdate | repairs.py:150-151 | rewriting the found request under its own id leaves the lookup unchanged |
| Repairs.SecondQuoteRefused | repairs.py:128-129 | after one successful quote, every later quote on that request is refused, with 400 for any repairer or admin |
| Repairs.CreateQuote | repairs.py:116-153 | answers `QuoteDecision`; on 201 the quote is appended and the request moves `open` to `quoted`, otherwise nothing changes; the table constraints hold |
| Repairs.AcceptDecision | repairs.py:172-181 | 401 iff no session; 500 iff the quote or its request is missing; 403 iff both exist and the caller is not the request's client; 200 iff the caller is |
| Repairs.Swept | repairs.py:184-191 | every quote after the acceptance: the target accepted, its siblings rejected, the rest as before |
| Repairs.SweepLeavesOneAccepted | repairs.py:184-191 | after the sweep the target is the only accepted quote of its request, every sibling is rejected, other requests' quotes are untouched |
| Repairs.AcceptanceMoves | repairs.py:184-191 | with no status guard, accepting a second sibling rejects the first and leaves only the second accepted |
| Repairs.SweepKeepsTables | repairs.py:184-193 | the sweep plus recording the quote on the request keeps every table constraint |
| Repairs.AcceptQuote | repairs.py:171-193 | answers `AcceptDecision`; on 200 the loop's result is the sweep and the request becomes `accepted` with `accepted_quote_id` set; otherwise nothing changes |
| Repairs.MyRequests | repairs.py:211-219 | 401 iff no session; otherwise exactly the caller's requests, newest first |
| Repairs.MyQuotes | repairs.py:224-232 | 401 iff no session; otherwise exactly the caller's quotes, newest first |
| RepairUploads.RequireLogin | src/routes/repairs.py:36-42 | 401 exactly when there is no session user id or that user no longer exists; otherwise the user's row |
| RepairUploads.Extension | src/routes/repairs.py:71 | `""` when the name has no dot; otherwise the lower-cased text after the last dot, which contains no dot |
| RepairUploads.StoredName | src/routes/repairs.py:82 | the saved name is the token, a dot and the extension |
| RepairUploads.PublicPath | src/routes/repairs.py:87 | the public path is `/static/uploads/` followed by the saved name; the handler computes it but neither stores nor returns it |
| RepairUploads.ExtensionOfStoredName | src/routes/repairs.py:71-82 | the extension read back from a stored name is the checked extension |
| RepairUploads.Field | src/routes/repairs.py:55-58 | a field counts as missing exactly when it is absent or all whitespace |
| RepairUploads.UploadDecision | src/routes/repairs.py:62-78 | in order: blank field 400; missing photo or empty file name as sent 400; extension of the sanitised name outside jpg/jpeg/png/webp 415; declared length above 3·1024·1024 + 512000 413 (an absent or zero length skips this); else 201 |
| RepairUploads.SanitisedAwayIs415 | src/routes/repairs.py:66-73 | a non-empty name that sanitising empties passes the photo check and is refused with 415 |
| RepairUploads.UploadStatus | src/routes/repairs.py:50-52 | the login gate's 401 comes before the validation |
| RepairUploads.UploadStatusAsWritten | src/routes/repairs.py:90-99 | as written the handler never answers 201: every form that passes the checks gets 500 |
| RepairUploads.PngUploadPasses | src/routes/repairs.py:62-78 | a complete form with a PNG photo and no length header passes every check |
| RepairUploads.UploadAsWrittenRefusesValidForm | src/routes/repairs.py:90-99 | a logged-in user with such a form gets 201 from the intended handler and 500 as written |
| RepairUploads.UploadedRequest | src/routes/repairs.py:90-107 | the new row holds the stripped fields, is owned by the user, is `open`, has the budget in both budget columns and `created_at == updated_at` |
| RepairUploads.CreateRequest | src/routes/repairs.py:49-118 | with the owner in `client_id`: on 201 the photo is saved as `<token>.<ext>` and the row appended; otherwise nothing is saved or inserted |
| RepairUploads.CreateRequestAsWritten | src/routes/repairs.py:80-99 | as written: once the checks pass the photo is saved, then the handler answers 500 and the request table is not written |
| RepairUploads.MyRequestsStatusAsWritten | src/routes/repairs.py:153-157 | as written every logged-in call answers 500 |
| RepairUploads.MyRequestsAsWrittenFails | src/routes/repairs.py:157 | an existing user calling `my_requests` passes the login gate and still gets 500 |
| RepairUploads.RequestDicts | src/routes/repairs.py:159-161 | one entry per row, in order, each the row's `to_dict` |
| RepairUploads.RequestDictsSnoc | src/routes/repairs.py:159-161 | appending one row's projection extends the projected list by exactly that entry |
| RepairUploads.Dicts | src/routes/repairs.py:158-161 | the loop yields one `to_dict` entry per row, in order |
| RepairUploads.MyRequestItems | src/routes/repairs.py:152-170 | with the owner in `client_id`: 401 from the login gate, else 200 and one entry per request of the caller, newest first |
| Admin.RequireAdmin | src/routes/admin.py:8-16 | 401 iff no session user id; 403 iff that user is missing or not an admin; otherwise an admin's row |
| Admin.StatusCount | src/routes/admin.py:35 | the number of requests with that status: the length of the table filtered by status; zero exactly when no request has it |
| Admin.RoleCount | src/routes/admin.py:42 | the number of users with that role: the length of the table filtered by role; zero exactly when no user has it |
| Admin.ListedCount | src/routes/admin.py:33-36 | the number of requests whose status is among the six listed, at most the number of requests |
| Admin.ByStatusSum | src/routes/admin.py:27-36 | the six per-status counts add up to the listed requests, which exclude `rated` and `draft`, so the breakdown can fall short of `total_requests` |
| Admin.StatusIndicators | src/routes/admin.py:33 | a status is at most one of the six listed ones, and a listed status is never `rated` or `draft` |
| Admin.CountPerKey | src/routes/admin.py:32-43 | the map's keys are exactly the listed statuses (or roles), each holding its count |
| Admin.Dashboard | src/routes/admin.py:20-64 | the gate's code or 200; the three totals; a count for exactly the six statuses and three roles; the rows created in the last seven days |
| Admin.AdminUsers | src/routes/admin.py:71-92 | after the gate, exactly the users matching the non-empty role and status filters, newest first |
| Admin.AdminRequests | src/routes/admin.py:139-160 | after the gate, exactly the requests matching the non-empty status and category filters, newest first |
| Admin.AdminQuotes | src/routes/admin.py:206-223 | after the gate, exactly the quotes matching the non-empty status filter, newest first |
| Admin.AdminSeesEveryUser | src/routes/admin.py:82-90 | without filters the admin listing holds every user |
| Admin.UserStatusDecision | src/routes/admin.py:106-119 | the gate first; then 500 iff the target is missing; 400 iff it exists and the status is absent or not one of active, suspended, pending_verification; 200 iff it is one of them |
| Admin.WithStatus | src/routes/admin.py:121-124 | the new status; `verified_at` set to now on activation only when unset, never overwritten or cleared; no other column changes |
| Admin.VerifiedAtIsSticky | src/routes/admin.py:123-124 | over any run of overrides a set `verified_at` never changes, and any activation leaves it set |
| Admin.UpdateUserStatus | src/routes/admin.py:106-126 | answers `UserStatusDecision`; on 200 only the target row changes, by `WithStatus` |
| Admin.RequestStatusDecision | src/routes/admin.py:174-202 | the gate first; then 500 iff the request is missing (`get_or_404` inside the `try`); 400 iff it exists and the status is absent or not one of the seven listed; 200 iff it is one of them, whatever the current status; `draft` is refused |
| Admin.UpdateRequestStatus | src/routes/admin.py:174-193 | answers `RequestStatusDecision`; on 200 only the target request changes: new status, `updated_at` refreshed |
| Admin.NormalizedEmail | src/routes/admin.py:248 | the stripped email with each ASCII capital replaced by its small letter and every other character kept; empty iff the email is absent or blank; no ASCII capital remains |
| Admin.DeleteDecision | src/routes/admin.py:246-266 | 403 iff no token is configured or the presented one differs, checked before the email; then 400 for an empty email, `absent` when no user has it, 500 when the user owns rows, else the deletion of that user |
| Admin.NoTokenConfigured | src/routes/admin.py:251-253 | with neither token configured, or both empty, everyone is refused |
| Admin.DeletionRemovesExactlyOne | src/routes/admin.py:264 | the deletion removes exactly the matched row; with unique emails no user with that email remains |
| Admin.DeleteUserByEmail | src/routes/admin.py:245-266 | answers `DeleteDecision`; only a deletion changes the user table, removing exactly that row |
| Auth.ShapedIff | src/routes/auth.py:9-11 | the check that takes the first `@` and the last dot accepts exactly the strings of the form `local@domain.tld` |
| Auth.ValidateEmail | src/routes/auth.py:9-11 | `validate_email` accepts exactly the regular expression's matches, one trailing newline included |
| Auth.RegisterCheck | src/routes/auth.py:19-33 | each refusal holds exactly when the earlier checks pass and its own fails, in the order missing fields, bad email format, password under 6, email taken, username taken; success iff all pass |
| Auth.RegisteredUser | src/routes/auth.py:36-44 | the new user has the given role (any string, `client` when absent), city/bio/phone defaulting to `''`, status `active`, and a hash that accepts the password |
| Auth.Register | src/routes/auth.py:14-57 | answers `RegisterCheck`; on success exactly one user is appended and the session holds its id and role; otherwise nothing changes |
| Auth.LoginDecision | src/routes/auth.py:73-82 | 400 iff a field is missing; 401 iff the email is unknown or the password is wrong; suspension is checked only after the credentials pass; success names the matched user |
| Auth.Login | src/routes/auth.py:69-85 | on success the session holds the user's id and role; on a refusal the session is unchanged |
| Auth.RegisterThenLogin | src/routes/auth.py:36-85 | a user who has just registered logs in with the same email and password |
| Auth.Logout | src/routes/auth.py:96-98 | the session is emptied |
| Auth.GetCurrentUser | src/routes/auth.py:101-110 | 401 without a session; a missing user clears the session and gives 404; otherwise 200 with the user's projection |
| Auth.ProfileDecision | src/routes/auth.py:114-129 | 401 iff no session; 404 iff the user is missing; 400 iff the requested username belongs to another user |
| Auth.Profiled | src/routes/auth.py:125-139 | username, city, bio and phone change only when given; the role changes only to `client` or `repairer`; email, status and password never change |
| Auth.ProfileGrantsNoAdmin | src/routes/auth.py:138-139 | a profile update never turns a user into an admin |
| Auth.ProfileKeepsUsernamesUnique | src/routes/auth.py:125-130 | an accepted update leaves the new username held by no other user |
| Auth.UpdateProfile | src/routes/auth.py:113-141 | answers `ProfileDecision`; on 200 only the caller's row changes, by `Profiled`; the table constraints hold |

## Left out

- E-mail notifications (welcome, new request, new quote, acceptance, admin alerts) are SMTP I/O. They are sent after the commit and their failures are swallowed, so they do not affect state. They are not modelled.
- Exceptions not named above are not modelled, and neither are their 500 answers. These include a missing or non-JSON body and JSON values that are not strings (for example a numeric `title` or a `null` role), or a price that is not a number (a price sent as the string `"45.5"` makes `int(price * 100)` raise, so the program answers 500 where the model's decimal price gives 201).
- Float handling is not modelled:
  - `_parse_budget`: the upload handler's budget is taken as an already parsed integer parameter;
  - the `latitude`/`longitude` columns and their `to_dict` keys.
  - Repairs.ToCents: a price is an exact decimal `Decimal(digits, scale)`, so the float rounding of `price * 100` is not reproduced; the truncation is. The program can lose a cent: `0.29 * 100` is `28.999999999999996` as a float and is stored as 28.
- Pagination (`paginate`, `pages`, `current_page`) is not modelled. The admin listings return the whole filtered, ordered list.
- `ILIKE`: the `%` and `_` wildcards inside user input are not interpreted, and lower-casing covers ASCII letters only.
- Admin.NormalizedEmail: lowers ASCII capitals only. Python's `lower()` also folds other letters (U+212A KELVIN SIGN becomes `k`), so such an address can delete a user the model answers `absent` for.
- `secure_filename` is not modelled: the photo carries both the name as sent and its sanitised form, and the relation between them is not stated.
- `uuid4().hex` is a parameter. Saving the file is modelled as appending its name to the store's upload list.
- No `RepairImage` row is ever written by the modelled routes; only its projection is modelled.
- Timestamps are integer seconds: `datetime.utcnow()` is a `now` parameter, and ISO formatting is replaced by integers.
- Werkzeug's salted hash is replaced by an injective digest with the salt as a parameter. Only the property `check(set(p), q) <==> p == q` is relied on.
- Database.Store: user ids come from a counter that never reuses an id. SQLite hands out the largest id plus one, so after the newest user is deleted the next registration takes its id, and a session still holding that id then names the new account; the model answers 401 for such a session.
- Transaction isolation and concurrent acceptance are not modelled: each handler is a single atomic step.
- Flask/CORS/session-cookie configuration, static file serving and admin seeding are not modelled (`main.py`, `src/main.py`).
- Repairs.ListRequests: the listing is a function over the table; the SQL engine's order among rows with equal `created_at` is not fixed.

## Findings

| source | as written | input that shows it | evidently intended | confidence | as-written member | corrected member |
|---|---|---|---|---|---|---|
| src/routes/repairs.py:90-99 | the row is built with a `user_id=` keyword that the request table does not declare (the owner column is `client_id`), so construction raises after the photo was saved and the handler answers 500 | a logged-in user posting title, description, category, city and a photo `f.png` with no length header | the request is created with `client_id` = the user and the answer is 201 | not executed | RepairUploads.UploadAsWrittenRefusesValidForm | RepairUploads.CreateRequest |
| src/routes/repairs.py:157 | `filter_by(user_id=...)` names a column the request table does not have, so every logged-in call answers 500 | any existing user calling `my_requests` | the caller's requests, selected by `client_id`, newest first | not executed | RepairUploads.MyRequestsAsWrittenFails | RepairUploads.MyRequestItems |
