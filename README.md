# Fujitsu Incident/SLA tracker: the request-handling rules, verified

This project models the record-level rules of the incident tracker's four
route groups in Dafny: authentication, clients, SLAs (service-level
agreements) and incidents. It also models the database-URL rewrite done
when the application is created.

The database is a set of tables, each a `map` from row id to record held in
a class (`Auth.UserStore`, `Clients.ClientTable`, `Slas.SlaTable`,
`Incidents.IncidentTable`). Every POST handler is a method on its table.
The user table also holds the session's signed-in user.

- The client, SLA and incident handlers report a `Web.Outcome`. `Saved`
  and `Deleted` commit one well-defined change. `LoginRequired`,
  `Forbidden`, `NotFound`, `Invalid` and `Crashed` leave the table exactly
  as it was.
- The auth handlers report an `Auth.AuthOutcome`. `Registered` adds one
  user. `SignedIn` puts a user in the session and `SignedOut` clears it.
  `AlreadySignedIn`, `Rejected` and `NotSignedIn` change nothing.

Every method keeps its table's invariant `Valid()`. For the user table that
invariant includes unique e-mail addresses.

The identity Flask-Login exposes as `current_user` is a `Web.Principal`
passed to each handler: `Anonymous`, or `Member(id, isAdmin)`. The form a
request posts is a record of `Option<string>` fields, where `None` stands
for a field the browser did not send.

Modules:

- `Text` (text.dfy): `str.strip()` with Python's whitespace set, `str.lower()` and `str.startswith()`.
- `Numerals`: `int()` on a string, and `str()` of an integer as its inverse.
- `Ordering`: the `ORDER BY` of the list queries as an insertion into a listing ordered by a total preorder.
- `Web`: the principal, the outcomes and form-field reading.
- `Config`: `app/__init__.py`.
- `Auth`: `app/auth/routes.py`.
- `Clients`: `app/clients/routes.py`.
- `Slas`: `app/slas/routes.py`.
- `Incidents`: `app/incidents/routes.py`.

Two behaviours of the SLA handlers are easy to miss, and the model states
both:

- The two minute fields are read with `int(value or 0)`
  (app/slas/routes.py:21-22). Only a missing or empty field becomes 0. Any
  other value that is not a numeral, whitespace included, raises
  `ValueError`. The request then fails with HTTP 500 and nothing is
  stored. The model reports `Crashed`.
- Nothing bounds the minutes from below, so negative targets are stored
  (`Slas.NegativeTargetStored`).

## Model

| member | source | states |
|---|---|---|
| `Config.SecretKey` | app/__init__.py:21 | SECRET_KEY is "dev-key" when the variable is unset; a set value, even an empty one, is used as it is |
| `Config.NormalizeDatabaseUrl` | app/__init__.py:25-27 | a URL starting with "postgres://" becomes "postgresql://" followed by the unchanged remainder; any other URL passes through unchanged; no result starts with "postgres://" |
| `Config.DatabaseUri` | app/__init__.py:23-27 | without DATABASE_URL the URI is "sqlite:///fujitsu_incident.db"; a set URL without the legacy scheme is used verbatim; the URI never starts with "postgres://" |
| `Config.NormalizeIdempotent` | app/__init__.py:25-27 | rewriting an already rewritten URL changes nothing |
| `Text.TrimLeftDropsLeadingSpace` | app/auth/routes.py:17-18 | `lstrip` keeps a suffix of the input, and everything it drops is whitespace, up to the first non-space character |
| `Text.TrimRightDropsTrailingSpace` | app/auth/routes.py:17-18 | `rstrip` keeps a prefix of the input, and everything it drops is whitespace, back to the last non-space character |
| `Text.Strip` | app/auth/routes.py:17-18 | `strip()` leaves no whitespace at either end, and gives the empty string exactly when the input is all whitespace |
| `Text.StripCutsOnlySpace` | app/auth/routes.py:17-18 | `strip()` keeps a contiguous slice of its input and cuts off only whitespace on both sides |
| `Text.StripKeepsTrimmed` | app/auth/routes.py:17-18 | a string with no whitespace at either end is its own strip |
| `Text.StripIdempotent` | app/auth/routes.py:17-18 | stripping twice equals stripping once |
| `Text.LowerNormalizes` | app/auth/routes.py:18 | `lower()` turns each ASCII capital into its small letter (code point + 32), changes no other character, leaves no capital, and is idempotent |
| `Text.LowerKeepsTrimmed` | app/auth/routes.py:18 | lower-casing a stripped string leaves it stripped |
| `Numerals.ParseInt` | app/incidents/routes.py:15 | `int(s)` succeeds exactly when `s` holds none of U+001C..U+001F, its stripped form is an optional sign followed by digits, and there are at most 4300 digits |
| `Numerals.DigitsValueOfFormatNat` | app/incidents/routes.py:15 | the value of the decimal numeral of n is n |
| `Numerals.ParseFormatRoundTrip` | app/incidents/routes.py:15 | `int(str(n)) == n` for every integer with at most 4300 digits, negative ones included |
| `Numerals.LongNumeralRaises` | app/incidents/routes.py:15 | a numeral of more than 4300 digits raises, whatever its value |
| `Numerals.SeparatorPaddingRaises` | app/incidents/routes.py:15 | a numeral followed by U+001F raises, though `strip()` would remove that character |
| `Numerals.BlankIsNotNumber` | app/slas/routes.py:21-22 | `int()` of an empty or whitespace-only string raises |
| `Ordering.LexLeqTotal` | app/clients/routes.py:12 | any two names are comparable under the name order |
| `Ordering.LexLeqTransitive` | app/clients/routes.py:12 | the name order is transitive |
| `Ordering.LexLeqAntisymmetric` | app/clients/routes.py:12 | two names that each sort before the other are equal |
| `Ordering.ByNameIsTotalPreorder` | app/clients/routes.py:12 | ordering by name is a total preorder, so ORDER BY name is well defined up to ties |
| `Ordering.NewestFirstIsTotalPreorder` | app/incidents/routes.py:32 | ordering by creation time, newest first, is a total preorder |
| `Ordering.OrderBy` | app/incidents/routes.py:32 | the listing holds every selected row exactly once, and each row's key comes no later in the order than the keys of the rows after it |
| `Web.OrEmpty` | app/clients/routes.py:20 | `form.get(name, "")` equals `form.get(name) or ""`: the value when sent, "" otherwise |
| `Web.Field` | app/auth/routes.py:17 | `(form.get(name) or "").strip()` has no whitespace at either end and is empty exactly when the field is missing or all whitespace |
| `Web.FieldOr` | app/incidents/routes.py:60-61 | `(form.get(name) or default).strip()` is the stripped value when sent and non-empty, the default (if already stripped) otherwise; never padded |
| `Web.OrDefault` | app/incidents/routes.py:60-61 | `value or default` gives the value when present and non-empty, the default when missing or empty |
| `Auth.HashPassword` | app/auth/routes.py:33 | `set_password` stores the salt beside the digest |
| `Auth.CheckPassword` | app/auth/routes.py:53 | `check_password` passes exactly when hashing the password with the stored salt gives the stored hash |
| `Auth.HashThenCheck` | app/auth/routes.py:33 | a password always passes `check_password` against the hash `set_password` stored for it |
| `Auth.NormalizeEmail` | app/auth/routes.py:18 | the normalised address has no whitespace at either end and no ASCII capitals |
| `Auth.NormalizeEmailIdempotent` | app/auth/routes.py:49 | normalising an already normalised address at login changes nothing |
| `Auth.NextTarget` | app/auth/routes.py:61-62 | after login the redirect goes to `next` when given and non-empty, otherwise to the landing page; the path is not checked |
| `Auth.AddKeepsUnique` | app/auth/routes.py:27-35 | inserting a user under an address no one has keeps addresses unique |
| `Auth.UserStore.FindByEmail` | app/auth/routes.py:27 | the lookup finds a user with exactly that address, or reports none only when no user has it |
| `Auth.UserStore.Register` | app/auth/routes.py:10-38 | signed-in caller: nothing happens; empty name, address or password (password taken verbatim): "All fields are required." and no change; address taken: "Email is already registered." and no change; otherwise exactly one new "regular" user under a fresh id, and the session is unchanged. Address uniqueness is preserved |
| `Auth.UserStore.Login` | app/auth/routes.py:43-62 | signed-in caller: nothing happens; otherwise login succeeds iff a user with the normalised address exists and its password check passes, the session then holds that user and the redirect follows `next`; both failure causes give "Invalid email or password." and leave the session empty |
| `Auth.UserStore.Logout` | app/auth/routes.py:67-73 | with a session, logout clears it; without one, it redirects to login and changes nothing |
| `Auth.RegisterThenSignIn` | app/auth/routes.py:10-62 | a fresh registration signs in with the same credentials and lands on the landing page; registering the same address again is refused |
| `Clients.ReadClient` | app/clients/routes.py:20-22 | name, sector and contact e-mail are stored stripped and otherwise unchecked; the name is empty exactly when missing or all whitespace |
| `Clients.ClientTable.Index` | app/clients/routes.py:9-13 | any signed-in user (admin or not) gets every client once, ordered by name; anonymous users are redirected |
| `Clients.ClientTable.Create` | app/clients/routes.py:15-30 | admin only; adds exactly one client with stripped, unvalidated sector and contact e-mail iff the stripped name is non-empty, otherwise "Name is required." and no change |
| `Clients.ClientTable.Edit` | app/clients/routes.py:32-44 | admin only; a missing id is NotFound; otherwise name, sector and contact e-mail are overwritten, stripped, with no name check |
| `Clients.ClientTable.Delete` | app/clients/routes.py:46-54 | admin only; a missing id is NotFound; otherwise exactly that client is removed, with no check for incidents that refer to it |
| `Clients.EditCanBlankName` | app/clients/routes.py:36-41 | a client created with a name can be edited to an empty name |
| `Slas.ParseMinutes` | app/slas/routes.py:21-22 | a missing or empty minute field is 0; a sent one is what `int()` reads; only a sent, non-empty field that `int()` rejects makes the request fail |
| `Slas.NumeralMinutesAccepted` | app/slas/routes.py:21-22 | the numeral of any integer with at most 4300 digits, negative ones included, is read back as that integer |
| `Slas.WhitespaceMinutesRaise` | app/slas/routes.py:21-22 | a whitespace-only minute field is not defaulted: `int()` raises |
| `Slas.SlaTable.Index` | app/slas/routes.py:9-13 | any signed-in user gets every SLA once, ordered by name |
| `Slas.SlaTable.Create` | app/slas/routes.py:15-30 | admin only; a minute field `int()` rejects fails the request before the name is looked at, with nothing stored; then an empty stripped name is "Name is required."; otherwise exactly one SLA is added with the parsed minutes, unbounded below |
| `Slas.SlaTable.Edit` | app/slas/routes.py:32-44 | admin only; a missing id is NotFound; a rejected minute field stores nothing; otherwise name and both targets are overwritten with no name check |
| `Slas.SlaTable.Delete` | app/slas/routes.py:46-54 | admin only; a missing id is NotFound; otherwise exactly that SLA is removed |
| `Slas.NegativeTargetStored` | app/slas/routes.py:21-26 | an admin can store an SLA whose response target is negative |
| `Incidents.ToInt` | app/incidents/routes.py:13-17 | `_to_int` returns what `int()` reads, or the default for a missing field (TypeError) or a value `int()` rejects (ValueError); it never raises |
| `Incidents.ToIntReadsNumerals` | app/incidents/routes.py:13-17 | `_to_int` reads the numeral of any integer with at most 4300 digits back as that integer |
| `Incidents.ReadDetails` | app/incidents/routes.py:58-63 | the text fields are stored stripped, a blank title reads as empty, priority and status default to "Low"/"Open" when missing or empty, and each id is non-zero exactly when `int()` reads it as a non-zero integer |
| `Incidents.CompleteIffFieldsGiven` | app/incidents/routes.py:58-66 | the form passes the required-field rule exactly when the title has a non-space character and both ids read as non-zero integers; nothing checks that the ids name a client or an SLA |
| `Incidents.DefaultOnlyForBlank` | app/incidents/routes.py:60-61 | priority and status take "Low"/"Open" exactly when missing or empty; another value is stored stripped, so whitespace alone becomes "" |
| `Incidents.CanEdit` | app/incidents/routes.py:20-22 | `_user_can_edit`: an admin may edit every incident, any other user exactly the ones they created |
| `Incidents.Listed` | app/incidents/routes.py:31-37 | the list filter: an admin sees every incident, any other user exactly the ones they created |
| `Incidents.VisibleIds` | app/incidents/routes.py:31-37 | the selected ids are table ids: all of them for an admin, exactly the caller's own otherwise |
| `Incidents.ListedIffEditable` | app/incidents/routes.py:20-38 | a signed-in user's list holds exactly the incidents `_user_can_edit` lets them edit: all for admins, their own otherwise |
| `Incidents.Revised` | app/incidents/routes.py:106-112 | the edited record carries the form's fields and the new update time and keeps `created_by` and `created_at` |
| `Incidents.IncidentTable.Index` | app/incidents/routes.py:27-38 | all incidents for admins, only the caller's own otherwise, each once, newest `created_at` first |
| `Incidents.IncidentTable.Create` | app/incidents/routes.py:50-89 | adds exactly one incident, created by the caller with the two given clock readings, iff the stripped title is non-empty and both parsed ids are non-zero (negative ids pass); otherwise "Title, Client and SLA are required." and no change |
| `Incidents.IncidentTable.Edit` | app/incidents/routes.py:94-125 | a missing id is NotFound; a caller who is neither admin nor creator is Forbidden before the form is read; a form failing the required-field rule commits nothing; otherwise exactly title, description, priority, status, both ids and `updated_at` change |
| `Incidents.IncidentTable.Delete` | app/incidents/routes.py:130-139 | admin only, whoever created the incident; a missing id is NotFound; otherwise exactly that incident is removed |
| `Incidents.OwnIncidentVisibility` | app/incidents/routes.py:27-139 | a regular user's new incident is in their list and an admin's, not in another regular user's; that user may not edit it and its creator may not delete it |

## Left out

- HTTP plumbing is not modelled: routing, templates, flashed messages and the GET branches that only render a form. Each handler is reduced to its outcome and the change it commits. The flashed validation message is kept where it tells outcomes apart.
- The client and SLA lists that the incident pages load for their templates are not modelled (app/incidents/routes.py:40-41, 54-55, 102-103). They only feed the page.
- SQLAlchemy sessions, autoflush and teardown rollback are library behaviour. A handler either commits all its assignments or none. A new row gets an id not yet in its table; a counter stands for autoincrement.
- `Ordering.OrderBy`: the order among rows with equal keys is unspecified. Names compare by code point; a database collation other than binary is not modelled.
- Password hashing lives in app/models, which is not part of this model. The hash function is a parameter of `Auth.UserStore`. The salt that `set_password` draws at random is a parameter of `Register`.
- `is_admin` and `admin_required` live in app/models and app/utils, which are not part of this model. The admin flag is a field of `Web.Principal`. `admin_required` is taken to answer 403 to a signed-in non-admin and change nothing, after `login_required`.
- The identity given to the client, SLA and incident handlers is not derived from the `Auth.UserStore` session. How `current_user` is loaded (`load_user`, app/__init__.py:59-67) is Flask-Login glue.
- The `create-admin` command (app/__init__.py:71-94) is not modelled. It sits after `return app` at line 69, so it is never registered.
- The clock is a parameter. `datetime.utcnow()` is read twice on create, so `created_at` and `updated_at` are two separate parameters and are not claimed equal.
- Numerals.ParseInt: rejects underscores between digits and non-ASCII decimal digits, which `int()` accepts. Its 4300-digit bound is CPython's default from 3.11 on. The bound can be changed with `sys.set_int_max_str_digits`, and earlier versions have none.
- Text.Lower: changes ASCII letters only, where `str.lower()` also lower-cases other scripts.
- Concurrent requests are not modelled; last-write-wins comes from the host and the database.
- Foreign keys are not modelled. Deleting a client or SLA that incidents still refer to removes the row in the model. So does saving an incident whose `client_id` or `sla_id` names no row, or is negative: `Incidents.IncidentTable.Create` and `Incidents.IncidentTable.Edit` save it. A database that enforces foreign keys would fail that commit instead.
- Column widths are not modelled. SLA minutes and incident ids are unbounded integers in the model. The database's integer columns are bounded, so an out-of-range value would fail at commit.
- Blueprint registration, `SQLALCHEMY_TRACK_MODIFICATIONS` and extension setup in `create_app` are wiring and are not modelled.
