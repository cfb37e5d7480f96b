# craft_app core, modelled in Dafny

A Dafny model of the behavioural core of craft_app, a Flask social network for
knitting and crochet projects:

- `utils.dfy` (module `Utils`): `removeFieldListEntry`, the helper that removes
  the ticked rows of a repeatable sub-form (yarn, needle or hook rows). A
  `FieldList` class holds the entries. The method pops every entry and then
  re-appends the kept ones, as the Python does. It is proved equal to the pure
  filter `Kept`. Lemmas about `Kept` give order preservation, length accounting,
  the "shrank" result and idempotence.
- `models.dfy` (module `Models`): the `users` table as a sequence of rows plus
  the next id from the primary-key sequence. `Valid` is the table invariant:
  unique ids, emails and usernames, and every value fits its VARCHAR column.
  `Insert` is the database's answer to a new row: `DataError`,
  `IntegrityError`, or the extended table. `Authenticate` is the login check.
  The `notes` table's defaults are modelled too.
- `forms.dfy` (module `Forms`): the validator chains of `SignupForm`,
  `LoginForm` and `CSRFProtectForm` as predicates over the submitted strings.
- `app.dfy` (module `App`): the session and authentication logic. A `Server`
  object holds the session map, `g.user` and the `users` table.
  `login_user`, `logout_user`, `add_user_to_g`, `signup`, `login` and `logout`
  are methods that update that state. `login_required`, `homepage` and
  `user_page` are functions of the current user. Each handler returns an
  `Outcome`: a redirect with an optional flash, a rendered page with an optional
  flash, or 404.
- `wrappers.dfy` (module `Wrappers`): `Option` and `Result`.

Inputs the model does not compute are parameters:
- the clock reading for `created_at`;
- the bcrypt hash of a new password, which is 60 characters long;
- the password comparison used by login;
- the verdicts of the CSRF token check and of the `Email()` and `URL()` validators.

## Model

| member | source | states |
|---|---|---|
| `Utils.Kept` | utils.py:5 | The kept data never outnumber the entries, and none of them has its delete box ticked. |
| `Utils.KeptIsOrderedSelection` | utils.py:5 | The kept data are the entries at strictly ascending positions. Those positions are exactly the unticked entries, so every unticked entry survives once, in its original relative order. |
| `Utils.KeptLength` | utils.py:5-13 | The number kept equals the number of entries minus the number ticked. |
| `Utils.KeptUnchangedIffNoneFlagged` | utils.py:5-15 | The kept data equal the whole list, and have the same length, exactly when no entry is ticked. |
| `Utils.KeptIdempotent` | utils.py:5-15 | Kept data carry unticked boxes, so filtering them again keeps all of them. |
| `Utils.KeptExample` | utils.py:5-13 | Rows A, B, C, D with B and D ticked leave exactly A, C, in that order. |
| `Utils.FieldList.PopEntry` | utils.py:9-10 | Popping a non-empty list returns its last entry and removes it. |
| `Utils.FieldList.AppendEntry` | utils.py:12-13 | Appending adds the given data as the new last entry. |
| `Utils.RemoveFieldListEntry` | utils.py:1-15 | The list ends as the unticked entries in order. Its length drops by the number ticked. The result is true iff the length changed, iff some entry was ticked. |
| `Utils.PrepopulateFormFieldList` | utils.py:18-20 | Leaves the field list unchanged. |
| `Models.Valid` | models.py:13-34 | A valid table never has two rows that share an id, an email or a username. Every id is below the next one the sequence hands out, and every username and password hash fits its column. |
| `Models.FindById` | app.py:28-29 | A found row is stored and has the requested id. Nothing is found iff no stored row has that id. |
| `Models.FindByUsername` | app.py:128-131 | A found row is stored and has the requested username. Nothing is found iff no stored row has that username. |
| `Models.FindByIdFindsStored` | models.py:13-17 | In a valid table, looking up any stored row's id returns that row. |
| `Models.FindByUsernameFindsStored` | models.py:25-29 | In a valid table, looking up any stored row's username returns that row. |
| `Models.StoredAs` | models.py:25-34 | How PostgreSQL stores a value in a VARCHAR(n) column. A value that fits is stored unchanged. A longer one is stored as its first n characters iff every character past n is a space, and is refused otherwise. A stored value never exceeds n characters and is a prefix of the input. |
| `Models.Insert` | models.py:19-34 | `DataError` iff the username (VARCHAR(30)) or the hash (VARCHAR(150)) cannot be stored even after cutting trailing spaces. With storable values, a duplicate email or cut username gives `IntegrityError`. Otherwise the row with cut values is appended under the next id and the sequence advances. Values that already fit and are unused are stored as given. |
| `Models.InsertPreservesValid` | models.py:19-34 | A successful insert keeps the ids, emails and usernames unique and all values within their column lengths. The new row, with its cut values, is then found by its id. |
| `Models.PaddedUsernameCollides` | models.py:25-29 | A 30-character stored username plus one trailing space is cut back to the stored name, so the insert fails with `IntegrityError`. |
| `Models.Authenticate` | app.py:128-131 | A user returned by the login check is stored, has the submitted username, and the password check accepts its hash. |
| `Models.AuthenticateIff` | test_user_model.py:117-138 | In a valid table, login succeeds iff some stored user has that username and the password check accepts that user's hash. |
| `Models.NewNote` | models.py:48-76 | An unset title becomes "New Note". Unset designer, pattern and gauge become empty. Supplied values are kept, and the creation time is the clock reading. |
| `Models.InsertNote` | models.py:48-70 | Storing a note fails with `DataError` iff the title or designer (VARCHAR(100)) or the pattern or gauge (VARCHAR(150)) cannot be stored even after cutting trailing spaces. Otherwise the note with cut values is appended. A note that already fits is stored as given. |
| `Models.InsertNoteKeepsFit` | models.py:48-70 | Every note the table accepts fits its columns, so a table of fitting notes stays that way. |
| `Models.OverlongNoteTitleRefused` | models.py:48-52 | A supplied title with a non-space character past position 100 is kept by `NewNote` but refused by the table. |
| `Models.SpacePaddedNoteTitleCut` | models.py:48-52 | A title longer than 100 characters only by trailing spaces is stored as its first 100 characters. |
| `Models.DefaultNoteFits` | models.py:48-70 | The default note fits the note columns: title and designer at most 100 characters, pattern and gauge at most 150. |
| `Forms.SignupFormValid` | forms.py:6-27 | Every username the signup form accepts fits the 30-character `users.username` column. |
| `Forms.SignupUsernameBounds` | forms.py:9-12 | With the other fields valid, a username is accepted iff it has 1 to 30 characters. |
| `Forms.SignupEmailRule` | forms.py:14-17 | With the other fields valid, an email is accepted iff it is non-empty and passes the `Email()` format check. |
| `Forms.SignupImageUrlRule` | forms.py:19-22 | An empty or whitespace-only image URL is accepted. A present one is accepted iff it has at most 255 characters and passes `URL()`. |
| `Forms.SignupPasswordBounds` | forms.py:24-27 | With the other fields valid, a password is accepted iff it has 6 to 50 characters. |
| `Forms.LoginFormValid` | forms.py:30-41 | A login form that validates has a non-empty username and a non-empty password. |
| `Forms.LoginHasNoLengthBound` | forms.py:30-41 | The login form validates iff the username and the password are both non-empty, with no length bound. A username longer than 30 characters still validates at login, though the signup form rejects it. |
| `Forms.CsrfFormValid` | forms.py:44-45 | The field-less CSRF form validates on submit iff the request is a POST and its CSRF token is valid. |
| `App.CurrentUser` | app.py:24-31 | No session key gives no user. A user found is stored and has the session's id. With a key present, a user is found iff some stored row has that id. |
| `App.Unauthorized` | app.py:47-49 | The login gate's answer is a redirect to `/` with the flash "Unauthorized." in the "danger" category. |
| `App.LoginRequired` | app.py:41-53 | Without a current user the answer is a redirect to `/` flashing "Unauthorized." and the handler's answer is not used. With one, the handler's answer is returned unchanged. |
| `App.Homepage` | app.py:69-80 | A logged-in user is redirected to `/users/<own id>`. An anonymous visitor gets the anonymous home page. |
| `App.ProfileOr404` | app.py:167-169 | The answer is 404 exactly when no stored row has the id. Otherwise it renders the profile of a stored row with that id, and it never redirects. |
| `App.UserPage` | app.py:162-169 | Anonymous visitors get the "Unauthorized." redirect. Logged-in visitors get the profile or 404. |
| `App.AnonymousNeverSeesProfile` | app.py:162-169 | No id yields a rendered profile for an anonymous visitor. |
| `App.UserPageShowsStoredUser` | app.py:162-169 | In a valid table, a logged-in visitor asking for a stored user's id sees that user's profile. |
| `App.LoginThenCurrentUser` | app.py:56-59 | After the session stores a stored user's id, the next request's current user is that user. |
| `App.LogoutThenAnonymous` | app.py:62-66 | After the user key is removed there is no current user. |
| `App.LogoutUserIdempotent` | app.py:62-66 | Removing the user key twice equals removing it once. Removing it when absent changes nothing. |
| `App.HomepageAfterLogin` | app.py:77-78 | After logging in as a stored user, `/` redirects to that user's profile. |
| `App.HomepageAfterLogout` | app.py:80 | After logging out, `/` renders the anonymous home page. |
| `App.Server.AddUserToG` | app.py:24-31 | `g.user` becomes the user looked up from the session's id, or none when the key is absent. |
| `App.Server.LoginUser` | app.py:56-59 | The session maps "user" to the user's id. Every other key keeps its value and no other key appears. |
| `App.Server.LogoutUser` | app.py:62-66 | The "user" key is removed if present. Otherwise the session is unchanged. |
| `App.Server.Signup` | app.py:87-115 | An unsubmitted or invalid form re-renders the signup page with no change. A used email or username flashes "Username or email already in use.", re-renders, logs nobody in and adds no row. Otherwise exactly one row is appended, its user becomes current, and the answer redirects to that user's profile. The table invariant holds throughout. |
| `App.Server.Login` | app.py:118-140 | An unsubmitted or invalid form re-renders the login page. Bad credentials flash "Invalid credentials." and leave the session unchanged. Good credentials store the user's id, flash "Hello, <username>", redirect to `/users/<id>` and make that user current. |
| `App.Server.Logout` | app.py:142-156 | A bad CSRF token or no current user redirects to `/` flashing "Unauthorized" and leaves the session unchanged. Otherwise the user key is removed, "Logged out" is flashed, the answer redirects to `/login`, and there is no current user. |

## Left out

- HTTP routing, templates, cookies, `flash` transport and the `g` object. Handlers return an `Outcome` value instead.
- Library-written session keys. The modelled session holds only the application's own key, `'user'`, plus any other keys the application carries along unread. `session == old(session)` in the handler contracts speaks of those keys only. Two kinds of write fall outside the model:
  - Every `flash(...)` call (app.py:48, 113, 135, 138, 150, 155) writes `_flashes`.
  - Flask-WTF writes `csrf_token` whenever a form is built on a session that lacks one: `CSRFProtectForm()` before each request (app.py:38), `SignupForm()` (app.py:96) and `LoginForm()` (app.py:125).
- `add_csrf_form_to_g` (app.py:34-38), CSRF token generation and checking, and the `Email()` and `URL()` format validators. These are library code, so the model takes their verdicts as boolean inputs.
- `User.signup` and `User.login` are not part of this model's source.
  - Signup is modelled as `Models.Insert` of the given bcrypt hash.
  - Login is modelled as `Models.Authenticate`: a lookup by username, then a password check passed in as a function.
  - The hash primitive is assumed to produce 60 characters (`App.Server.Signup` requires it).
- The `image_url` value passed to `User.signup` is validated but not stored, because the `users` table in models.py has no such column.
- When Postgres refuses an insert, it may still have used up an id from the sequence. `Models.Insert` leaves the table and its next id unchanged on failure.
- `Utils.FieldList`: entries are plain values, not WTForms field objects. In WTForms the re-appended entries are new objects whose names and ids come from `last_index`, which `pop_entry` lowers and `append_entry` raises. Surviving entries can therefore be renumbered. The model keeps only their data and order.
- `Utils.FieldList.PopEntry` requires a non-empty list. WTForms raises on an empty one, which `removeFieldListEntry` never reaches. The FieldList's `min_entries`/`max_entries` bounds are not modelled.
- `Yarn` and `GaugeSwatch` (models.py:79-158) are not modelled. Neither has a primary key. `Yarn` declares `weight` twice, so the later integer column replaces the text one. `GaugeSwatch` misspells `__tablename__`.
- `connect_db`, `load_dotenv` and the environment configuration (app.py:1-18, models.py:161-166).
- Follow edges, follow requests, private accounts, projects, time logs and conversations. No shown model or route defines them. The tests for them also exercise code that is not part of this model.
