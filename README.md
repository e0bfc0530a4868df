# Role-based user store

A Dafny model of the user core of a small ERP backend written in Django. It covers the
custom user record and its manager (`users/models.py`) and the role-scoped user API
(`users/views.py`).

- `wrappers.dfy`, module `Wrappers`: `Option` and `Result`. These stand for arguments a
  caller leaves out and for the errors the source raises.
- `models.dfy`, module `Models`:
  - the three roles and how a stored role string is read;
  - the username rules (letters only, at most 150 characters, unique);
  - the users table as a map from primary key to `User`;
  - the class `UserStore`. It holds that map and the next primary key. Its methods
    `CreateUser` and `CreateSuperuser` are `CustomUserManager.create_user` and
    `create_superuser`.
- `views.dfy`, module `Views`:
  - `Scope` is `get_queryset`: what each role may list;
  - `WriteGate` is the Admin-only check at the top of `create`, `update` and `destroy`;
  - `Create`, `Update` and `Destroy` are those three handlers, run against a `UserStore`;
  - `Profile` is `ProfileView.get_object`;
  - `Get` is the GET dispatch of both user routes.
- `scenarios.dfy`, module `Scenarios`: client methods that go through the contracts.
  - A superuser is refused with `is_staff=False`.
  - An Admin creates a Manager; the Manager's delete is refused and changes nothing.
  - A duplicate username is refused, and the Employee sees only itself.

The manager and the handlers change the shared table, so they are methods with `modifies`.
The access rules are pure selections, so they are functions over the table with lemmas.

Where the code and the project's own documentation differ, the model follows the code:

- `create_user` checks only that the username is non-empty (`users/models.py:14`).
- The letters-only pattern, the 150-character limit and the role choices are field
  validators. `save` does not run them. So `UserStore.CreateUser` stores a name like `"bob1"`
  or a role like `"Intern"` as given.
- A duplicate username fails at the save, because the column is unique.
- The field rules apply on the API path. There `Create` and `Update` validate the request
  before they write.
- The view's docstring says a Manager "can view employees only (read-only)" (`users/views.py:30`).
  The code (`users/views.py:41-42`) excludes only rows whose role is `"Admin"`. So a Manager
  also sees every Manager row, its own included, and every row whose role string is outside
  the choices. `Views.ManagerScopeIsNonAdmins` and `Views.OwnRowInScope` state the code's
  behaviour.
- The three 403 messages differ per handler: "Only Admins can add users.", "Only Admins can
  update users." and "Only Admins can delete users.".

## Model

| member | source | states |
|---|---|---|
| `Models.ParseRole` | users/models.py:51-55 | a stored string names a role choice exactly when it is that choice's name, in both directions; other strings name none |
| `Models.ValidRole` | users/models.py:70-74 | a role is valid exactly when it is Admin, Manager or Employee, and every choice fits the field's max_length of 20 |
| `Models.MatchesLettersIsNonEmptyLetters` | users/models.py:58-61 | the anchored pattern `[A-Za-z]+` accepts exactly the non-empty strings made only of ASCII letters |
| `Models.ValidUsernameMeaning` | users/models.py:58-66 | a valid username is non-empty, at most 150 characters long and made only of ASCII letters, and nothing else is valid |
| `Models.TrailingNewlinePassesAsWritten` | users/models.py:58-61 | the validator as written accepts `"alice\n"`, which the letters-only rule rejects |
| `Models.AsWrittenDiffersOnlyByTrailingNewline` | users/models.py:58-61 | the validator as written and the intended pattern disagree exactly on letters-only names followed by one newline |
| `Models.UsernameFieldError` | users/models.py:58-66 | the username checks report no error exactly when the name is valid. A blank name is reported as blank and nothing else is. A non-empty name the letters pattern rejects is reported as not letters, and only such a name is. The length is reported exactly when the pattern accepts the name and it is over 150 characters: blank first, then the pattern, then max_length |
| `Models.InsertFreeUsernameKeepsUnique` | users/models.py:65 | adding a row whose username no row carries keeps usernames unique across the table |
| `Models.ReplaceKeepsUnique` | users/models.py:65 | replacing a row by one whose username no other row carries keeps usernames unique |
| `Models.SuperuserFlagError` | users/models.py:33-39 | both flags default to True; it fails with the is_staff error exactly when is_staff is given as False; it fails with the is_superuser error exactly when is_staff passes and is_superuser is given as False; otherwise it passes |
| `Models.UserStore.CreateUser` | users/models.py:13-27 | an empty username fails with "The Username must be set". A taken username is refused by the database at the save; that refusal carries the database's text, not a message of the model. A failure changes nothing. Otherwise exactly one row is added under the next key. It carries the username, the normalised email, the derived credential, the given role (Employee by default) and the flags (False by default), and it is returned. Keys stay those of their rows and usernames stay unique |
| `Models.UserStore.CreateSuperuser` | users/models.py:29-47 | is_staff or is_superuser given as False fails with its own error and changes nothing. Otherwise it behaves as create_user: an empty username fails with "The Username must be set", a taken one is refused at the save, and anything else succeeds. A success adds a row with role Admin, is_staff True and is_superuser True |
| `Views.Scope` | users/views.py:37-44 | every actor's scope is a sub-map of the table: each visible key is stored, with the stored row |
| `Views.AdminScopeIsWholeTable` | users/views.py:39-40 | an Admin's scope is the whole table |
| `Views.ManagerScopeIsNonAdmins` | users/views.py:41-42 | a Manager's scope holds exactly the rows whose role is not Admin, so no Admin row |
| `Views.OtherScopeIsSelf` | users/views.py:43-44 | any other role string sees only the row under its own id: at most one row, and exactly one when that row is stored |
| `Views.OwnRowInScope` | users/views.py:37-44 | whatever the role, the actor's own stored row is in its scope |
| `Views.Get` | users/views.py:23-27 | a GET returns a sub-map of the table |
| `Views.DetailGetListsWholeScope` | users/urls.py:24-25 | a GET on `/api/users/<pk>/` answers with the actor's whole scope, the same as the list route, whatever `pk` is |
| `Views.ProfileIsOwnRow` | users/views.py:66-67 | whatever the role, the profile is a row the actor's own scope holds under the actor's id |
| `Views.WriteGate` | users/views.py:46-58 | a write passes the gate exactly when the role is Admin; otherwise the answer is a 403 with that handler's fixed detail |
| `Views.NonAdminIsRefusedEveryWrite` | users/views.py:46-58 | every role other than Admin, Manager included, is refused each of the three writes |
| `Views.NewUserError` | users/models.py:63-74 | a create request passes validation exactly when the username is valid and not taken, and any role given is a choice |
| `Views.ChangesError` | users/models.py:63-74 | an update passes validation exactly when any new username is valid and no other row carries it, and any new role is a choice |
| `Views.Apply` | users/views.py:51-54 | an update writes each supplied username, email and role and keeps the stored value of each field left out. The id, the credential and the two flags are never written. An empty update changes nothing |
| `Views.ApplyIsIdempotent` | users/views.py:51-54 | sending the same update twice leaves the row as sending it once |
| `Views.ValidatedNewRowIsValid` | users/models.py:58-74 | a row that passes create validation has a non-empty letters-only username of at most 150 characters and a role among the choices |
| `Views.Create` | users/views.py:46-49 | a non-Admin gets 403 "Only Admins can add users." and the table is unchanged. An Admin's invalid request gets 400 with the rule it breaks and changes nothing. An Admin's valid request adds exactly one row through create_user, with role Employee when none is given, and answers 201 |
| `Views.Update` | users/views.py:51-54 | a non-Admin gets 403 "Only Admins can update users." before any lookup, so a missing id, or no id at all, also gets 403. An Admin on the list route, which has no id, hits the lookup's assertion (500). An Admin gets 404 for an absent id and 400 for an invalid change. All of these leave the table unchanged. Otherwise only the target row changes, to the updated row, and the answer is 200 |
| `Views.Destroy` | users/views.py:56-59 | a non-Admin gets 403 "Only Admins can delete users." before any lookup, so a missing id, or no id at all, also gets 403. An Admin on the list route, which has no id, hits the lookup's assertion (500). An Admin gets 404 for an absent id. All of these leave the table unchanged. Otherwise exactly the target key is removed, every other row is unchanged, the size drops by one, and the answer is 204 |

## Findings

| source | as written | input that shows it | evidently intended | confidence | as-written member | corrected member |
|---|---|---|---|---|---|---|
| users/models.py:58-61 | `RegexValidator(r"^[A-Za-z]+$")` uses Python's `search`, and `$` also matches just before a final newline | `"alice\n"` passes the validator | letters only, anchored at the very end (`\Z` or a full match) | medium, not executed; form and serializer character fields usually strip surrounding whitespace before validating, so the newline reaches the validator only where that stripping is off | `Models.RegexAcceptsAsWritten` | `Models.ValidUsername` |

`Models.TrailingNewlinePassesAsWritten` proves the discrepancy on `"alice\n"`.
`Models.AsWrittenDiffersOnlyByTrailingNewline` proves it is the only one.
`Models.ValidUsernameMeaning` proves the intended rule for the corrected predicate. All
validation in the model uses that corrected predicate.

## Left out

- `RegisterView`, `RegisterSerializer` and `UserSerializer`: the serializers are not part of
  this model. `Views.Create` and `Views.Update` assume they apply the model's declared field
  rules (blank, max_length, the letters pattern, unique, role choices). `Views.Create` also
  assumes the row is saved through `create_user`. Fields other than username, email,
  password and role are not modelled. Nor is whether self-registration may pick a role.
- `login_page` and `dashboard_page`: HTML template rendering.
- Token login and refresh: an external cryptographic library.
- Authentication of the actor: each handler is given the authenticated actor's row.
- `normalize_email` and password hashing are Django internals. They are total functions
  fixed when a `UserStore` is built. Salting and the random suffix of an unusable password
  are not modelled: a password left out gives `Unusable`.
- `Models.SuperuserFlagError`: the flags are `Option<bool>`. A non-boolean value that
  `is not True` also rejects (`1`, `"yes"`) cannot be expressed.
- `Models.UserStore.CreateUser`: a `None` username and `""` are both falsy and both fail
  the same way, so the model takes only strings. Extra fields other than `is_staff` and
  `is_superuser` are not modelled. Whether the database backend enforces the column
  lengths is not modelled either: 150 characters for the username, 20 for the role.
- `Models.UserStore.CreateUser`: the primary key is modelled as a counter that a failed
  save does not advance. A database sequence or auto-increment may use up a value on a
  refused insert, so real ids can skip numbers.
- `Views.NewUserError` and `Views.ChangesError` report the first broken rule. Django
  collects every validator's message.
- `Views.NewUserError`: the email field's format check is not modelled, so `Views.Create`
  accepts any email string.
- `Views.NewUserError`: it checks the username with the corrected `Models.ValidUsername`, so
  `Views.Create` answers 400 for `"alice\n"`. The validator as written accepts that name.
  The serializer's whitespace trimming is not part of this model.
- `Views.ChangesError`: the email field's format check is not modelled.
- `Views.ChangesError`: it checks the username with the corrected `Models.ValidUsername`, so
  `Views.Update` answers 400 for `"alice\n"`. The validator as written accepts that name.
  The serializer's whitespace trimming is not part of this model.
- `Views.Apply`: the writable fields are assumed to be username, email and role. That the
  credential and the two flags are never written rests on that assumption about the
  serializer.
- `Views.Update`: PUT and PATCH both apply the fields supplied. The serializer's
  required-field check on a full PUT is not modelled.
- Role strings and usernames compare case-sensitively, as Python does. A database
  collation that compares case-insensitively is not modelled.
- Database transactions, concurrent requests, and HTTP serialisation beyond a status and
  its body: the model runs one request at a time against one table.
- `CustomUser.__str__`: display only.
