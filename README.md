# Coffee Shop backend: bearer-token guard and drink handlers, in Dafny

This project models the two pieces of decision logic in the Coffee Shop Flask
backend and proves properties of them.

- **The authorization guard** (`backend/src/auth/auth.py`, module `Auth` in
  `auth.dfy`). It takes the bearer token out of the `Authorization` header,
  splitting on whitespace the way Python's `str.split()` does. It finds the
  signing key whose `kid` matches the token header's; the loop keeps the last
  match. It maps what `jwt.decode` does to the error codes `token_expired`,
  `invalid_claims` and `invalid_token`. It checks the required permission
  against the payload's `permissions` claim. Finally `requires_auth` chains the
  three steps and replaces every `AuthError` with one 400 error. Each step
  returns an `Outcome`: a value, an `AuthError` (code, description, status),
  or `Crash`. `Crash` stands for any other exception (an `IndexError`, a
  `KeyError`, or the `jose` library's `JWTError`). `except AuthError` does not
  catch these, so they pass through the guard. The `jose` library is an oracle
  (`Jose`), given as a parameter. The fetched key set is an input.
- **The drink handlers** (`backend/src/api.py`, module `Api` in `api.dfy`).
  The drink table is a `map<int, Drink>`. A `Drink` is a title plus the recipe
  list. Each recipe item has optional `color`, `parts` and `name`. Python
  truthiness becomes "present and non-empty" for strings and lists, and
  "present and non-zero" for `parts`. The functions `Create`, `Update` and
  `Delete` state what each handler does to the table and what it answers: a
  success value or an `abort` status (400, 404, 409, 500). The class
  `DrinkStore` holds the table as a field. Its handler methods validate the
  recipe with a loop and are proved to change the table exactly as those
  functions say. A failing database write is a boolean parameter, `writeOk`.
  The id the database assigns is the `nextId` counter. The class invariant
  keeps every stored id below that counter.

Notes on what the code does, which the model follows:

- The request body key is `recipe`.
- When no key matches, the answer is `invalid_header` with status 400.
- A token whose header cannot be parsed raises `JWTError` outside the `try`
  (`Crash`); it is not turned into `invalid_token`.
- The default permission `''` is not granted automatically. It is checked by
  list membership like any other (`Auth.EmptyPermissionIsNotImplied`).
- `parts` only has to be truthy (non-zero). A negative number passes.
- `requires_auth` collapses every `AuthError` into 400 `invalid_header`.
  `Auth.RequiresAuth` models that collapse. The error-preserving guard is
  `Auth.RequiresAuthPreserving`, under Findings.
- An update does not re-check title uniqueness
  (`Api.UpdateCanDuplicateTitle`).

## Model

| member | source | states |
|---|---|---|
| `Auth.Words` | backend/src/auth/auth.py:37 | every word of the split is non-empty and holds no whitespace; there are no words exactly when the header is all whitespace |
| `Auth.WordsOfLeadingWord` | backend/src/auth/auth.py:37 | a non-empty run without whitespace, followed by whitespace or the end, is split off as one whole word |
| `Auth.WordsSplitAtSpace` | backend/src/auth/auth.py:37 | splitting is compositional: the words of `a`, a whitespace character, then `b` are the words of `a` followed by the words of `b` |
| `Auth.GetTokenFromAuthHeader` | backend/src/auth/auth.py:26-58 | absent or empty header ⇔ `authorization_header_missing`/401; whitespace-only header ⇔ crash (`IndexError`); first word not "bearer" (case-insensitive) ⇔ "must contain 'Bearer'"; exactly one word ⇔ "Token not found."; more than two words ⇔ format error; a "bearer" first word and exactly two words ⇔ the second word is returned; every error is a 401 |
| `Auth.BearerHeaderYieldsToken` | backend/src/auth/auth.py:37-58 | round trip: any capitalisation of "bearer", one space and a non-empty token without whitespace give back exactly that token |
| `Auth.CheckPermissions` | backend/src/auth/auth.py:61-76 | a payload without `permissions` ⇔ `invalid_claims`/400, whatever the permission; a claim that does not list the permission ⇔ `unauthorized`/403; otherwise `True`; never another exception |
| `Auth.EmptyPermissionIsNotImplied` | backend/src/auth/auth.py:136-143 | with the default permission `''`, a well-formed header whose token `jwt.decode` accepts with a `permissions` list that does not hold `''` is refused by the chain with `unauthorized`/403 |
| `Auth.FindKey` | backend/src/auth/auth.py:93-101 | the key loop, which overwrites `rsa_key` on each match and stops at a `KeyError`, computes exactly `KeySearch` |
| `Auth.KeySearchCrashes` | backend/src/auth/auth.py:93-101 | the loop raises `KeyError` exactly when some entry lacks `kid`, or matches and lacks one of `kty`, `use`, `n`, `e` |
| `Auth.KeySearchFindsNothing` | backend/src/auth/auth.py:93-103 | `rsa_key` stays empty exactly when every entry has a `kid` and none is the header's |
| `Auth.KeySearchFindsLast` | backend/src/auth/auth.py:93-101 | a found key is built from a matching entry, and no later entry matches: the last match wins |
| `Auth.DecodeResult` | backend/src/auth/auth.py:104-129 | decode success returns the payload unchanged; expired ⇔ `token_expired`/401; claims error ⇔ `invalid_claims`/401; any other decode failure ⇔ `invalid_token`/400 |
| `Auth.VerifyAndDecodeJwt` | backend/src/auth/auth.py:79-133 | verification raises only the five `AuthError`s of this function, and a payload comes only from a successful `jwt.decode` of this token |
| `Auth.VerifyRequiresKid` | backend/src/auth/auth.py:87-91 | a token header without `kid` gives `invalid_header`/401 whatever the key set |
| `Auth.VerifyKeyNotFound` | backend/src/auth/auth.py:93-133 | with a `kid`, verification ends in "Unable to find the appropriate key." (400) ⇔ every entry has a `kid` and none matches |
| `Auth.VerifyCrashes` | backend/src/auth/auth.py:84-101 | verification raises a non-`AuthError` exception ⇔ the header cannot be parsed, or some entry breaks the key loop |
| `Auth.VerifyUsesLastMatchingKey` | backend/src/auth/auth.py:93-112 | a verified payload is what `jwt.decode` returned for the last matching entry, called with RS256, audience `coffee` and the Auth0 issuer |
| `Auth.VerifyDecidedByLastMatchingKey` | backend/src/auth/auth.py:84-129 | conversely, when the header has a `kid`, no entry breaks the loop and `keys[i]` is the last complete match, the result is exactly what `jwt.decode` does with that key: its payload, `token_expired`/401, `invalid_claims`/401 or `invalid_token`/400 |
| `Auth.Authenticate` | backend/src/auth/auth.py:140-143 | header, then verification, then permission check: success ⇔ all three succeed, with the verified payload; a failing header step's outcome is the result; after a header success, a failing verification's outcome is the result; after both succeed, a failing permission check's error is raised; every error raised is one of the eleven the three steps raise |
| `Auth.RequiresAuth` | backend/src/auth/auth.py:136-151 | the handler runs, on the verified payload, ⇔ all three steps succeed; every `AuthError` becomes `invalid_header`/400 "Unable to find the appropriate key."; other exceptions pass through |
| `Auth.WhitespaceHeaderCrashes` | backend/src/auth/auth.py:37-39 | a header of one vertical tab reaches `parts[0]` with no parts and crashes |
| `Auth.GetTokenFromAuthHeaderChecked` | backend/src/auth/auth.py:37-43 | never crashes; agrees with `GetTokenFromAuthHeader` wherever that does not crash; a whitespace-only header is refused as lacking "Bearer" (401) |
| `Auth.CollapseHidesExpiredToken` | backend/src/auth/auth.py:145-149 | a well-formed header whose token `jwt.decode` finds expired with the last matching key: the chain raises `token_expired`/401, the guard answers 400 `invalid_header` |
| `Auth.RequiresAuthPreserving` | backend/src/auth/auth.py:140-149 | same successes and crashes as the guard, but each `AuthError` is the one the failing step raised |
| `Auth.PreservingReportsExpiredToken` | backend/src/auth/auth.py:114-118 | with errors passed on, a token `jwt.decode` finds expired with the last matching key is reported as `token_expired`/401 |
| `Auth.PreservingReportsMissingPermission` | backend/src/auth/auth.py:70-74 | a token `jwt.decode` accepts whose `permissions` list lacks the permission: the guard answers 400 `invalid_header`, the error-preserving guard 403 `unauthorized` |
| `Api.ValidateRecipe` | backend/src/api.py:54-59 | the item loop finishes without aborting ⇔ every item has a truthy `color`, `parts` and `name` |
| `Api.Create` | backend/src/api.py:44-68 | 400 ⇔ the title or recipe is falsy or an item is incomplete, even when the title is taken; 409 ⇔ a valid body whose title is taken; 500 ⇔ the insert fails; success ⇔ a valid body, a free title and a working insert; every failure leaves the table unchanged; success adds exactly one drink under a new id and leaves every other drink as it was |
| `Api.CreatePreservesUniqueTitles` | backend/src/api.py:61-66 | because a taken title is refused, a table whose titles are distinct keeps them distinct after a create |
| `Api.Update` | backend/src/api.py:71-105 | 404 ⇔ unknown id, before the body is read; 400 ⇔ a truthy recipe with an incomplete item, and then the title change is not committed; 500 ⇔ the write fails; success ⇔ a known id, a recipe that is falsy or complete, and a working write; failures leave the table unchanged; on success a falsy field keeps its value, a truthy title or recipe replaces it whole, only that id changes and no id is added or removed |
| `Api.Delete` | backend/src/api.py:108-122 | 404 ⇔ unknown id; 500 ⇔ the delete fails, and the table is unchanged; success ⇔ a known id and a working delete; success removes exactly that id, leaves all other drinks as they were and answers with the id; distinct titles stay distinct |
| `Api.CreateThenDeleteRestores` | backend/src/api.py:110-122 | deleting the drink just created gives back the table as it was |
| `Api.SecondCreateConflicts` | backend/src/api.py:61-63 | after a successful create, a second create with the same title and any complete recipe is a 409 and adds nothing |
| `Api.UpdateCanDuplicateTitle` | backend/src/api.py:83-84 | the handler does not re-check titles: a table with distinct titles can end with two drinks of the same title after an update, when the write succeeds |
| `Api.DrinkStore.ListDrinks` | backend/src/api.py:25-41 | the listing holds every row of the table exactly once, each with its stored drink |
| `Api.DrinkStore.CreateDrink` | backend/src/api.py:46-68 | the handler's table and answer are those of `Create`, with the next id; ids stay below the counter |
| `Api.DrinkStore.UpdateDrink` | backend/src/api.py:73-105 | the handler's table and answer are those of `Update` |
| `Api.DrinkStore.DeleteDrink` | backend/src/api.py:110-122 | the handler's table and answer are those of `Delete` |

## Left out

- Fetching the key set (`urlopen`, `json.loads`, the `"keys"` lookup): network I/O. The key set is an input, so a failed fetch is not modelled.
- Signature, expiry, audience and issuer checks inside `jwt.get_unverified_header` and `jwt.decode`: cryptography and the clock inside the `jose` library. They are the `Jose` oracle. Its header result and decode outcome are uninterpreted.
- Only the `permissions` claim of the payload is read, as a list of strings. If the claim were a string, `in` would be a substring test; that case is not modelled. Other claims are reduced to one `subject` field.
- `Auth.Lower` lower-cases ASCII letters only. Python's `str.lower` also maps other characters, but none of them lower-cases to a letter of "bearer".
- The handler passed to `Auth.RequiresAuth` is a pure function. An exception raised inside a Flask handler is not modelled. The `DrinkStore` methods are not composed with the guard, because they change state and the guard is a function. None of the handlers reads the payload.
- Flask and SQLAlchemy plumbing: app setup, `CORS`, routing, `jsonify`, `request.get_json`, and the session mechanics behind rollback. A failed write is the boolean `writeOk`. Nothing is committed on any failure path.
- The `@app.errorhandler` functions are not modelled. The `not_found` handler (api.py:153-159) returns its body with no status, so in the running app a 404 abort reaches the client as status 200 with `"error": 404` in the body; the model stops at `Abort(404)`. The app registers no handler for `AuthError`, so in the running app a guard failure surfaces as a 500. The model stops at the `AuthError` value.
- Request bodies are taken to be JSON objects with a string `title`, a list `recipe` of objects, and integer `parts`. Other shapes are not modelled: some raise `AttributeError` or `TypeError` in the handlers, others (a string `parts` such as `"2"`, a numeric `title`) pass the truthiness checks and reach the database. Neither is a float `parts`, nor a missing body.
- The route's `<id>` is a string in the app and an `int` here.
- `Drink.short()` / `Drink.long()` and the JSON serialisation of the recipe are not part of this model; they live in `database/models.py`. The recipe is stored as the list itself. `get_drinks` and `get_drinks_details` therefore return the same rows.
- `db_drop_and_create_all` and the table's initial contents are not part of this model. The `DrinkStore` constructor starts from an empty table.
- Api.DrinkStore.ListDrinks: does not state an order, because `Drink.query.all()` has no `ORDER BY`.
- Api.Create: `drink.insert()` has no `try` and no rollback, so a failing insert is an uncaught exception that Flask answers with 500 (or re-raises in debug mode). The model writes it as `Abort(500)` with the table unchanged. The debug-mode re-raise and any partly flushed session state are not modelled.
- Concurrent creates racing on the same title are left out, because the model is sequential.

## Findings

| source | as written | input that shows it | evidently intended | confidence | as-written member | corrected member |
|---|---|---|---|---|---|---|
| backend/src/auth/auth.py:37-39 | a header of whitespace only splits into no words, and `parts[0]` raises `IndexError`; this is not an `AuthError`, so the guard does not catch it | `Authorization: "\x0b"` (one vertical tab; HTTP parsing strips spaces and tabs but keeps it) | refused as `invalid_header`/401, like every other malformed header | medium, not executed | `Auth.WhitespaceHeaderCrashes` | `Auth.GetTokenFromAuthHeaderChecked` |
| backend/src/auth/auth.py:145-149 | every `AuthError` of the three steps is replaced by `invalid_header`/400 "Unable to find the appropriate key." | a well-formed `Bearer` header whose token `jwt.decode` finds expired: 400 instead of 401 `token_expired` | each step's own error and status, as the three steps raise them | medium, not executed | `Auth.CollapseHidesExpiredToken` | `Auth.RequiresAuthPreserving` |
