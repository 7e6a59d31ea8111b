# Credential store of the authentication demo server

A Dafny model of the credential store in `server/server.js`: the in-memory `users` object,
which maps a lower-cased email to `{ name, hash, salt, verified, code }`, and the three request
handlers that use it once the HTTP framing is removed.

- `/register` checks the name, the email and the password in a fixed order and rejects a key
  that is already taken. It then stores an unverified account carrying a six-digit code and
  returns that code as `demoCode`.
- `/verify` compares the submitted code with the stored one. On an exact match it sets
  `verified` and clears `code`. Every other outcome leaves the map as it was.
- `/login` only reads the map. It checks, in order, for missing fields, an unknown user, an
  unverified account and a wrong password. On success it returns the stored name and the email
  exactly as it was submitted.

Layout, one module per file:

- `Outcomes.dfy`: request fields (`Option`), the error codes, and the handlers' results.
- `Text.dfy`: the JavaScript string operations the handlers rely on. These are the `\s` class,
  `trim`, `toLowerCase` (over ASCII) and the decimal `toString` of a whole number.
- `Validation.dfy`: the name check, `isValidEmail` and `isValidPassword`.
- `Accounts.dfy`: the account record, an abstract bcrypt, the invariants of the map, the
  allowed changes to a record, and `/login` as a function of the map.
- `Store.dfy`: class `CredentialStore`, whose `users` map field is changed in place by
  `Register` and `Verify`, plus a client method that runs register, verify and login in turn.
- `PrototypeLookup.dfy`: the lookup `users[key]` as written, on a plain JavaScript object (see
  Findings).

The store's object invariant `Valid()` has three parts:

- `Sound(crypt)`: bcrypt's comparison accepts every input against its own hash;
- `WellFormed(users)`: every key is the lower case of a valid email; every record is verified
  exactly when its code is null, a pending code is six digits with no leading zero, and the
  stored name is not all whitespace;
- `Consistent(users, Passwords, crypt)`: every registered password passed `isValidPassword`,
  and every hash is bcrypt's hash of that password followed by the record's salt.

The ghost field `Passwords` records that registered password. It exists only so that the model
can state which password login accepts.

Two consequences of the code that the model states:

- `Math.floor(100000 + Math.random() * 899999)` with `Math.random() < 1` never yields 999999,
  so the largest code is 999998 and `Register` takes the random draw `n` with
  `100000 <= n <= 999998` (server/server.js:105).
- `/login` answers with the email as submitted (`user: { name: user.name, email }`,
  server/server.js:191), not with its lower case: a login as `ANA@X.COM` answers `ANA@X.COM`.
  `Login` and `RegisterVerifyLogin` state this.

## Model

| member | source | states |
|---|---|---|
| `Validation.EmailShapeIff` | server/server.js:23-26 | `IsValidEmail`, the model of `isValidEmail`, is the regex written out as an existence of `@` and `.` positions (`MatchesAt`). It accepts a string exactly when it has one `@` and no whitespace, a non-empty part before the `@`, and a `.` after the `@` that is neither the first nor the last character of that part. |
| `Validation.MatchesAtIff` | server/server.js:24 | `MatchesAt`, the regex `^[^\s@]+@[^\s@]+\.[^\s@]+$` with its `@` and `.` at two given positions, matches exactly when every other character is in `[^\s@]`. |
| `Validation.IsValidPassword` | server/server.js:29-31 | The password check holds exactly when a password is present and has at least 6 characters. |
| `Validation.NamePresentIff` | server/server.js:86-88 | `NamePresent`, the model of the name check `!name \|\| !name.trim()` built on `Trim`, passes exactly when a name is present and is not all whitespace. |
| `Text.TrimEmptyIffBlank` | server/server.js:86 | `Trim` (`TrimEnd` after `TrimStart`), the model of `trim`, returns the empty string exactly when its input is all whitespace. |
| `Text.TrimStart` | server/server.js:86 | The result is a suffix of the input, everything cut off is whitespace, and the result does not start with whitespace. |
| `Text.TrimEnd` | server/server.js:86 | The result is a prefix of the input, everything cut off is whitespace, and the result does not end with whitespace. |
| `Text.ToLower` | server/server.js:96 | The lower-cased key has the input's length, folds each character on its own, and contains no capital letter. |
| `Accounts.StoredKeyIsOwnLowerCase` | server/server.js:96-97 | A stored key is its own lower case (`Text.ToLowerFixesLowerCase`), so submitting the stored key itself as the email reaches that record. |
| `Validation.ToLowerKeepsEmailValid` | server/server.js:96 | Lower-casing neither makes nor breaks a valid email, so every stored key is itself a valid email. |
| `Text.DecimalString` | server/server.js:105 | `toString` of a whole number yields non-empty decimal digits with no leading zero, and reading them back gives the number. |
| `Text.DecimalLength` | server/server.js:105 | A number with k digits has a decimal string of length k. |
| `Store.IssueCode` | server/server.js:105 | An issued code has six digits, its first digit is not zero, and it denotes the random draw. |
| `Store.RegisterRejection` | server/server.js:86-100 | When every check of `/register` passes, the name is not blank, the email and its lower case are valid, the password has 6 or more characters, and the key is free. |
| `Store.RegisterCheckOrder` | server/server.js:86-108 | Each register error is returned exactly when all earlier checks pass and its own check fails. The checks are `NamePresent` (line 86), `EmailAccepted`, the model of `!email \|\| !isValidEmail(email)` (line 89), `IsValidPassword` (line 92) and a free lower-cased key (line 97). The order is `name_required`, then `invalid_email`, then `weak_password`, then `email_exists`. A request that passes all four checks gets no rejection, so the handler goes on to store the account (line 108). |
| `Store.CredentialStore.constructor` | server/server.js:13 | The store starts with an empty `users` map and satisfies its invariant. |
| `Store.CredentialStore.Register` | server/server.js:81-122 | A failed check returns the first failing error and leaves `users` unchanged, so an existing account is untouched. On success, exactly one entry is added, at the lower-cased email: the record is unverified, its code is the returned `demoCode`, and its hash is bcrypt of password plus salt. No other key changes, and the invariant is kept. |
| `Store.CredentialStore.Insert` | server/server.js:108 | Storing a well-formed record under a new key keeps the invariant and changes nothing else. |
| `Store.CredentialStore.Verify` | server/server.js:130-153 | `missing_fields`, `user_not_found` and `invalid_code` each leave `users` unchanged. The stored code sets `verified` and clears `code` on that one entry. Verifying an already verified account fails with `invalid_code`. The invariant is kept. |
| `Store.CredentialStore.MarkVerified` | server/server.js:145-147 | Setting `verified` and clearing `code` changes that one record only, and the record follows its lifecycle. |
| `Accounts.InsertKeepsInvariants` | server/server.js:108 | Inserting a well-formed record under a fresh key keeps both map invariants and is an allowed change. |
| `Accounts.VerifyKeepsInvariants` | server/server.js:145-147 | Verifying a record that holds a pending code keeps both map invariants and is an allowed change. |
| `Accounts.EvolvesTransitive` | server/server.js:108 | Allowed changes compose across requests: no key is ever removed, and each record is either untouched or goes once from unverified to verified. |
| `Accounts.VerifiedIsTerminal` | server/server.js:145-147 | A verified record never changes again, so `verified` never returns to false. |
| `Accounts.Login` | server/server.js:161-193 | Each outcome is characterised both ways: `missing_fields` exactly when a field is falsy; `user_not_found` exactly when both are present and the lower-cased email is not stored; `not_verified` exactly when the record is unverified; `invalid_password` exactly when the record is verified and bcrypt rejects password plus salt; success exactly when it accepts. On success it returns the stored name and the email as submitted. Being a function of the map, it changes nothing. |
| `Accounts.UnverifiedNeverLogsIn` | server/server.js:177-180 | Login before verification fails with `not_verified`, whatever the password. |
| `Accounts.RegisteredPasswordLogsIn` | server/server.js:182-193 | On a consistent map, a verified account accepts the password it was registered with, under any casing of the email. |
| `Store.RegisterVerifyLogin` | server/server.js:96-191 | Register, then verify with the issued code under one casing of the email, then log in under another. Login returns the registered name and the email as typed at login. |
| `PrototypeLookup.LookupAsWritten` | server/server.js:139 | For the lower-cased keys the handlers look up, `users[key]` on a plain object finds an own record first. Otherwise it finds a property inherited from `Object.prototype` for "constructor" and "__proto__", and `undefined` for any other lower-case key. |
| `PrototypeLookup.LoginAsWritten` | server/server.js:169-180 | `/login` as written answers an inherited key with `not_verified`. On every other key it agrees with `Login`. |
| `PrototypeLookup.VerifyOutcomeAsWritten` | server/server.js:138-153 | `/verify` as written answers an inherited key with `invalid_code`. It answers `user_not_found` only for a key that is neither stored nor inherited. |
| `PrototypeLookup.InheritedKeyLooksRegistered` | server/server.js:138-143 | On a well-formed store, an email whose lower case is an inherited name is not stored. Yet the handlers as written answer it with `not_verified` (login) and `invalid_code` (verify), where the map-keyed model answers `user_not_found`. |
| `PrototypeLookup.ProtoIsInheritedName` | server/server.js:169 | The email "__proto__" lower-cases to an inherited name. |

## Findings

| source | as written | input that shows it | evidently intended | confidence | as-written member | corrected member |
|---|---|---|---|---|---|---|
| server/server.js:138-143, 169-180 | `users` is a plain object, so `users[key]` also finds the properties "constructor" and "__proto__" inherited from `Object.prototype`. Both are truthy, so the handlers treat them as stored users. | `/login` with email "__proto__" and password "secret1" answers `not_verified`. `/verify` with email "Constructor" and code "123456" answers `invalid_code`. No such account exists in either case. | `user_not_found` for both | medium; not executed | `PrototypeLookup.LookupAsWritten`, `PrototypeLookup.LoginAsWritten`, `PrototypeLookup.VerifyOutcomeAsWritten`, `PrototypeLookup.InheritedKeyLooksRegistered` | `Accounts.Login`, `Store.CredentialStore.Verify` |

## Left out

- HTTP framing is not modelled: Express setup, CORS, body parsing, `app.listen`, the port and the environment (server/server.js:1-10, 216-220). Handlers return an `Outcome`/`Result` carrying the `error` code; status codes and messages are dropped.
- The logger (server/server.js:16-20) is console output with timestamps.
- `createTransporter` and `sendVerification` (server/server.js:34-78) send mail over SMTP. `Register` has no mail step. The source catches and logs a mail failure, so such a failure never changes the answer of `/register`.
- bcrypt is modelled by the abstract `Crypt`. `genSaltSync(10)` becomes the `salt` parameter, and the random salt inside `hashSync` is folded into `Crypt.hash`. The only property assumed is that an input compares true against its own hash.
- `Accounts.RegisteredPasswordLogsIn`: states only that the registered password is accepted. It does not claim that every other password is rejected, because bcrypt reads only the first 72 bytes of its input.
- `Math.random()` (server/server.js:105) uses floating point. The model takes the draw `n` as a parameter, restricted to the range the formula can produce.
- `createdAt: new Date()` (server/server.js:108) reads the clock. It is not stored.
- `/health` (server/server.js:200-203), the 404 and 500 middleware (server/server.js:205-214) and the `server_error` catch blocks (server/server.js:123-126, 154-157, 194-197) are outside the credential store.
- Requests run one at a time. The model does not cover async interleaving or concurrent requests.
- `Text.ToLower`: folds ASCII letters only. JavaScript's `toLowerCase` also folds non-ASCII letters.
- A request field is modelled as absent/null or a string. Non-string JSON values are not modelled, for example a numeric `code`: a non-zero number never `===` the stored string, and `0` is falsy.
- `Validation.IsValidPassword`: counts characters. JavaScript's `length` counts UTF-16 code units, so a character outside the Basic Multilingual Plane counts once here and twice in the source.
