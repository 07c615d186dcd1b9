# droplet API identity and account core, in Dafny

This project models the identity and account logic of the droplet API as Dafny
datatypes, functions, classes and methods, and proves properties about them. The
covered code is:

- the error model of `pkg/errs`;
- the user and account stores of `internal/storage`, with the tables held in
  memory instead of PostgreSQL;
- the sign-in, sign-up, create-account and get-account services;
- the JWT token authority of `pkg/auth`;
- the `Authorization` header splitter `getAuthToken`;
- the `{{Field}}` substitution `Config.Replace`.

Modules, one per file:

- `Wrappers` (`wrappers.dfy`): `Option` and `Result`.
- `Errs` (`errs.dfy`): a Go `error` value is the datatype `Error`, with three routes.
  - `Expected(Err)` is an `*Err` returned as it is.
  - `Wrapped(context, cause)` is `fmt.Errorf("context%w", cause)`.
  - `Plain(message)` is any other error.
  - `IsExpected` is a type test on the error itself, and `GetCode` reads the code of an `*Err`.
- `Entity` (`entity.dfy`): `User`, `AccountDevice`, `AccountSettings` and the `Account` aggregate. A parent is held by its id only.
- `Ids` (`ids.dfy`): the fresh-id oracle that stands in for `uuid_generate_v4()`.
  - The k-th draw is `IdOf(k)`, and distinct draws give distinct ids.
  - `LexLe` is the order of string primary keys that `First` sorts by.
- `Hashing` (`hashing.dfy`): `GenerateHash` and `CompareHash` as two function values.
  - The ghost predicate `Sound` is the assumption: a digest made for `p` accepts exactly `p`.
  - `SoundHasherExists` shows that the assumption can be met.
- `UserStore` (`user_store.dfy`): the class `UserStorage`.
  - Its fields are the user rows and the oracle's counter.
  - `GetUser` and `CreateUser` are tied to the functions `FirstMatch` and `InsertUser`.
- `AccountStore` (`account_store.dfy`): the class `AccountStorage`.
  - Its fields are the account, device and settings tables and the counter.
  - `CreateAccount`, `GetAccount` and `UpdateAccount` are tied to `InsertAccount`, `LoadAccount` and `SaveAccount`.
  - gorm's association handling is spelled out:
    - `Create` upserts the associations. On a primary-key conflict it sets only the foreign key.
    - The devices go to the database as one multi-row upsert. If two of them share an id, PostgreSQL refuses the statement, and the whole create or update fails and writes nothing.
    - An update with `FullSaveAssociations` writes every column, zero values included.
    - The preload collects every device with the account's id, and for has-one settings the last matching row.
    - `First` returns the matching row with the least primary key.
- `Auth` (`auth.dfy`): a token is a datatype.
  - A signed token holds an algorithm, a key and a claims record; anything else is malformed.
  - Signing and verifying are equality of keys.
  - `ParseToken` follows the checks of `golang-jwt` v5.
    - It rejects any method that is not HMAC.
    - A token is valid when `now < exp` and `nbf <= now`, each checked only when the claim is present.
    - A token without `username` or `userId` is refused.
- `AuthServices` (`auth_service.dfy`): the class `AuthService`, which owns the user store.
  - `SignIn` and `SignUp` are proved equal to the functions `SignInOn` and `SignUpOn`.
  - The lemmas are stated about those functions.
- `AccountServices` (`account_service.dfy`): the class `AccountService` over both stores.
  - Its methods are `CreateAccount` and `GetAccount`.
- `HttpController` (`controller.dfy`): `strings.Split` on one separator, `strings.Join`, and `getAuthToken`.
- `AppConfig` (`config.dfy`): the `App` section as the list of its `(name, value)` fields.
  - `bytes.Replace(..., -1)` is `ReplaceAll`.
  - `Config.Replace` is a method with a loop over the fields.

Store failures, the clock (`now`, in seconds), the token id (`jti`) and the ids
from the database default are parameters. A fault parameter `Some(e)` is the
error the database driver would report.

Where the program does not match its own declarations, the model follows the
declared interfaces:

- `internal/service/auth.go:54` and `:92` pass a user name to `GenerateToken`, but the interface takes `{UserId, UserName}` (`pkg/auth/auth.go:4-11`). The model passes the stored user's id and name (`AuthServices.ClaimsFor`).
- `internal/service/auth.go:86` sets a `MacAddress` that `entity.User` does not have. The model stores the user without it.
- The comment on `IsExpected` says it finds an `*Err` inside the error, but the code only tests the error itself. The model follows the code: `Errs.ExpectedOnlyAtTop` proves that a wrapped business error is not expected (`HasErrInChain` is what the comment describes).
- With an empty selector, the filters of `GetUser` and `GetAccount` put no condition on that column. An empty email therefore finds the first user, and an empty account id finds the first account. The lemmas state these cases instead of excluding them.

## Model

| member | source | states |
|---|---|---|
| Errs.New | api/pkg/errs/errors.go:10-12 | the error has the given message and code and no details |
| Errs.ErrorText | api/pkg/errs/errors.go:14-16 | an `*Err`'s text is its message alone, never its code; a wrapped error's text starts with its context |
| Errs.GetCode | api/pkg/errs/errors.go:24-31 | the code of an `*Err`, and "" for every error that is not one |
| Errs.NewIsExpected | api/pkg/errs/errors.go:10-31 | an error made by `New` is expected; its code is the given code and its text is the message |
| Errs.WrappedIsUnexpected | api/pkg/errs/errors.go:18-31 | a business error wrapped with `%w` is not expected and has code "", although it is in the chain of causes |
| Errs.ExpectedOnlyAtTop | api/pkg/errs/errors.go:18-22 | an error is expected if and only if it is an `*Err` itself: it has one in its chain and is not wrapped |
| Ids.IdOfInjective | api/internal/entity/user.go:4 | two draws of the id oracle give the same id if and only if they are the same draw |
| Ids.LexLeTotal | api/internal/storage/user.go:34-37 | any two primary keys are ordered one way or the other |
| Ids.LexLeReflexive | api/internal/storage/user.go:34-37 | every primary key is ordered before or equal to itself |
| Ids.LexLeTransitive | api/internal/storage/user.go:34-37 | the order of primary keys is transitive |
| Hashing.SoundHasherExists | api/pkg/hash/hash.go:3-6 | some hasher meets the assumption that a digest of `p` accepts exactly `p` |
| UserStore.FirstMatch | api/internal/storage/user.go:22-46 | none if and only if no row meets the non-empty selectors; otherwise a stored matching row whose id is least |
| UserStore.UserStorage.GetUser | api/internal/storage/user.go:22-46 | a store failure comes back unchanged; otherwise the first match, with no match as `None` and not an error; the table is not changed |
| UserStore.UserStorage.CreateUser | api/internal/storage/user.go:48-55 | the result and the new table and counter are those of `InsertUser` on the old ones |
| UserStore.InsertUserShape | api/internal/storage/user.go:48-55 | on success, the user comes back with its own id or the next draw, that id was not stored, and the user is appended; otherwise nothing changes, and a fault comes back as it is |
| UserStore.InsertUserKeepsKeys | api/internal/storage/user.go:48-55 | inserting keeps user ids unique; inserting a user that brings no id of its own keeps ids fresh for the oracle's later draws |
| UserStore.InsertIgnoresEmail | api/internal/entity/user.go:6 | a user with a new id is inserted whatever its email, including one already stored: no uniqueness check |
| AccountStore.FirstMatch | api/internal/storage/account.go:32-47 | none if and only if no account row meets the non-empty selectors; otherwise a stored matching row whose id is least |
| AccountStore.DevicesOfMembers | api/internal/storage/account.go:33 | the preloaded devices are exactly the stored devices whose foreign key is the account's id |
| AccountStore.SettingsOfMembers | api/internal/storage/account.go:33 | the preloaded settings are absent if and only if no settings row names the account, and are otherwise a stored row naming it |
| AccountStore.LoadAccountSpec | api/internal/storage/account.go:32-56 | none if and only if nothing matches; otherwise the least-id matching account with exactly its stored devices and a stored settings row of its own, present if and only if one exists |
| AccountStore.AccountIndex | api/internal/storage/account.go:62 | the position of the row with this id, none if and only if no row has it |
| AccountStore.AccountStorage.GetAccount | api/internal/storage/account.go:32-56 | a store failure comes back unchanged; otherwise the loaded aggregate, with no match as `None`; the tables are not changed |
| AccountStore.AccountStorage.CreateAccount | api/internal/storage/account.go:23-30 | the result and the new tables are those of `InsertAccount` on the old tables |
| AccountStore.AccountStorage.UpdateAccount | api/internal/storage/account.go:58-80 | the result and the new tables are those of `SaveAccount` on the old tables |
| AccountStore.AssignDevicesKeeps | api/internal/entity/account.go:6 | every saved device keeps its fields and an id it brings, and takes the account's id as foreign key |
| AccountStore.AssignDevicesRange | api/internal/entity/account.go:11 | each device without an id takes a draw between the first draw and the number of blank devices after it |
| AccountStore.AssignDevicesDistinct | api/internal/entity/account.go:11 | no two devices without an id take the same id |
| AccountStore.AssignDevicesInOrder | api/internal/storage/account.go:24 | devices that all lack an id take consecutive draws in order and the account's id |
| AccountStore.AssignedOwned | api/internal/entity/account.go:6-7 | the saved aggregate keeps the user id and the number of devices, every device and the settings name the account, and settings exist if and only if they were given |
| AccountStore.AssignedFresh | api/internal/entity/account.go:4 | every id of the saved aggregate was given or drawn before the counter's new value |
| AccountStore.UpsertDeviceKeeps | api/internal/storage/account.go:24 | saving a device keeps every row with another id, stores the device on a full save, and every row after it was stored before or has the device's id |
| AccountStore.UpsertDevicesStores | api/internal/storage/account.go:60 | a full save of devices with distinct ids stores each of them and keeps every row with an id none of them has |
| AccountStore.UpsertDevicesKeepUnique | api/internal/entity/account.go:11 | upserting devices keeps device ids unique |
| AccountStore.UpsertDevicesOwners | api/internal/entity/account.go:6 | upserting devices owned by stored accounts keeps every device owned by a stored account |
| AccountStore.UpsertDevicesFrom | api/internal/storage/account.go:24 | every row after an upsert was stored before or has the id of a saved device |
| AccountStore.UpsertNewDevices | api/internal/storage/account.go:24 | devices with new, distinct ids are appended in order |
| AccountStore.UpsertSettingsKeeps | api/internal/entity/account.go:7 | saving settings owned by a stored account keeps settings ids unique and every settings row owned |
| AccountStore.UpsertSettingsStores | api/internal/storage/account.go:60 | a full save stores the given settings row |
| AccountStore.UpsertDevicesStayFresh | api/internal/entity/account.go:11 | upserting fresh devices keeps the device table fresh for later draws |
| AccountStore.UpsertSettingsStayFresh | api/internal/entity/account.go:12 | upserting fresh settings keeps the settings table fresh for later draws |
| AccountStore.ConsistentAfterWrite | api/internal/storage/account.go:24 | writing an aggregate owned by a stored account keeps ids unique and every association owned |
| AccountStore.InsertAccountKeepsConsistent | api/internal/storage/account.go:23-30 | creating an account keeps ids unique in each table and every device and settings row owned by a stored account |
| AccountStore.SaveAccountKeepsConsistent | api/internal/storage/account.go:58-80 | updating an account keeps the same invariant |
| AccountStore.InsertAccountKeepsFresh | api/internal/storage/account.go:23-30 | creating an account whose given ids are not future draws keeps every table fresh for the new counter |
| AccountStore.SaveAccountKeepsFresh | api/internal/storage/account.go:58-80 | updating with an aggregate whose given ids are not future draws keeps every table fresh for the new counter |
| AccountStore.SaveUnknownAccountFails | api/internal/storage/account.go:59-67 | updating an account whose id is not stored fails and changes nothing |
| AccountStore.SaveAccountWrites | api/internal/storage/account.go:58-80 | a successful update rewrites the row in place and keeps every account row with another id; it returns the reload of that row, whose devices are exactly the stored ones with its id; it stores the settings row and keeps every settings row with another id; the saved devices have distinct ids, each is stored and returned, and every device with another id is kept |
| AccountStore.SaveThenReloadFailure | api/internal/storage/account.go:69-77 | a failing reload is returned as the error, yet the write it follows stays |
| AccountStore.DuplicateDevicesRejected | api/internal/storage/account.go:23-30 | an aggregate with two devices bringing the same id fails on create and on update, and nothing is written |
| AccountStore.UpsertSettingsKeepsOthers | api/internal/storage/account.go:60 | saving settings keeps every settings row with another id |
| AccountStore.NothingOwnedBy | api/internal/entity/account.go:6-7 | in a consistent store, an id no account has owns no device and no settings row |
| AccountStore.InsertThenLoad | api/internal/storage/account.go:23-56 | creating an aggregate without ids succeeds under the next draw, and loading by that id gives exactly the aggregate that was returned |
| AccountStore.LoadInserted | api/internal/storage/account.go:33-47 | an appended account with fresh associations loads back by its id as it was saved |
| AccountStore.FirstMatchNewRow | api/internal/storage/account.go:35-47 | an appended row with a new, non-empty id is the one its id selects |
| Auth.NewAuth | api/pkg/auth/jwt.go:14-16 | the authenticator's signing key is empty |
| Auth.NewAuthWithKey | api/config/config.go:43-46 | an authenticator built from a configured non-empty key, which differs from the one `NewAuth` gives |
| Auth.GenerateToken | api/pkg/auth/jwt.go:24-48 | an HS256 token under the signing key, carrying the user's name and id, with `iat` and `nbf` at `now` and `exp` 560 hours later, issuer "droplet-api", subject "client", audience `["droplet"]` and the given token id |
| Auth.ParseToken | api/pkg/auth/jwt.go:50-79 | success if and only if the token is signed with an HMAC method and the authenticator's key, it is valid at `now`, and both custom claims are present; the output is those claims; every failure is unexpected |
| Auth.MintThenParse | api/pkg/auth/jwt.go:24-79 | a token minted by an authenticator parses back on it to the original user id and name at any time within its lifetime |
| Auth.MintedTokenOutsideWindow | api/pkg/auth/jwt.go:31-33 | a minted token is refused before its issue time and from its expiry on |
| Auth.OtherKeyRejected | api/pkg/auth/jwt.go:57 | a token minted under one key is refused by an authenticator with another key |
| Auth.NonHmacRejected | api/pkg/auth/jwt.go:53-55 | a token signed with a method that is not HMAC is refused whatever its key and claims |
| Auth.EmptyKeyForgery | api/pkg/auth/jwt.go:14-16 | anyone can sign with the empty key claims naming any user id and name, and `NewAuth`'s authenticator accepts them |
| Auth.ConfiguredKeyRejectsForgery | api/pkg/auth/jwt.go:50-58 | with a configured key, tokens signed with another key or with the empty key are refused |
| AuthServices.SignInCases | api/internal/service/auth.go:31-62 | a store failure comes back wrapped, unexpected and without a code; `user_not_found` if and only if no user has the email; `wrong_password` if and only if the digest comparison fails; on success, the token is minted for the matching stored user |
| AuthServices.SignInTokenParses | api/internal/service/auth.go:54-61 | the token of a sign-in parses, within its lifetime, to the id and name of a stored user with that email |
| AuthServices.SignUpCases | api/internal/service/auth.go:64-100 | a failure leaves the table and counter unchanged; `user_already_created` if and only if a user has the email; that is the only expected error; success if and only if the email is new, hashing succeeds and the insert succeeds; a success stores the digest and not the password, and returns the new id, the name and email, an empty account id and a token for the new user |
| AuthServices.SignUpKeepsInvariants | api/internal/service/auth.go:70-90 | sign-up keeps emails unique, ids unique, and ids fresh for later draws |
| AuthServices.SignUpThenSignIn | api/internal/service/auth.go:48-52 | under the hash assumption, after a sign-up, signing in with the same email and password succeeds with a token that parses to the new user; any other password gives `wrong_password` |
| AuthServices.AuthService.SignIn | api/internal/service/auth.go:31-62 | the result is `SignInOn` of the current user table, and the table is not changed |
| AuthServices.AuthService.SignUp | api/internal/service/auth.go:64-100 | the result and the new user table and counter are those of `SignUpOn` on the old ones |
| AccountServices.CreateAccountFailures | api/internal/service/account.go:31-62 | a failure leaves the tables unchanged; a lookup failure comes back wrapped; `user_not_found` if and only if no user has the id; that is the only expected error; a store failure comes back wrapped with "failed to create account: " |
| AccountServices.CreateAccountSucceeds | api/internal/service/account.go:42-66 | a success had no failure; the account is built for the stored user found by the id; the output is the new account id and that user's id; the tables are those `CreateAccount` of the store writes |
| AccountServices.NewAggregateAssigned | api/internal/service/account.go:42-55 | the built aggregate is saved with the user id, one device carrying the options' name, OS, MAC address and active flag, and settings with the options' language, even an empty one; its ids are the next three draws |
| AccountServices.CreateAccountKeepsInvariants | api/internal/service/account.go:42-58 | creating an account keeps the store consistent and fresh, and every account owned by a stored user |
| AccountServices.CreateThenGet | api/internal/service/account.go:25-88 | after a successful create, getting by the returned id gives the whole aggregate: the user id, the one device and the settings with the given language |
| AccountServices.GetAccountCases | api/internal/service/account.go:69-88 | a store failure comes back wrapped and unexpected; `account_not_found` if and only if no account has the id; on success, the stored aggregate with that id, with exactly its stored devices and its settings row |
| AccountServices.AccountService.CreateAccount | api/internal/service/account.go:25-67 | the result and the new account tables are those of `CreateAccountOn` on the user table and the old account tables |
| AccountServices.AccountService.GetAccount | api/internal/service/account.go:69-88 | the result is `GetAccountOn` of the current account tables, which are not changed |
| HttpController.SplitCount | api/internal/controller/http/controller.go:185 | `strings.Split` gives one piece more than there are separators |
| HttpController.SplitPiecesFree | api/internal/controller/http/controller.go:185 | no piece contains the separator |
| HttpController.SplitThenJoin | api/internal/controller/http/controller.go:185 | joining the pieces with the separator gives back the string |
| HttpController.JoinThenSplit | api/internal/controller/http/controller.go:185 | splitting a join of separator-free pieces gives back the pieces |
| HttpController.SplitAtFirst | api/internal/controller/http/controller.go:185 | a string splits at its first separator into the text before it and the pieces of the rest |
| HttpController.GetAuthTokenSpec | api/internal/controller/http/controller.go:179-193 | "empty auth token" if and only if the header is empty; success if and only if the header holds exactly one space; "malformed auth token" otherwise; the token has no space and the header is a space-free first piece, a space and the token |
| HttpController.AnySchemeAccepted | api/internal/controller/http/controller.go:185-192 | any space-free scheme, "Bearer" or not, followed by a space and a space-free token gives that token |
| HttpController.AcceptedHeaders | api/internal/controller/http/controller.go:185-192 | "Bearer " gives the empty token, and "Basic abc" gives "abc" |
| HttpController.RefusedHeaders | api/internal/controller/http/controller.go:185-188 | "Bearer" and "Bearer a b" are malformed |
| AppConfig.Config.Replace | api/config/config.go:52-69 | the output is the passes over the fields of `App` in declaration order, each acting on the previous output; the input is a value and is not changed |
| AppConfig.Placeholder | api/config/config.go:62 | `{{name}}` is four bytes longer than the name |
| AppConfig.ReplaceAbsent | api/config/config.go:60-65 | an input with no occurrence of the placeholder comes back unchanged |
| AppConfig.ReplaceBySelf | api/config/config.go:60-65 | replacing the placeholder by itself changes nothing |
| AppConfig.ReplaceLeftmost | api/config/config.go:60-65 | the leftmost occurrence is replaced, the text before it is kept, and the scan resumes after it, so occurrences are non-overlapping and taken left to right |
| AppConfig.ReplaceFieldsAbsent | api/config/config.go:58-66 | passes whose placeholders occur nowhere in the input leave it unchanged |
| AppConfig.OnlyAppPlaceholders | api/config/config.go:54-66 | an input without `{{BaseURL}}` comes back unchanged, whatever other placeholders it holds |
| AppConfig.PortPlaceholderSurvives | api/config/config.go:21-28 | `{{Port}}`, a field of `HTTP` and not of `App`, survives |
| AppConfig.BaseURLSubstituted | api/config/config.go:58-66 | the first `{{BaseURL}}` becomes the configured base URL, the text before it is kept, and the rest is substituted in the same way |
| AppConfig.SelfReferenceIsIdentity | api/config/config.go:60-65 | a base URL that is the placeholder itself gives back the input |

## Left out

- Transport: HTTP, gin routing, middleware, JSON binding, the handlers and the error-to-status mapping are not modelled.
- The middleware's call of `AuthService.VerifyToken` (`internal/controller/http/controller.go:165`) is not modelled. No such operation is declared on the service interface.
- Logging is an external sink and is not modelled. Note that `SignIn` and `SignUp` log the request body, password included.
- PostgreSQL and gorm are replaced by in-memory tables. SQL, the connection and the `uuid` column type are not modelled.
  - An id the caller gives is not checked to be a valid UUID.
  - The texts of gorm's errors are `Plain` constants, not the library's messages.
- The password hash is abstract. bcrypt and its cost factor are not modelled.
- `Hasher.generate` is a pure function, so it gives the same digest for a password on every call. bcrypt draws a fresh salt on each call. No contract depends on the digest being the same.
- HMAC-SHA256, base64url and the JSON of the compact JWS form are not modelled. A signature is the signing key itself.
- The clock, the token id and the database's failures are parameters. Concurrency, cancellation through `context.Context`, timeouts, and the race between `SignUp`'s lookup and its insert are not modelled; the model is sequential.
- The error path of `GenerateToken` (`pkg/auth/jwt.go:42-45`) is not modelled. Signing with HS256 and a byte-slice key cannot fail.
- `SignUpOptions.macAddress` is carried but not stored, because `entity.User` has no such field.
- The node subsystem, `config.Get`, application start-up and environment reading are not modelled.
- AccountStore.SaveAccountWrites: does not state which settings row the reload returns when several rows name the account. That depends on the order of the rows the preload reads.
- AccountStore.DevicesOf: the preload has no ORDER BY, so PostgreSQL guarantees no order for a reload's devices. The model lists them in table order, and an upsert that hits a taken id keeps the row in its place. That order is the model's choice, and so is the device order that `InsertThenLoad` and `CreateThenGet` state.
- AppConfig.ReplaceAll: requires a non-empty pattern. `bytes.Replace` with an empty pattern inserts at every UTF-8 boundary, but a placeholder is never empty.
- Field names and values of `App` are byte strings in the model. The UTF-8 encoding of Go strings is not modelled.
- The `Log` and `PostgreSQL` sections of `Config` are not read by `Replace` and are left out of the value.

## Findings

| source | as written | input that shows it | evidently intended | confidence | as-written member | corrected member |
|---|---|---|---|---|---|---|
| api/pkg/auth/jwt.go:14-16 | `NewAuth` leaves `signKey` empty, and no part of `Config` carries the `JWT` section's key, so every token is signed and verified with the empty key | HS256 claims for any user id and name signed with the key "" are accepted by `ParseToken` as that user | sign and verify under the configured `JWT.SignKey` (`api/config/config.go:43-46`), so that only its holder can mint tokens | not executed | Auth.EmptyKeyForgery | Auth.ConfiguredKeyRejectsForgery |
