# OAuth2 grant model of aws-authorizer-oauth2, in Dafny

This project models the storage-facing core of an OAuth2 authorization server that keeps its
state in five DynamoDB tables: credentials, clients, access tokens, refresh tokens and
authorization codes. It covers:

- the grant model, i.e. the callbacks the `oauth2-server` engine invokes;
- the mappers between stored records and engine objects, and the query-criteria builders;
- the clients and credentials repositories;
- the two admin Lambda dispatchers;
- the store-changing parts of the `credential` and `client` command-line tools.

The store is the class `Store.Database`. It holds the five tables as sequences, plus the journal
of every put and delete it has received, in order. A put is an upsert on the table's primary
key, and a delete removes by that key. Every operation that writes is a method. Its
postcondition says that the journal grew by exactly the writes a pure function computes from
the inputs and the store beforehand (`SaveTokenWrites`, `RevokeTokenWrites`, `DestroyWrites`,
...), and that the new tables are those writes replayed (`ApplyAll`). Lemmas then state what
those writes mean: what a later lookup returns, what stays unchanged, and that a second
revocation finds nothing. Lookups are functions of the store's contents, and each one is tied
to the first table entry that meets its condition (`Tables.FirstWhere`).

Engine-side values whose absence matters (`undefined`, `null`, `false`) are `Option`s.
Times are integer milliseconds on the engine side and integer seconds in storage. Password
hashing is `digest(salt + password)` with the digest left abstract. Fresh ids, generated
secrets and the interactive password are parameters.

Modules, one per source file (plus shared helpers): `Wrappers`, `Text`, `Tables`, `Records`,
`Domain`, `CriteriaFromParams`, `DataToDomain`, `DataGenerators`, `Store`, `Hashing`,
`Clients`, `Credentials`, `GrantModel`, `LambdaCommon`, `ClientsLambda`, `CredentialsLambda`,
`CredentialCli`, `ClientCli`.

## Model

| member | source | states |
|---|---|---|
| Store.Database.Perform | src/lib/persistence/dynamodb.js:26-59 | one `putItem`/`deleteItem`: the journal grows by exactly that write, and the tables become the write applied to the old tables |
| Store.ApplyKeepsValid | src/lib/persistence/dynamodb.js:26-59 | a put (upsert on the primary key) or a delete by key keeps every table's primary key unique |
| Store.ApplyAllKeepsValid | src/lib/persistence/dynamodb.js:26-59 | any sequence of puts and deletes keeps every primary key unique |
| Store.ApplyEffect | src/lib/persistence/dynamodb.js:26-59 | a write changes only its own table; after a put its key finds the new record and every record under another key stays; after a delete its key finds nothing and every record under another key stays |
| Store.Query | src/lib/persistence/dynamodb.js:76-97 | a query returns only records of its table, exactly those meeting the key condition, and never more than the table holds |
| Store.QuerySelect | src/lib/persistence/dynamodb.js:76-97 | a query with the key condition `F = :F` bound to `v` returns exactly the records whose `F` is present and equals `v`, in table order; an unbound value matches nothing |
| Store.QueryFirst | src/lib/persistence/dynamodb.js:76-97 | the first item of such a query is the first record in the table that meets the condition |
| CriteriaFromParams.Bind | src/lib/oauth2/model/criteriaFromParams.js:13-46 | the shared builder shape: `where` is `F = :F`, the index is as given, and the condition holds for exactly the value `params.F` (none when `F` is absent) |
| CriteriaFromParams.TransformCredential | src/lib/oauth2/model/criteriaFromParams.js:5-11 | the only builder with an index (`IdUsernameGSI`); `where` is `id = :id`, bound to `params.id` untransformed |
| CriteriaFromParams.TransformCredentials | src/lib/oauth2/model/criteriaFromParams.js:13-18 | no index; `username = :username`, bound to `params.username` |
| CriteriaFromParams.TransformAccessToken | src/lib/oauth2/model/criteriaFromParams.js:20-25 | no index; `access_token = :access_token`, bound to `params.access_token` |
| CriteriaFromParams.TransformRefreshToken | src/lib/oauth2/model/criteriaFromParams.js:27-32 | no index; `refresh_token = :refresh_token`, bound to `params.refresh_token` |
| CriteriaFromParams.TransformClient | src/lib/oauth2/model/criteriaFromParams.js:34-39 | no index; `client_id = :client_id`, bound to `params.client_id` |
| CriteriaFromParams.TransformAuthorization | src/lib/oauth2/model/criteriaFromParams.js:41-46 | no index; `code = :code`, bound to `params.code` |
| CriteriaFromParams.BindReadsOnlyItsField | src/lib/oauth2/model/criteriaFromParams.js:5-46 | a builder reads only its own field: parameter objects that agree on it give the same criteria |
| DataToDomain.ConvertUnixTimeToDate | src/lib/oauth2/model/dataToDomain.js:5-10 | absent stays absent; `u` seconds becomes a whole-second instant of `u*1000` ms |
| DataToDomain.TransformClient | src/lib/oauth2/model/dataToDomain.js:12-19 | `client_id` becomes `id`, `user_id` becomes `user.id`, grants and redirect URIs are carried over (absent URIs stay absent) |
| DataToDomain.TransformRefreshToken | src/lib/oauth2/model/dataToDomain.js:21-32 | both tokens and the scope are carried over, the ids become `{ id }` references, and the expiry in seconds becomes the same instant in milliseconds (absent stays absent) |
| DataToDomain.TransformAccessToken | src/lib/oauth2/model/dataToDomain.js:34-44 | the token and scope are carried over, the ids become `{ id }` references, and the expiry in seconds becomes milliseconds (absent stays absent) |
| DataToDomain.TransformCredentials | src/lib/oauth2/model/dataToDomain.js:46 | only `id` and `username` are picked |
| DataToDomain.TransformAuthorization | src/lib/oauth2/model/dataToDomain.js:48-59 | code, scope and redirect URI are carried over, the ids become `{ id }` references, and the expiry becomes milliseconds (absent stays absent) |
| DataToDomain.TransformClientHidesSecret | src/lib/oauth2/model/dataToDomain.js:12-19 | the engine's client does not depend on the stored secret or description, and its `user.id` is the record's `user_id` |
| DataToDomain.TransformCredentialsHidesPassword | src/lib/oauth2/model/dataToDomain.js:46 | a credential is projected to `{id, username}`; the password hash never reaches the engine |
| DataGenerators.ConvertDateToUnixTime | src/lib/oauth2/model/dataGenerators.js:5-10 | absent stays absent; `ms` becomes the `r` with `r*1000 <= ms < r*1000+1000` (the floor) |
| DataGenerators.WholeSecond | src/lib/oauth2/model/dataGenerators.js:9 | a time rounded down to its second: a multiple of 1000 within the same second |
| DataGenerators.GenerateAccessToken | src/lib/oauth2/model/dataGenerators.js:12-20 | the record holds the token and scope, the client's and user's ids, and the expiry converted to whole seconds |
| DataGenerators.GenerateRefreshToken | src/lib/oauth2/model/dataGenerators.js:22-31 | the record holds the refresh token beside its access token, the scope, both ids, and the refresh expiry in whole seconds |
| DataGenerators.GenerateAuthorization | src/lib/oauth2/model/dataGenerators.js:33-42 | the record is keyed by the grant's `authorizationCode` and holds its scope, redirect URI, both ids and the expiry in whole seconds |
| DataGenerators.SecondsRoundTrip | src/lib/oauth2/model/dataGenerators.js:5-10 | seconds to a date and back is the identity |
| DataGenerators.MillisecondsRoundTrip | src/lib/oauth2/model/dataToDomain.js:5-10 | a date to seconds and back loses exactly the milliseconds below the second |
| DataGenerators.AccessTokenRoundTrip | src/lib/oauth2/model/dataGenerators.js:12-20 | a generated access-token record read back gives the token, its scope, the client and user ids, and the expiry to the second |
| DataGenerators.RefreshTokenRoundTrip | src/lib/oauth2/model/dataGenerators.js:22-31 | the same for a refresh token, with the paired access token carried through as `accessToken` |
| DataGenerators.AuthorizationRoundTrip | src/lib/oauth2/model/dataGenerators.js:33-42 | an authorization record read back gives the code under the name `code`, and its expiry, scope and redirect URI |
| DataGenerators.AccessTokenItemRoundTrip | src/lib/oauth2/model/dataToDomain.js:34-44 | a stored access-token record mapped to the engine and generated again is the same record |
| DataGenerators.RefreshTokenItemRoundTrip | src/lib/oauth2/model/dataToDomain.js:21-32 | the same for a stored refresh-token record |
| DataGenerators.AuthorizationItemRoundTrip | src/lib/oauth2/model/dataToDomain.js:48-59 | the same for a stored authorization record |
| DataGenerators.GeneratorsReadOnlyIds | src/lib/oauth2/model/dataGenerators.js:12-31 | only `client.id` and `user.id` reach a token record; grants, usernames and the rest do not |
| DataGenerators.ExpiryStoredIffSet | src/lib/oauth2/model/dataGenerators.js:12-42 | an expiry field is stored exactly when the engine set the corresponding date |
| Hashing.HashDistinguishes | src/lib/utils.js:10 | with an injective digest, two passwords hash alike exactly when their texts after `salt +` agree |
| Hashing.OmittedPasswordHash | src/lib/utils.js:10 | an omitted password hashes like the text "undefined" |
| Hashing.HashPassword | src/lib/utils.js:10 | the digest of the salt followed by the password; an omitted password is joined as the text "undefined" |
| Clients.Get | src/lib/clients/index.js:11-23 | the first record whose `client_id` equals the id, or none |
| Clients.GetIsFind | src/lib/clients/index.js:11-23 | `get` is the keyed lookup by `client_id` |
| Clients.Record | src/lib/clients/index.js:25-41 | the record `put` writes: the five fields as given, and `redirect_uris` if and only if the list is non-empty, so an empty list is never stored |
| Clients.Put | src/lib/clients/index.js:25-41 | exactly one upsert of that record |
| Clients.GetAfterPut | src/lib/clients/index.js:25-41 | a put is read back by `get`, and afterwards it is the only record with its `client_id` (a second put replaces the first) |
| Clients.GetAfterPutOther | src/lib/clients/index.js:25-41 | a put leaves every other id's lookup unchanged |
| Clients.Delete | src/lib/clients/index.js:43-49 | exactly one delete, keyed by `client_id` alone; an absent id is not an error |
| Clients.GetAfterDelete | src/lib/clients/index.js:43-49 | after a delete the id is gone and every other id's lookup is unchanged |
| Clients.List | src/lib/clients/index.js:51-57 | every record and nothing else; empty for an empty table |
| Clients.ListForUser | src/lib/clients/index.js:59-71 | exactly the records whose `user_id` equals the owner id, in table order, through `UserIdClientIdGSI` |
| Clients.ListForUserAfterPut | src/lib/clients/index.js:59-71 | a put client is listed for its owner, and nothing else new appears in that listing |
| Credentials.Get | src/lib/credentials/index.js:11-23 | the first credential with that username, or none |
| Credentials.GetIsFind | src/lib/credentials/index.js:11-23 | `get` is the keyed lookup by username |
| Credentials.GetById | src/lib/credentials/index.js:25-38 | the first credential with that id through `IdUsernameGSI`, or none |
| Credentials.Put | src/lib/credentials/index.js:40-48 | exactly one upsert of `{id, username, password}` as given, with no hashing |
| Credentials.GetAfterPut | src/lib/credentials/index.js:40-48 | what `put` stored is what `get` returns, password field unchanged |
| Credentials.GetAfterPutOther | src/lib/credentials/index.js:40-48 | a put leaves every other username's lookup unchanged |
| Credentials.GetByIdAfterPut | src/lib/credentials/index.js:25-48 | a put is found by its id when no other username holds that id |
| Credentials.Delete | src/lib/credentials/index.js:50-56 | exactly one delete, keyed by username alone |
| Credentials.GetAfterDelete | src/lib/credentials/index.js:50-56 | after a delete the username is gone and every other username's lookup is unchanged |
| Credentials.List | src/lib/credentials/index.js:58-64 | every stored credential and nothing else |
| GrantModel.GetCredential | src/lib/oauth2/model/index.js:15-24 | the first credential with that id |
| GrantModel.ListCredentials | src/lib/oauth2/model/index.js:26-41 | the credentials with that username whose stored password equals the hash, in table order |
| GrantModel.ListAccessTokens | src/lib/oauth2/model/index.js:43-53 | the records with that access token |
| GrantModel.ListRefreshTokens | src/lib/oauth2/model/index.js:55-65 | the records with that refresh token |
| GrantModel.ListClients | src/lib/oauth2/model/index.js:67-90 | the records with that `client_id`, further filtered to an exactly equal `client_secret` only when a secret is given |
| GrantModel.ListAuthorizationCodes | src/lib/oauth2/model/index.js:92-105 | the records with that code |
| GrantModel.GetClient | src/lib/oauth2/model/index.js:111-128 | the first client with that id (and that exact secret, when one is given), mapped through `transformClient` |
| GrantModel.GetClientWithSecret | src/lib/oauth2/model/index.js:67-90 | with unique ids, a secret lets the client through only when it equals the stored one; a wrong secret and an unknown client both give none |
| GrantModel.GetClientWithoutSecret | src/lib/oauth2/model/index.js:111-128 | without a secret, `getClient` is the keyed lookup mapped to the engine |
| GrantModel.GetClientSecretNarrows | src/lib/oauth2/model/index.js:67-90 | a client found with a secret is the one found without it |
| GrantModel.GetClientAfterPut | src/lib/oauth2/model/index.js:111-128 | right after a client is put, `getClient` on its id finds it exactly when the offered secret matches or none is offered |
| GrantModel.GetUserFromClient | src/lib/oauth2/model/index.js:134-159 | `false` exactly when the client is unknown, has no `user_id`, or its owner's credential is missing; otherwise the owner's `{id, username}` |
| GrantModel.GetAccessToken | src/lib/oauth2/model/index.js:165-177 | the first record with that token, mapped to the engine, or none; no writes |
| GrantModel.GetRefreshToken | src/lib/oauth2/model/index.js:211-223 | the first record with that token, mapped to the engine, or none; no writes |
| GrantModel.GetUser | src/lib/oauth2/model/index.js:249-270 | the first credential with that username whose stored password is `hashPassword(password)`, as `{id, username}`, else `false` |
| GrantModel.GetUserAfterPut | src/lib/oauth2/model/index.js:249-270 | a user stored with `hashPassword(p)` is authenticated by `p` |
| GrantModel.GetUserWrongPassword | src/lib/oauth2/model/index.js:249-270 | with an injective digest, any other password is refused, an omitted one included (unless the stored password is the text "undefined") |
| GrantModel.GetUserOmittedPassword | src/lib/oauth2/model/index.js:255 | with no explicit nil check, an omitted password is checked like the text "undefined" |
| GrantModel.GetAuthorizationCode | src/lib/oauth2/model/index.js:272-282 | the first record with that code, mapped to the engine, or none; no writes |
| GrantModel.SaveTokenWrites | src/lib/oauth2/model/index.js:183-205 | one or two puts: two exactly when `token.refreshToken` is truthy |
| GrantModel.SaveToken | src/lib/oauth2/model/index.js:183-205 | puts the access-token record, then the refresh-token record only when a refresh token is set; returns the token with client and user |
| GrantModel.SaveTokenState | src/lib/oauth2/model/index.js:190-198 | the access table gets the generated record, the refresh table gets one only with a refresh token, and the other tables are unchanged |
| GrantModel.SaveTokenThenGetAccessToken | src/lib/oauth2/model/index.js:165-205 | a saved token is read back by its access token, to the second |
| GrantModel.SaveTokenThenGetRefreshToken | src/lib/oauth2/model/index.js:183-223 | a saved refresh token is read back with its paired access token; without one the refresh table is untouched |
| GrantModel.RevokeTarget | src/lib/oauth2/model/index.js:230-231 | the first refresh-token record with that token |
| GrantModel.RevokeTokenWrites | src/lib/oauth2/model/index.js:233-242 | no writes when nothing matches; otherwise a delete of the record's `access_token`, then a delete of its `refresh_token`, each by its key alone |
| GrantModel.RevokeToken | src/lib/oauth2/model/index.js:225-247 | returns true exactly when a record matched, and performs exactly those deletes in order |
| GrantModel.RevokeTokenEffect | src/lib/oauth2/model/index.js:225-247 | after revoking, the refresh token and its paired access token are gone; every other token lookup and the other tables are unchanged |
| GrantModel.RevokeTokenOnce | src/lib/oauth2/model/index.js:230-236 | revoking the same refresh token again finds nothing and writes nothing |
| GrantModel.SaveAuthorizationCode | src/lib/oauth2/model/index.js:284-298 | exactly one put of the generated authorization record; returns the code with client and user |
| GrantModel.SaveCodeThenGet | src/lib/oauth2/model/index.js:272-298 | a saved code is read back under `code`, to the second; the other tables are unchanged |
| GrantModel.GetAuthorizationAfterPut | src/lib/oauth2/model/index.js:272-298 | right after an authorization record is put, `getAuthorizationCode` on its code finds that record mapped to the engine |
| GrantModel.RevokeCodeKey | src/lib/oauth2/model/index.js:303-305 | a key exists exactly when some stored record has the code, and it is `{code}` itself |
| GrantModel.RevokeCodeWrites | src/lib/oauth2/model/index.js:307-313 | no delete when the code is absent; otherwise exactly one delete keyed by the code |
| GrantModel.RevokeAuthorizationCode | src/lib/oauth2/model/index.js:300-318 | returns true exactly when the code is stored, and performs exactly that delete |
| GrantModel.RevokeCodeOnce | src/lib/oauth2/model/index.js:300-318 | a code is single-use: once revoked it is gone, and a second revocation returns false and deletes nothing |
| GrantModel.IndexOf | src/lib/oauth2/model/index.js:330 | the first position of the element, or -1 exactly when it is absent |
| GrantModel.Every | src/lib/oauth2/model/index.js:330 | true exactly when every requested piece occurs among the authorized ones |
| GrantModel.VerifyScope | src/lib/oauth2/model/index.js:320-331 | false for a falsy granted scope; otherwise true exactly when every space-separated requested piece is a granted piece |
| GrantModel.VerifyScopeGranted | src/lib/oauth2/model/index.js:320-331 | the granted scope itself passes |
| GrantModel.VerifyScopeOrderFree | src/lib/oauth2/model/index.js:327-330 | only which pieces are requested matters, not their order or repetition |
| GrantModel.VerifyScopeMonotone | src/lib/oauth2/model/index.js:323-330 | a wider grant never makes a request fail |
| GrantModel.VerifyScopeOfTokens | src/lib/oauth2/model/index.js:327-330 | a request of space-free scope tokens joined by spaces passes exactly when each token is granted |
| Text.Split | src/lib/oauth2/model/index.js:327-328 | `split` yields at least one piece, and no piece contains the separator |
| Text.JoinSplit | bin/client.js:200-202 | joining the split pieces with the separator gives back the text |
| Text.SplitJoin | src/lib/oauth2/model/index.js:327-328 | splitting separator-free pieces joined by the separator gives back the pieces |
| LambdaCommon.Param | src/lambda/clients.js:12-21 | `_.get(event, 'params.x')` is present exactly when the key is in `params` |
| LambdaCommon.ParamOr | src/lambda/clients.js:16-21 | the default replaces only a missing key, never `null` |
| LambdaCommon.KeyText | src/lambda/clients.js:12-14 | only a string parameter can match a stored key |
| LambdaCommon.Require | src/lambda/clients.js:24-45 | present (untrimmed) exactly for non-blank text; missing for `null`, `undefined` and whitespace-only text; a non-string throws at `.trim()` |
| LambdaCommon.Handle | src/lambda/clients.js:71-92 | a resolved call gives `{status:'ok', response}`, a rejected one `{status:'error', error:{message}}`, and a synchronous throw gives no payload |
| ClientsLambda.ValidatePut | src/lambda/clients.js:15-47 | non-array `grants` is "Invalid", empty or missing is "Required", non-nil non-array `redirect_uris` is rejected, then `client_id`, `client_secret`, `user_id` in that order; accepted values are stored as given |
| ClientsLambda.Dispatch | src/lambda/clients.js:10-69 | `get` resolves to the keyed lookup; `put` fails as its validation does, else writes the validated client once; `delete` without `client_id` is "Invalid param", with a non-string one throws, else deletes exactly that id; `listForUser` without `user_id` is "Required param", else lists that user's clients; `list` lists all; a call that does not resolve writes nothing; any other action is "Operation X not supported" |
| ClientsLambda.DoCall | src/lambda/clients.js:10-69 | the outcome, journal and tables are those of `Dispatch` on the store beforehand |
| ClientsLambda.Handler | src/lambda/clients.js:71-92 | no payload exactly when the call throws; a resolved call is an ok envelope of its response, a rejected one an error envelope of its message; an unknown action gives the "not supported" error |
| ClientsLambda.ErrorEnvelopeWritesNothing | src/lambda/clients.js:71-92 | an error envelope means no store write happened |
| ClientsLambda.PutThenGet | src/lambda/clients.js:15-47 | an accepted `put` stores the parameters as given, with `redirect_uris` only when non-empty, and `get` finds it |
| ClientsLambda.DeleteThenGet | src/lambda/clients.js:48-55 | an accepted `delete` resolves to `null` and the client is gone |
| CredentialsLambda.Omit | src/lambda/credentials.js:10-19 | a record without its password; nothing gives `{}` |
| CredentialsLambda.ValidatePut | src/lambda/credentials.js:20-33 | a blank `username` is rejected before a blank `password`; both present gives the record with the password exactly as supplied |
| CredentialsLambda.Dispatch | src/lambda/credentials.js:9-48 | `get` and `getById` resolve to the keyed lookup without its password; `put` fails as its validation does, else writes the validated record once; `delete` without `username` is "Invalid param", else deletes exactly that username; `list` gives every record in order without passwords; a call that does not resolve writes nothing; any other action is "Operation X not supported" |
| CredentialsLambda.DoCall | src/lambda/credentials.js:9-48 | the outcome, journal and tables are those of `Dispatch` on the store beforehand |
| CredentialsLambda.Handler | src/lambda/credentials.js:50-71 | no payload exactly when the call throws; a resolved call is an ok envelope of its response, a rejected one an error envelope of its message; an unknown action gives the "not supported" error |
| CredentialsLambda.PutId | src/lambda/credentials.js:21 | the fresh id when `id` is absent, the given text when it is a string, and "null" for `null` |
| CredentialsLambda.ReadsHidePasswords | src/lambda/credentials.js:10-44 | `get`, `getById` and `list` show only ids and usernames of stored records, with `list` covering every record in order |
| CredentialsLambda.ErrorEnvelopeWritesNothing | src/lambda/credentials.js:50-71 | an error envelope means no store write happened |
| CredentialsLambda.PutThenGet | src/lambda/credentials.js:20-33 | an accepted `put` stores the password unhashed, and `get` then returns the record without it |
| CredentialsLambda.DeleteThenGet | src/lambda/credentials.js:34-41 | an accepted `delete` is acknowledged, the username is gone, and `get` then gives `{}` |
| CredentialCli.CreateWrites | bin/credential.js:49-68 | no write exactly when the username exists; otherwise one credential put |
| CredentialCli.Create | bin/credential.js:49-68 | performs exactly those writes |
| CredentialCli.CreateThenSignIn | bin/credential.js:49-68 | a created user signs in with the password, as `{freshId, username}`, and with an injective digest any other password is refused |
| CredentialCli.CreateExistingKeepsStore | bin/credential.js:55-60 | an existing username leaves the store unchanged |
| CredentialCli.UpdateWrites | bin/credential.js:70-91 | no write exactly when the username is absent; otherwise one put under that username |
| CredentialCli.Update | bin/credential.js:70-91 | performs exactly those writes |
| CredentialCli.UpdateKeepsId | bin/credential.js:76-90 | the record keeps its id and only the password hash changes; the user signs in with the new password and other usernames are unchanged |
| CredentialCli.UpdateMissingKeepsStore | bin/credential.js:76-81 | an unknown username leaves the store unchanged |
| CredentialCli.ClientDeletes | bin/credential.js:108-112 | one delete per listed client |
| CredentialCli.ClientDeletesAt | bin/credential.js:108-112 | the i-th delete removes the i-th listed client by its `client_id` |
| CredentialCli.ClientDeletesEffect | bin/credential.js:108-112 | the client deletes change only the clients table, and they keep exactly the clients whose id was not deleted |
| CredentialCli.DestroyWrites | bin/credential.js:93-115 | none for an unknown user; otherwise one delete per client from `listForUser(user.id)`, then the credential delete last |
| CredentialCli.DeleteClients | bin/credential.js:108-112 | deletes the listed clients one by one, in order |
| CredentialCli.Destroy | bin/credential.js:93-115 | performs exactly `DestroyWrites` |
| CredentialCli.DestroyRemovesUser | bin/credential.js:106-114 | afterwards the credential is gone, no client with the user's id remains, and the token tables are unchanged |
| CredentialCli.DestroyKeepsOthers | bin/credential.js:106-114 | with unique keys, other users' clients and other usernames' credentials are kept |
| CredentialCli.DestroyMissingKeepsStore | bin/credential.js:100-104 | an unknown username leaves the store unchanged |
| ClientCli.GrantsFor | bin/client.js:52-71 | the names of the enabled grants, one for each, in the fixed order |
| ClientCli.GrantsForUnfolded | bin/client.js:52-71 | that list spelled out flag by flag: `client_credentials`, `refresh_token`, `authorization_code`, `password` |
| ClientCli.GenerateGrants | bin/client.js:52-71 | the pushes build exactly that list |
| ClientCli.EnabledGrantsExact | bin/client.js:55-66 | a grant is enabled exactly when its flag is set, strictly in the fixed order, and none are enabled exactly when no flag is set |
| ClientCli.GrantsForExact | bin/client.js:52-71 | each grant name appears exactly when its flag is set, no name twice, and the list is empty exactly when no flag is set |
| ClientCli.NameInjective | bin/client.js:56-65 | distinct grants have distinct names |
| ClientCli.Csv | bin/client.js:200-202 | at least one piece, none containing a comma, and joining them with commas gives back the input |
| ClientCli.ExtractRedirectUris | bin/client.js:48-50 | none for the bare flag (`null`) or no flag; otherwise the given list |
| ClientCli.GivenUrisAreStored | bin/client.js:200-202 | a list given on the command line is never empty, so it reaches the stored record |
| ClientCli.CreateWrites | bin/client.js:73-102 | no write exactly when the owner's credential is missing or no grant is set; otherwise one client put |
| ClientCli.Create | bin/client.js:73-102 | performs exactly those writes |
| ClientCli.CreateThenGet | bin/client.js:73-102 | the new client is stored under the fresh id with the owner's id, the secret, the grants and the redirect URIs; it is listed for the owner and authenticates with its secret |
| ClientCli.UpdateRun | bin/client.js:104-136 | no write for an unknown user; "Client not found" for an unknown client; no write without a grant; otherwise one put under that client id |
| ClientCli.UpdateRunAsWritten | bin/client.js:124 | as written, a record put without `--secret` carries no secret at all; with `--secret` it carries the new one |
| ClientCli.UpdateRunFixed | bin/client.js:104-136 | corrected, a record put is for an existing client and carries the new secret with `--secret`, else that client's stored `client_secret` |
| ClientCli.UpdateRunPuts | bin/client.js:124-135 | when every guard passes, the one record put carries the new secret with `--secret`, else the old record's attribute that is read |
| ClientCli.NoSecretAttribute | bin/client.js:124 | no client record has an attribute named `secret`; `client_secret` is the stored secret |
| ClientCli.UpdateAsWrittenDropsSecret | bin/client.js:124 | as written, an update without `--secret` stores the client with no secret, so its old secret no longer authenticates |
| ClientCli.Update | bin/client.js:104-136 | follows the code as written (`UpdateRunAsWritten`): the "Client not found" error, and the journal and tables of its writes |
| ClientCli.UpdateKeepsSecret | bin/client.js:104-136 | corrected, an update keeps the stored secret (or stores the new one with `--secret`), sets the owner's id, and the client still authenticates with that secret |

## Left out

- The DynamoDB adapter is replaced by an in-memory store. Scan and query order is the order of a sequence, and a put appends after removing the old record with the same key. SDK failures, throttling, eventual consistency of the secondary indexes and the `ConsumedCapacity` payload are not modelled, and there is no cross-record atomicity.
- A query whose bound value is `undefined` matches nothing here. DynamoDB would reject it.
- `search` in src/lib/persistence/dynamodb.js is not called by the modelled code.
- The `dynamodb-data-types` wrap and unwrap calls are the identity, except that an `undefined` field is dropped. Absent optional fields are `None`. Called without options, `wrap` stores an array of strings (`grants`, `redirect_uris`) as a DynamoDB string set: unordered, without duplicates, and refused by the store when empty or when it holds an empty string. The model keeps such lists as sequences, so order and duplicates survive a put here, and a put the store would refuse succeeds.
- ClientCli.CreateThenGet: the grants and redirect URIs read back are equal to those written only up to order and duplicates, because the store keeps them as string sets.
- ClientsLambda.PutThenGet: the same holds for `grants` and `redirect_uris` read back after a `put`; a `grants` list with a duplicate or an empty string would be refused by the store, not stored.
- `revokeToken` and `revokeAuthorizationCode` return `!_.isEmpty(result)`, which depends on the SDK's response. A successful delete is modelled as returning true.
- SHA-1 is an abstract digest function. Its injectivity is a hypothesis of the lemmas that need it (`Hashing.Injective`), and AES `encrypt`/`decrypt` is not part of this model.
- src/lib/config.js and src/lib/logger.js are not part of this model. Table names and the salt are parameters, and logging is dropped.
- The `uuid()` ids, `generateSecret()` and the password prompt are inputs to the operations. The default secret at src/lambda/clients.js:17 calls a `utils.generateSecret` that src/lib/utils.js does not define, and it is evaluated before validation. It is modelled as an opaque input.
- Parameters of the admin Lambdas are `null`, a string, an array of strings, or another value. Non-string elements inside `grants` or `redirect_uris` are not distinguished. A non-string `description` is stored as absent.
- CredentialsLambda.PutId: a non-string `id` parameter is stored as its text form rather than as the original JSON value.
- The Lambda responses of `put` and `delete` in the credentials handler, and of `put` in the clients handler, are the store's response object. They are modelled as an opaque acknowledgement.
- The engine objects are reduced to the fields the model reads and writes. The `...token` spread in `saveToken` and `saveAuthorizationCode` is returned as the token plus client and user.
- ClientCli.ExtractRedirectUris: `undefined` (flag absent) and `null` (bare flag) are both `None`, since both lead to a record without `redirect_uris`.
- `create` and `update` in bin/client.js and bin/credential.js, and the final `credentials.delete` of `destroy`, do not await their write. The model treats each write as completing before the command returns.
- GrantModel.GetUserFromClient: its contract names a stored credential of the client's owner, not which one when several credentials share that id.
- CredentialCli.DestroyRemovesUser: stated for the store as modelled, where the owner index lists every client with that `user_id`. An index that lags behind the table could leave clients behind.
- The command-line plumbing of bin/credential.js and bin/client.js is not part of this model: option parsing, prompts, console output, `list`, and `destroy` of bin/client.js. Neither are src/authorizationServer, src/resourceServer, bin/authorize.js or the `oauth2-server` engine itself.

## Findings

| source | as written | input that shows it | evidently intended | confidence | as-written member | corrected member |
|---|---|---|---|---|---|---|
| bin/client.js:124 | without `--secret`, `update` keeps `item.secret`, but a client record stores its secret as `client_secret`, so the value read is `undefined` and the put stores a client with no secret | `client update <id> <username> -C` on an existing client whose owner exists | keep the stored `client_secret` when no new secret is requested | high (not executed) | ClientCli.UpdateAsWrittenDropsSecret | ClientCli.UpdateKeepsSecret |
