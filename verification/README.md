# Verification of the public key directory server

A Dafny model of the Go server of the Fediverse public key directory, with proofs of what its
documentation and tests promise. `dafny verify dfyconfig.toml` checks all of it.

## What is modelled

**The directory.** `Tables` holds the schema's tables as values, its constraints, and the meaning
of each SQL statement; `Transactions` the whole effect of each service method; `Actions` what each
protocol action demands before it is logged and does afterwards. Two step systems run on them:

- `Interleaved`: check, log submission and transaction are separate steps of any number of
  requests, which interleave freely;
- `Sequential`: the three happen in one step. Every state it reaches is also reached by the other.

The theorems on runs are in these two modules and in `Provenance`, `LockOut`, `Isolation`, `Replay`,
`Shredding`, `AuxHistory`, `Admission` and `Disclosure`; `Scenario` runs one example through.
Shredding, append-only history, authorisation at check time, log precedence, isolation and
refinement hold under every interleaving. Key provenance, one root per epoch and the absence of
lock-outs hold of `Sequential`. They can fail when requests overlap, because a handler lists the
actor's keys outside the transaction that changes them: `Races` has concrete runs. `Overlap` gives
the exact conditions, for every interleaved run: for provenance, and with it one root per epoch,
that the AddKey rule held again at every insertion; for the absence of lock-outs, that every AddKey
and RevokeKey left a key that decodes at its transaction.

`Directory` and `Refinement` show that the tables, joined by numeric ids, behave as a map from actor
name to profile.

`Repository`, `Service` and `Handlers` are the server in the form its source has: classes with
fields that methods update, loops over listed keys and disclosed attributes, transactions with a
deferred rollback. Any repository call may fail. Each method is proved against the functions above,
and `Handlers.Server` carries its run as ghost state, so the theorems on runs are theorems on it.

**Formats.** `AttributeEncryption` (message attributes), `SignatureHeader` over `Text` (the HTTP
Signature header and the string it signs), `KeyFile`, `Signing` over `Base64Url` (key texts).

**Tokens.** `RefreshTokens`: life span and single use.

## What is assumed

Signatures, HKDF, HMAC, SHA-512, Argon2id, AES, PASETO, TOTP, JSON and its canonical form (RFC 8785)
are arbitrary functions passed in, with length contracts and, where the source opens what it sealed,
a round-trip law. Nothing is claimed about secrecy or forgery. Clocks, random identifiers, the log's
answers, the row a query without ORDER BY returns and the failure of every repository call are
inputs. A transaction is atomic and a failed commit publishes nothing.

## Where code and documentation differ

- The comment on Fireproof says it disables BurnDown (`internal/api/protocol_actions.go:370-372`).
  The code never reads the mark: `Shredding.BurnDownIgnoresFireproof`.
- The token service reads and writes `used_refresh_tokens`, which no schema in the repository
  creates. Single use under concurrency depends on that table being unique:
  `RefreshTokens.SingleUseIffUnique`.
- The comment on RevokeKey says the actor keeps other keys (`internal/api/protocol_actions.go:110-112`).
  That holds one request at a time and can fail otherwise: `Overlap.LocksNobodyOutIff`,
  `Races.InterleavingAllowsLockOut`.
- Public keys are compared as texts when a row is looked up for revocation and as keys when the
  signer is excluded; a key has several texts (`Signing.EveryKeyHasTwoTexts`).
- Of an epoch only the first key must decode: AddKey does not parse a key that another key signs.

## Model

| member | source | states |
|---|---|---|
| `Interleaved.RunKeepsInvariant` | internal/domain/service.go:101-117 | In every state of every interleaved run the schema constraints hold and every stored symmetric key hangs on a root that some key row still carries, so a shredding can find it. |
| `Interleaved.HistoryIsAppendOnly` | internal/db/sqlite.go:361-390 | Between any two moments of any interleaved run no key, aux or actor row is gone, moved, given another owner or content; a revocation once written is neither undone nor overwritten, although the single-key UPDATE has no revoked_at test. |
| `Interleaved.EveryKeyWasAuthorised` | internal/api/protocol_actions.go:28-102 | Every key row of every interleaved run was inserted by one logged AddKey asking for that text under a name of the row's owner; at that request's own check, the step since which it was in flight, the new key signed (no live key then) or a key live then did. |
| `Interleaved.EveryRevocationWasLogged` | internal/api/protocol_actions.go:176-197 | Every revoked key row was revoked once, by a checked and logged RevokeKey of that text or BurnDown naming the owner, or by an administrator; its revoke_root is that submission's root. |
| `Interleaved.GrowthIsAddKey` | internal/domain/service.go:80-124 | A logged message lengthens the key table only if it is an AddKey, by exactly one live row with the asked text, the log's root and the named actor as owner. |
| `Interleaved.LossIsRevocation` | internal/domain/service.go:127-157 | A logged message takes a live key row out only if it is a RevokeKey of that text or a BurnDown, for the actor that owns the row. |
| `Interleaved.ShreddingIsComplete` | internal/domain/service.go:199-234 | After a BurnDown or CryptoShred of an actor row no symmetric key is left under any root for which an earlier AddKey or RevokeKey of that row disclosed keys, however often the row was renamed in between and however requests interleaved. |
| `Scenario.ShreddingHasWork` | internal/domain/service.go:199-234 | The premises of the theorems on shredding are met: a concrete run, for any key, in which a disclosed symmetric key is stored under one name, met by a shred under the next, and the row is shredded again under a third name with no new key in between. |
| `AuxHistory.AuxChange` | internal/domain/service.go:237-302 | The aux table changes in two ways only: an AddAuxData with accepted data appends its one row, a RevokeAuxData marks the one live row it names. |
| `AuxHistory.EveryAuxRowWasLogged` | internal/api/protocol_actions.go:539-558 | Every aux row of every interleaved run was asked for, and every revocation of one, by a logged message of the matching action and actor that a key live for that actor at the request's own check had signed. |
| `Admission.AdmittedIffRule` | internal/api/protocol_actions.go:28-63 | A message passes the checks if and only if its context and action are known, its body is well formed and the rule of its action, written out over the rows for all eight actions, holds: who must have signed over the four fields, that two live keys exist for a RevokeKey, and the one-time password of an enrolled operator for a BurnDown. |
| `Admission.EveryRequestMetItsRule` | internal/api/protocol_actions.go:28-102 | Under any interleaving whatever is submitted or applied met the rule of its action at its own check, by that check's clock. |
| `Admission.EveryBurnDownHadItsPassword` | internal/api/protocol_actions.go:282-341 | Under any interleaving every BurnDown applied was, at its own check, signed by a live key of the operator, and the operator had no secret enrolled or one that decrypts and for which the password given was right then. |
| `Admission.EveryMarkWasAsked` | internal/api/protocol_actions.go:426-430 | Under any interleaving a fireproof mark is set only by a logged Fireproof for the actor's present name and taken away only by a logged UndoFireproof for it. |
| `Disclosure.EveryDisclosureIsStoredDecoded` | internal/api/protocol_actions.go:86-98 | Under any interleaving a transaction of an AddKey or RevokeKey that changes anything stores under its root, for each attribute disclosed, the octets its text decodes to, and no other symmetric key; none of these was stored before and all others stay. A message with a text that does not decode changes nothing. |
| `Disclosure.TransactionStoresDecoded` | internal/api/protocol_actions.go:182-197 | The same of one transaction on any valid tables, with the failure when a text does not decode. |
| `Disclosure.EncodedTextIsStoredAsOctets` | internal/api/protocol_actions.go:88-94 | A disclosed text that is the base64url form of some octets is stored as those octets. |
| `Disclosure.OnlyDisclosuresStore` | internal/domain/service.go:113-117 | No other step of any run stores or changes a symmetric key. |
| `Sequential.SequentialIsInterleaved` | internal/api/protocol_actions.go:28-102 | Every state of a one-at-a-time run is reached by an interleaved run with nothing in flight, so the theorems on interleaved runs carry over. |
| `Sequential.InsertionIsRootOrSigned` | internal/api/protocol_actions.go:34-63 | One at a time: a new key row is self-signed exactly when its actor has no live key, and otherwise signed by an earlier row of the same actor, live at that moment. |
| `Sequential.Provenance` | internal/api/protocol_actions.go:28-63 | One at a time: the signers of every key of every run form a chain back to a self-signed root, inside one unbroken period in which the actor row had a live key, across renames. |
| `Sequential.RunIsSound` | internal/api/protocol_actions.go:34-63 | One at a time: every run is a sound history, so all theorems of Provenance hold of it. |
| `Sequential.OneRootPerEpoch` | internal/api/protocol_actions.go:34-63 | One at a time: every key inserted while an actor has had a live key since step b, revoked since or not, has a chain of signers ending at the row step b inserted, and only that row is self-signed with no key live. |
| `Provenance.EveryKeyHasAChain` | internal/api/protocol_actions.go:28-63 | In every sound history the signers of every key form a chain back to a self-signed root, inside one unbroken period in which the actor row had a live key. |
| `Provenance.ChainsIffSound` | internal/api/protocol_actions.go:28-63 | In any history every key has such a chain if and only if every key, when inserted, was signed by a live key of its owner or by itself with none live. |
| `Provenance.EpochHasOneRoot` | internal/api/protocol_actions.go:34-44 | In any history every chain of every key inserted in an epoch, a maximal period in which the actor has a live key, ends at the row the epoch's first step inserted; a key of the epoch is a root exactly if it is that row. |
| `Provenance.LiveKeysShareTheirRoot` | internal/api/protocol_actions.go:34-63 | In any history keys of an actor that are live together have signer chains that end in the same root. |
| `LockOut.NobodyIsLockedOut` | internal/api/protocol_actions.go:130-162 | One at a time: in every reachable state an actor with a live key has a live key whose text decodes to a 32-byte Ed25519 key. |
| `LockOut.RevokeKeyRetiresOne` | internal/api/protocol_actions.go:124-197 | One at a time: a RevokeKey that changes the tables lowers its actor's live rows by exactly one, never to zero, and leaves every other actor's live rows as they were. |
| `LockOut.OnlyBurningEmpties` | internal/domain/service.go:199-234 | One at a time: a step after which an actor has lost its last live key is a BurnDown or CryptoShred of that actor. |
| `Races.RevokeKeyEmptiesIff` | internal/domain/service.go:138-146 | At its transaction a RevokeKey takes the actor's last live row if and only if exactly one is live then; the count was checked earlier, outside the transaction. |
| `Overlap.RevokeKeyLeavesUsableIff` | internal/domain/service.go:127-157 | At its transaction a RevokeKey leaves the actor a live key that decodes if and only if some live row of the actor other than the one found decodes. |
| `Overlap.AddKeyLeavesUsableIff` | internal/domain/service.go:80-124 | At its transaction an AddKey leaves its owner a live key that decodes if and only if the owner had one or the new text decodes. |
| `Overlap.LocksNobodyOutIff` | internal/api/protocol_actions.go:124-162 | The exact condition for no lock-out under any interleaving: in a run everybody with a live key has one that decodes at every moment, and loses the last such key only by BurnDown or CryptoShred, if and only if each AddKey and RevokeKey transaction meets its condition above. |
| `Overlap.SoundInsertionIff` | internal/api/protocol_actions.go:28-63 | For every insertion of every interleaved run: at its transaction the new key is self-signed with no key of its owner live, or signed by a row of its owner live then, if and only if the AddKey rule still holds of the tables then. |
| `Overlap.SecondRootIff` | internal/api/protocol_actions.go:34-44 | An AddKey that no live key of its owner signed, as the tables stand at its transaction, puts a second root beside a live key exactly when its owner has a live key then. |
| `Overlap.ProvenanceIffRechecked` | internal/api/protocol_actions.go:28-63 | The exact condition for provenance under any interleaving: every key of a run has a chain of live signers back to a self-signed root if and only if the AddKey rule held again at every insertion. |
| `Overlap.OneRootPerEpoch` | internal/api/protocol_actions.go:28-63 | An interleaved run whose AddKeys all pass the rule again has one root per epoch. |
| `Races.InterleavingAllowsLockOut` | internal/api/protocol_actions.go:124-134 | Without the one-at-a-time premise the no-lock-out property fails: a reachable state, for any two keys, in which two RevokeKeys alone have taken every live key. |
| `Races.InterleavingAllowsLockOutWithLiveRow` | internal/api/protocol_actions.go:124-158 | Nor does counting live rows at the transaction help: a reachable state in which two RevokeKeys, the second with two rows live, have left the actor one live row that is no key. |
| `Races.InterleavingAllowsTwoRoots` | internal/api/protocol_actions.go:28-44 | Without the one-at-a-time premise the one-root property fails: a reachable state in which two keys of one actor are live and neither signed the other's AddKey. |
| `Replay.TablesAreReplayOfLog` | internal/domain/service.go:160-165 | One at a time: after any number of steps the tables equal the replay, from empty tables, of what those very steps applied, the run's own messages and shreds with their own clocks and choices; the messages are log entries and come in log order. |
| `Isolation.EachRootHasOneOwner` | internal/domain/service.go:218-231 | If the log never repeats a root and gives none that begins with admin-shred-, each root it gave out is recorded for at most one actor row, under any interleaving. |
| `Isolation.OthersAreUndisturbed` | internal/domain/service.go:213-231 | If the log never repeats a root and gives none that begins with admin-shred-, a step about one actor, BurnDown included, changes no actor, key or aux row and no symmetric key of any other actor row. |
| `Isolation.EffectTouches` | internal/domain/service.go:80-124 | Every effect stays within the actor row its payload is about: it writes only that row, its keys, its aux rows, symmetric keys under the new root, and removes only symmetric keys under that row's roots. |
| `Shredding.SecondBurnDown` | internal/db/sqlite.go:384-390 | A second BurnDown never touches a key row; it changes nothing at all if and only if the first marked no key or no symmetric key is stored under the first one's root. |
| `Shredding.BurnChangesNothingIff` | internal/domain/service.go:199-234 | A BurnDown changes nothing at all if and only if the actor has no live key and no symmetric key is stored under any of its roots. |
| `Shredding.BurnDownIsIdempotent` | internal/domain/service.go:199-234 | If the log never repeats a root and gives none that begins with admin-shred-: of any two BurnDowns or CryptoShreds of an actor row the later changes nothing, whatever happens in between and under whatever names, unless a key was inserted for the row in between. |
| `Shredding.BurnDownIgnoresFireproof` | internal/api/protocol_actions.go:273-365 | The fireproof mark of any actor has no influence on whether a BurnDown is allowed or on what it does to keys and symmetric keys. |
| `Directory.ProfilesMean` | sql/sqlite/sqlite_schema.sql:2-36 | The map of profiles has a name exactly when an actor row has it, and then the profile is that row's mark, keys and aux data. |
| `Directory.ListKeysReads` | internal/db/sqlite.go:126-138 | Listing an actor's keys reads the live keys of its profile in order; an unknown name reads as an empty profile. |
| `Directory.MessageHashesRead` | internal/db/sqlite.go:371-381 | The hashes gathered for a shredding are exactly the roots in the actor's profile. |
| `Directory.AddKeyRefines` | internal/domain/service.go:80-124 | AddKey on tables and on the map fail together and otherwise lead to matching states. |
| `Directory.RevokeKeyRefines` | internal/domain/service.go:127-157 | RevokeKey retires some matching live key of the profile, whichever row the database picks, and fails when the profile has none. |
| `Directory.MoveIdentityRefines` | internal/domain/service.go:168-196 | MoveIdentity is a key rename of the map: it fails exactly when the target exists or the source is absent, and touches no other profile. |
| `Directory.BurnDownRefines` | internal/domain/service.go:199-234 | BurnDown retires the live keys of one profile, drops the symmetric keys under its roots, and fails exactly for an unknown name. |
| `Directory.SetFireproofRefines` | internal/db/sqlite.go:95-110 | SetFireproof changes one bit of one profile and fails exactly for an unknown name. |
| `Directory.AddAuxDataRefines` | internal/domain/service.go:237-279 | AddAuxData appends to the profile, creating it if need be, and fails exactly when the identifier is taken. |
| `Directory.RevokeAuxDataRefines` | internal/domain/service.go:282-302 | RevokeAuxData retires one live record with this identifier in the actor's own profile and fails exactly when there is none. |
| `Refinement.AllowedRefines` | internal/api/protocol_actions.go:28-63 | The checks made on the tables give the same verdict as the checks made on the map. |
| `Refinement.EffectRefines` | internal/domain/service.go:80-302 | What a payload does to the tables it does to the map, and what fails on the tables has no possible result on the map. |
| `Refinement.RunRefines` | internal/domain/service.go:80-302 | Every step of every one-at-a-time run on the tables is a step of the server on the map. |
| `Refinement.InterleavedRunRefines` | internal/api/protocol_actions.go:28-102 | Every step of every interleaved run is a step on the map, and a request is admitted on the tables exactly if it is on the map. |
| `Tables.ActorIdMeans` | sql/sqlite/sqlite_schema.sql:2-8 | The id found under a name is the id of the one row with that name. |
| `Tables.ListKeysIsJoin` | internal/db/sqlite.go:126-138 | The key listing is the join: a row is listed if and only if it is unrevoked and its owner is the row with that name. |
| `Tables.FindKeyToRevoke` | internal/db/sqlite.go:344-358 | A row is found exactly if one is live, has the given text and belongs to the named actor, and it is such a row. |
| `Tables.MessageHashesMeans` | internal/db/sqlite.go:371-381 | A hash is gathered if and only if some key row of the actor carries it as merkle_root or revoke_root. |
| `Transactions.AddKeyTxEffect` | internal/domain/service.go:80-124 | A successful AddKey appends one live row for the named actor, adds the disclosed keys under the root, none of which was there before, and keeps the schema and all history. |
| `Transactions.RevokeKeyTxEffect` | internal/domain/service.go:127-157 | A successful RevokeKey marks exactly the row found, adds the disclosed keys under the root, and keeps everything else. |
| `Transactions.MoveIdentityTxEffect` | internal/domain/service.go:168-196 | A successful MoveIdentity gives the old name's row id to the new name and changes no other name, key, aux row or symmetric key. |
| `Transactions.BurnDownTxEffect` | internal/domain/service.go:199-234 | A successful BurnDown marks exactly the actor's live rows and removes exactly the symmetric keys under roots its rows carried. |
| `Transactions.AddAuxDataTxEffect` | internal/domain/service.go:237-279 | A successful AddAuxData appends one live aux row for the named actor and leaves keys and symmetric keys alone. |
| `Transactions.RevokeAuxDataTxEffect` | internal/db/sqlite.go:405-422 | A successful RevokeAuxData marks exactly one row, live and owned by the named actor. |
| `Transactions.GetOrCreateActorKeeps` | internal/db/sqlite.go:274-290 | GetOrCreateActor resolves the name, adds at most one actor row, under an id no row had, and keeps the schema. |
| `Actions.EffectKeeps` | internal/domain/service.go:80-302 | Every successful effect, whoever asked for it, keeps the schema, the append-only history and the reachability of every stored symmetric key. |
| `Actions.AddKeyAllowedMeans` | internal/api/protocol_actions.go:34-63 | The AddKey check passes if and only if the new key signed and no key of the actor is live, or some live key row of the actor signed. |
| `Actions.AdminRootsDiffer` | internal/domain/service.go:163 | The root of an administrator's shred starts with admin-shred-, the actor and a hyphen, and two shreds of one actor at different nanoseconds have different roots. |
| `Backends.BackendsRevokeTheSameAux` | internal/db/postgres.go:401-415 | On every valid database PostgreSQL's UPDATE ... FROM join and SQLite's UPDATE ... WHERE id IN select the same rows, report the same count, 0 or 1, and do what RevokeAuxData means here. |
| `Repository.Database.ListKeysForActor` | internal/db/sqlite.go:126-138 | Answers with the listing of the committed tables, or with an error exactly when a call fails. |
| `Repository.Database.SetFireproof` | internal/db/sqlite.go:95-110 | Sets the bit of the named row, or reports an error and changes nothing. |
| `Repository.Transaction.Begin` | internal/db/sqlite.go:48-54 | A new transaction works on a copy of the committed tables. |
| `Repository.Transaction.Commit` | internal/db/sqlite.go:264-266 | Publishes the working copy whole, or reports an error and publishes nothing. |
| `Repository.Transaction.Rollback` | internal/db/sqlite.go:269-271 | Discards the working copy and never touches the committed tables. |
| `Repository.Transaction.GetOrCreateActor` | internal/db/sqlite.go:274-290 | Finds the row or inserts one, each a call that may fail. |
| `Repository.Transaction.UpdateActorId` | internal/db/sqlite.go:318-329 | Renames the row and reports 0 or 1 rows, or the uniqueness violation. |
| `Repository.Transaction.InsertPublicKey` | internal/db/sqlite.go:332-341 | Appends the row, or reports the foreign-key or uniqueness violation. |
| `Repository.Transaction.FindKeyToRevoke` | internal/db/sqlite.go:344-358 | Finds some live row of the actor with this text exactly when there is one; callers may not rely on which. |
| `Repository.Transaction.RevokeKey` | internal/db/sqlite.go:361-368 | Marks the row with the given id. |
| `Repository.Transaction.RevokeAllKeysForActor` | internal/db/sqlite.go:384-390 | Marks every live row of the actor and no other. |
| `Repository.Transaction.RevokeAuxData` | internal/db/sqlite.go:405-422 | Marks the one live aux row of the named actor, if any, and reports how many were marked. |
| `Repository.Transaction.StoreSymmetricKeys` | internal/db/sqlite.go:426-443 | Inserts one row per attribute in any order; succeeds only with all of them stored, and with no failing call exactly when no (hash, attribute) pair was there before. |
| `Repository.Transaction.DeleteSymmetricKeysByHashes` | internal/db/sqlite.go:446-459 | Removes exactly the symmetric keys stored under the given hashes. |
| `Service.PKDService.constructor` | internal/domain/service.go:68-77 | The registry maps every kind to its last registered validator and holds no other kind; so data is accepted exactly if the last validator of its kind in the list accepts it, or there is none. |
| `Service.PKDService.ProcessAddKey` | internal/domain/service.go:80-124 | All or nothing: whichever repository calls fail, success commits the complete AddKey effect and any error leaves the committed tables exactly as they were; with no failing call it succeeds exactly when the effect is possible. The row returned is the row stored. |
| `Service.PKDService.ProcessRevokeKey` | internal/domain/service.go:127-157 | All or nothing: whichever repository calls fail, success commits the complete RevokeKey effect and any error leaves the committed tables exactly as they were; with no failing call it succeeds exactly when the effect is possible. |
| `Service.PKDService.ProcessMoveIdentity` | internal/domain/service.go:168-196 | All or nothing: whichever repository calls fail, success commits the complete MoveIdentity effect and any error leaves the committed tables exactly as they were; with no failing call it succeeds exactly when the effect is possible. |
| `Service.PKDService.ProcessBurnDown` | internal/domain/service.go:199-234 | All or nothing: whichever repository calls fail, success commits the complete BurnDown effect and any error leaves the committed tables exactly as they were; with no failing call it succeeds exactly when the effect is possible. ActorNotFound is reported only for an unknown name. |
| `Service.PKDService.ProcessAddAuxData` | internal/domain/service.go:237-279 | All or nothing: whichever repository calls fail, success commits the complete AddAuxData effect and any error leaves the committed tables exactly as they were; with no failing call it succeeds exactly when the effect is possible. Success also requires the registered validator, if any, to accept the data. |
| `Service.PKDService.ProcessRevokeAuxData` | internal/domain/service.go:282-302 | All or nothing: whichever repository calls fail, success commits the complete RevokeAuxData effect and any error leaves the committed tables exactly as they were; with no failing call it succeeds exactly when the effect is possible. |
| `Service.PKDService.CryptoShred` | internal/domain/service.go:160-165 | A BurnDown under the root admin-shred-<actor>-<nanoseconds>, all or nothing. |
| `Handlers.FindSigner` | internal/api/protocol_actions.go:47-58 | The search loop, which skips undecodable rows and stops at the first match, finds a signer exactly when some listed key signed. |
| `Handlers.FindOtherSigner` | internal/api/protocol_actions.go:144-158 | The search loop finds a signer exactly when some listed key signed that is not the key being revoked, however either is spelled. |
| `Handlers.DecodeSymmetricKeys` | internal/api/protocol_actions.go:86-95 | Decodes every disclosed key, in any order, or fails exactly when one text does not decode. |
| `Handlers.Log.SubmitMessage` | internal/api/protocol_actions.go:79-84 | An accepted message is appended with its root, a refused one leaves the log alone. |
| `Handlers.Server.CheckSigned` | internal/api/protocol_actions.go:216-240 | Answers 500 if the listing fails, 400 if no key is live, 200 if some live key of the actor signed, 401 otherwise. |
| `Handlers.Server.CheckAddKey` | internal/api/protocol_actions.go:28-63 | Answers 500 if the listing fails, 200 if the AddKey rule holds on the committed tables, 400 if a first key does not decode, 401 otherwise. |
| `Handlers.Server.CheckRevokeKey` | internal/api/protocol_actions.go:124-162 | Answers 500 if the listing fails, 200 with two or more live keys and a signature by another one, 400 with fewer keys or a text that is no key, 401 otherwise. |
| `Handlers.Server.CheckTotp` | internal/api/protocol_actions.go:309-341 | Answers 200 if no secret is enrolled or the password is right, 400 if it is missing, 401 if it is wrong, 500 if the read fails or the secret does not decrypt. |
| `Handlers.Server.ProcessAddKeyAction` | internal/api/protocol_actions.go:16-108 | Started alone, performs exactly one step of the one-at-a-time system on tables and log; answers 200 exactly when the message was admitted, logged and applied in full; with no failing call an admitted message gets the log's answer and is applied if it can be. |
| `Handlers.Server.ProcessRevokeKeyAction` | internal/api/protocol_actions.go:114-200 | Started alone, performs exactly one step of the one-at-a-time system on tables and log; answers 200 exactly when the message was admitted, logged and applied in full; with no failing call an admitted message gets the log's answer and is applied if it can be. |
| `Handlers.Server.ProcessMoveIdentityAction` | internal/api/protocol_actions.go:206-267 | Started alone, performs exactly one step of the one-at-a-time system on tables and log; answers 200 exactly when the message was admitted, logged and applied in full; with no failing call an admitted message gets the log's answer and is applied if it can be. |
| `Handlers.Server.ProcessBurnDownAction` | internal/api/protocol_actions.go:273-368 | Started alone, performs exactly one step of the one-at-a-time system on tables and log; answers 200 exactly when the message was admitted, logged and applied in full; with no failing call an admitted message gets the log's answer and is applied if it can be. |
| `Handlers.Server.ProcessFireproofAction` | internal/api/protocol_actions.go:373-433 | Started alone, performs exactly one step of the one-at-a-time system on tables and log; answers 200 exactly when the message was admitted, logged and applied in full; with no failing call an admitted message gets the log's answer and is applied if it can be. |
| `Handlers.Server.ProcessUndoFireproofAction` | internal/api/protocol_actions.go:438-498 | Started alone, performs exactly one step of the one-at-a-time system on tables and log; answers 200 exactly when the message was admitted, logged and applied in full; with no failing call an admitted message gets the log's answer and is applied if it can be. |
| `Handlers.Server.ProcessAddAuxDataAction` | internal/api/protocol_actions.go:503-565 | Started alone, performs exactly one step of the one-at-a-time system on tables and log; answers 200 exactly when the message was admitted, logged and applied in full; with no failing call an admitted message gets the log's answer and is applied if it can be. |
| `Handlers.Server.ProcessRevokeAuxDataAction` | internal/api/protocol_actions.go:569-630 | Started alone, performs exactly one step of the one-at-a-time system on tables and log; answers 200 exactly when the message was admitted, logged and applied in full; with no failing call an admitted message gets the log's answer and is applied if it can be. |
| `Handlers.Server.HandleProtocolMessage` | internal/api/protocol_handler.go:108-132 | Dispatch by context and action keeps the server where its recorded run has led, so every theorem about runs speaks of it; same one-step and answer contract as the handlers for the logged actions, and no change of tables or log for the others. |
| `Handlers.Server.HandleCryptoShred` | internal/api/admin_handler.go:41-70 | Performs one administrator step; answers 200 only with the actor burnt down or unknown, and always then unless a call fails or the name is empty. |
| `Signing.DecodeEncodePublicKey` | internal/crypto/signing.go:70-92 | Decoding an encoded 32-byte key gives the key back. |
| `Signing.EncodeDecodePublicKey` | internal/crypto/signing.go:70-92 | Re-encoding a decoded text gives the text back if and only if it has no line break and its spare bits are zero. |
| `Signing.EveryKeyHasTwoTexts` | internal/crypto/signing.go:80-92 | Every key has a second text that decodes to it, so comparing texts is finer than comparing keys. |
| `Signing.DecodePublicKeyMeans` | internal/crypto/signing.go:80-92 | A text decodes to a key if and only if it is ed25519: followed by the base64url form of those 32 octets. |
| `Signing.VerifyMeans` | internal/crypto/signing.go:37-67 | A signature verifies if and only if its text decodes and Ed25519 accepts it over the canonical form of context, action, message and recent root. |
| `Signing.SignedMessageVerifies` | internal/crypto/signing.go:37-67 | Whoever signs the canonical form of the four fields and encodes the signature is accepted. |
| `Signing.SignatureBindsAllFields` | internal/crypto/signing.go:39-51 | With an injective canonical form and a signature good for one text, two messages that verify under one key and signature agree in all four fields. |
| `Signing.SignatureIgnoresTheRest` | internal/crypto/signing.go:39-44 | Key id, disclosed symmetric keys and one-time password have no influence on verification. |
| `Base64Url.DecodeEncode` | internal/crypto/signing.go:70-72 | The unpadded base64url of section 5 of RFC 4648: decoding undoes encoding for every byte string. |
| `Base64Url.EncodeDecode` | internal/crypto/signing.go:84-87 | Encoding undoes decoding exactly on canonical texts. |
| `Base64Url.DigitIsInAlphabet` | internal/crypto/signing.go:71 | The digits are the letters, numerals, hyphen and underscore of section 5 of RFC 4648, in that order. |
| `Base64Url.GroupValue` | internal/crypto/signing.go:71 | Three octets and the four digits written for them are the same 24-bit number. |
| `AttributeEncryption.DecryptAcceptsExactlyEncryptions` | internal/crypto/attribute_encryption.go:163-244 | An input decrypts to p if and only if it is, octet for octet, the encryption of p with the 32 random octets found in the input, for all names, keys, roots and lengths. |
| `AttributeEncryption.DecryptEncrypt` | internal/crypto/attribute_encryption.go:93-160 | Decryption undoes encryption, whatever the randomness. |
| `AttributeEncryption.EncryptionLayout` | internal/crypto/attribute_encryption.go:93-160 | The encryption octet by octet, in terms of the primitives: version 1, the randomness, the Argon2id commitment under the truncated SHA-512 salt, the last 32 octets of the HMAC under the key derived from the authentication info, and the plaintext combined with the keystream of the key and nonce derived from the encryption info. |
| `AttributeEncryption.AuthKeyIgnoresEncryptionContext` | internal/crypto/attribute_encryption.go:114 | The authentication key is the same for any two primitives that differ only in what HKDF gives for infos of the encryption context. |
| `AttributeEncryption.CiphertextIgnoresAuthContext` | internal/crypto/attribute_encryption.go:105-111 | The ciphertext is the same for any two primitives that differ only in what HKDF gives for infos of the authentication context. |
| `AttributeEncryption.PrefixOctets` | internal/crypto/attribute_encryption.go:73-78 | The prefix is the length as eight octets, least significant first, before the data. |
| `AttributeEncryption.TwoMeaningsNeedACollision` | internal/crypto/attribute_encryption.go:234-240 | One input accepted for two different triples of root, name and plaintext, under whatever keys, exhibits two different inputs on which Argon2id agrees. |
| `AttributeEncryption.CommitmentInputDetermines` | internal/crypto/attribute_encryption.go:81-90 | The commitment input determines root, name and plaintext, for lengths below 2^64. |
| `AttributeEncryption.MacInputDetermines` | internal/crypto/attribute_encryption.go:142-147 | The MAC input determines version, randomness, name, ciphertext and commitment, for lengths below 2^64. |
| `AttributeEncryption.SaltInputDetermines` | internal/crypto/attribute_encryption.go:120-127 | The salt input determines version, randomness, root and name, for lengths below 2^64. |
| `AttributeEncryption.InfoDetermines` | internal/crypto/attribute_encryption.go:247-254 | Within one context the derivation info determines version, randomness and name. |
| `AttributeEncryption.KeysAreSeparated` | internal/crypto/attribute_encryption.go:44-48 | No encryption-key info ever equals an authentication-key info. |
| `AttributeEncryption.PrefixIsInvertible` | internal/crypto/attribute_encryption.go:73-78 | The 64-bit little-endian length prefix is invertible below 2^64. |
| `AttributeEncryption.PrefixedSplits` | internal/crypto/attribute_encryption.go:73-78 | A length-prefixed item can be read off the front of a text in one way only. |
| `AttributeEncryption.PutUint64` | internal/crypto/attribute_encryption.go:75 | Writes the eight low octets, least significant first, and leaves the rest of the buffer alone. |
| `AttributeEncryption.LenEncode` | internal/crypto/attribute_encryption.go:73-78 | The buffer filled in place is the prefix followed by the data. |
| `AttributeEncryption.BuildInfo` | internal/crypto/attribute_encryption.go:247-254 | The appended pieces make the framed derivation info. |
| `AttributeEncryption.CommitPlaintext` | internal/crypto/attribute_encryption.go:81-90 | Argon2id, with the fixed parameters, of the framed commitment input. |
| `AttributeEncryption.EncryptAttribute` | internal/crypto/attribute_encryption.go:93-160 | Produces exactly the encryption that decryption accepts; fails only when the generator fails. |
| `AttributeEncryption.DecryptAttribute` | internal/crypto/attribute_encryption.go:163-244 | The cursor-driven algorithm computes the decryption function, with the same error for too short, unknown version, bad tag and commitment mismatch. |
| `SignatureHeader.ParsingUndoesPrinting` | internal/api/http_signature_helpers.go:90-102 | Parsing a comma-joined list of key="value" items, with any white space around the items, gives the map the list spells; keys are free of commas and equals signs and do not start with a space, values are free of commas and of quotes at their ends. |
| `SignatureHeader.ItemRoundTrip` | internal/api/http_signature_helpers.go:94-98 | A printed item is read back if and only if its value has no quote at either end. |
| `SignatureHeader.DistinctItemsAreAllKept` | internal/api/http_signature_helpers.go:90-102 | With distinct keys the map holds every item and nothing else. |
| `SignatureHeader.ParamsMeans` | internal/api/http_signature_helpers.go:90-102 | A key has a value if and only if the last part that sets the key sets it to that value. |
| `SignatureHeader.ParsePartMeans` | internal/api/http_signature_helpers.go:94-98 | A part sets nothing exactly if it has no equals sign; otherwise it sets what stands before the first one, outer white space aside, to what follows it without surrounding quotes. |
| `SignatureHeader.ParseSignatureHeader` | internal/api/http_signature_helpers.go:90-102 | The loop fills the map that the comma-separated parts mean. |
| `SignatureHeader.BuildSigningString` | internal/api/protocol_handler.go:64-79 | The builder loop writes one line per word of the headers list, lower-cased name, colon, space, value, with line breaks between. |
| `SignatureHeader.SigningLinesAre` | internal/api/protocol_handler.go:64-79 | Split at its line breaks the signed string has one line per name listed, in order: the name in lower case, a colon, a space and the value, for the request target the method in lower case, a space and the path. |
| `SignatureHeader.SigningStringDetermines` | internal/api/protocol_handler.go:64-79 | Two requests with the same signed string have the same list of lower-cased names and values, as long as no value holds what reads as a further line; values without line breaks never do. |
| `SignatureHeader.NoNewlineEmbedsNothing` | internal/api/protocol_handler.go:64-79 | Values without line breaks hold nothing that reads as a further line. |
| `SignatureHeader.EmbeddedLineIsAmbiguous` | internal/api/protocol_handler.go:64-79 | That condition is sharp: every list with a value that holds a further line shares its signed string with a longer list. |
| `SignatureHeader.RequestTargetMaySpellTheHost` | internal/api/protocol_handler.go:71-75 | For every request there is another, with a line break in its decoded path, whose request target alone gives the signed string of request target and host. |
| `Text.SplitJoin` | internal/api/http_signature_helpers.go:92 | Splitting undoes joining for pieces without the separator. |
| `Text.JoinSplit` | internal/api/http_signature_helpers.go:92 | Splitting gives separator-free pieces that join to the text. |
| `Text.ToLowerMeans` | internal/api/protocol_handler.go:72-76 | Lower-casing replaces A to Z by a to z in order and leaves every other character. |
| `Text.TrimMeans` | internal/api/http_signature_helpers.go:94 | Trimming removes a run of dropped characters at each end and all it could. |
| `Text.FieldsAtGap` | internal/api/protocol_handler.go:65 | White space of any length and kind separates words. |
| `KeyFile.ReadUndoesWrite` | internal/auth/key_manager.go:55-126 | What is written under a password and Argon2id parameters is read back under the same ones, and likewise without a password. |
| `KeyFile.ModesDoNotMix` | internal/auth/key_manager.go:61-69 | A file written with a password is never read as a key without one, and the other way round. |
| `KeyFile.ReadAcceptsExactly` | internal/auth/key_manager.go:66-86 | With a password exactly the files made of a decodable salt, a colon and a decodable sealed key that opens are accepted. |
| `KeyFile.WrittenLayout` | internal/auth/key_manager.go:109-123 | With a password the file is the salt, a colon, and the key sealed with the first 32 octets as key and the last 12 as nonce of what Argon2id makes of that password and salt, the salt being additional data. |
| `KeyFile.OtherPasswordReadsNothing` | internal/auth/key_manager.go:80-86 | A file is not read under another password or other parameters for which Argon2id makes something else of its salt, if sealing opens under its own key and nonce only. |
| `KeyFile.FileKeyManager.Start` | internal/auth/key_manager.go:32-52 | Creates the file only when it is missing or empty and then the new key can be read back; leaves any other file alone. |
| `KeyFile.FileKeyManager.GenerateAndSaveKey` | internal/auth/key_manager.go:90-126 | On success the file holds the new key as reading finds it; a failing generator leaves the file alone. |
| `KeyFile.FileKeyManager.GetPasetoSymmetricKey` | internal/auth/key_manager.go:55-87 | Reads the file as its settings say, with an error for a missing file, a wrong number of parts, undecodable parts or a failing open. |
| `RefreshTokens.TokenLife` | internal/auth/token_service.go:133-204 | A token made at t is valid exactly as the kind it is and exactly up to the last whole second of its life; there is no lower limit, since nbf is not checked. |
| `RefreshTokens.LifeIsAtMostASecondShort` | internal/auth/token_service.go:187-197 | A token is never accepted after its lifetime and never refused as expired until less than a second of it is left. |
| `RefreshTokens.AccessTokenLife` | internal/auth/token_service.go:114-121 | An access token made at t is valid as one up to the last whole second of t plus 15 minutes, in nanoseconds. |
| `RefreshTokens.RefreshTokenLife` | internal/auth/token_service.go:124-130 | A refresh token made at t is valid as one up to the last whole second of t plus 12 hours, in nanoseconds. |
| `RefreshTokens.TokenClaims` | internal/auth/token_service.go:114-161 | What an opened token says: kind, issuer, identifier, times, and the administrator's claim in access tokens only. |
| `RefreshTokens.AcceptedAtMostOnce` | internal/auth/token_service.go:93-111 | When requests come one at a time, or the table of used tokens is unique, every refresh token is accepted at most once. |
| `RefreshTokens.SingleUseIffUnique` | internal/auth/token_service.go:79-107 | With requests interleaving freely, single use holds in all runs if and only if the table of used tokens is unique. |
| `RefreshTokens.RaceSpendsTwice` | internal/auth/token_service.go:79-107 | Without uniqueness, any valid token can be spent twice by two refreshes that are both checked before either insert. |
| `RefreshTokens.OutstandingIsBounded` | internal/auth/token_service.go:93-111 | Refreshing never multiplies tokens: those handed out and not yet spent are at most the pairs the operator asked for plus the spent ones that were never handed out. |
| `RefreshTokens.AloneMeans` | internal/auth/token_service.go:93-111 | A refresh with nothing else in flight spends a valid, unspent token whether or not the table is unique, and otherwise changes nothing. |
| `RefreshTokens.PasetoTokenService.ValidateToken` | internal/auth/token_service.go:165-205 | Decrypts, then checks expiry and kind, with the first failing check as the error. |
| `RefreshTokens.PasetoTokenService.ValidateRefreshToken` | internal/auth/token_service.go:68-90 | Accepts exactly the valid refresh tokens with an identifier not yet in the table, unless a read fails. |
| `RefreshTokens.PasetoTokenService.Refresh` | internal/auth/token_service.go:93-111 | Spends the token exactly when it validates and the insert succeeds; it stays spent when making its successors fails. |
| `RefreshTokens.PasetoTokenService.NewToken` | internal/auth/token_service.go:114-162 | Fills the claims map step by step into the claims of the kind, with lifetimes of 15 minutes and 12 hours. |

## Left out

- Handlers.Server.HandleProtocolMessage: does not model the HTTP signature check that ActivityPub requests pass before the message is read (it only refuses), nor what Query and Checkpoint answer and what Checkpoint stores in message_logs.
- Handlers.Server.ProcessAddKeyAction: of the status codes after the check passed only 200 is characterised, here and in the other handlers.
- Repository.Database.SetFireproof: an UPDATE whose row count cannot be read afterwards counts as not done.
- Repository.Transaction.StoreSymmetricKeys: the ids of symmetric key rows are not kept; the table is a map from its unique pair.
- SignatureHeader.BuildSigningString: lower-casing is that of ASCII letters; request methods and header names are ASCII.
- RefreshTokens.PasetoTokenService.NewToken: reading the key, drawing the identifier and encrypting fail as one.
- KeyFile.FileKeyManager.GenerateAndSaveKey: file modes and the path are not modelled.
- The statements of two transactions do not interleave: isolation weaker than serialisable, as PostgreSQL has by default, is not modelled.
- Gaps that a rolled-back PostgreSQL transaction leaves in numeric ids: ids are compared for equality only.
- JSON text: a payload is what the decoder makes of the raw message; the time field and the aux-id of an AddAuxData are not kept.
- created_at and updated_at stamps, and GetLatestMerkleRoot, which orders by them.
- message_logs with StoreMessage, and enrolment of TOTP secrets.
- The comparison of recent-merkle-root with the log: the source never makes it.
- HPKE sealing of TOTP secrets and of messages: calls into a library.
- fetchActorPublicKey with its cache, URL validation, checkpoint sending, routing, configuration and the command line: input and output without a hard property.
