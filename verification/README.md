# A verified model of the OAuth gateway's stateful cores

The gateway puts OAuth in front of an MCP server. Most of it is HTTP handling around libraries;
its own hard parts are a handful of state machines, which this project models in Dafny and proves
correct. `dafny verify dfyconfig.toml` checks everything.

**Signing keys** (`KeyDirectory`, `KeyManager`, `KeyRuns`, `TokenLifetime`). The key manager keeps
one active key and retiring keys in a directory with an atomically renamed manifest. The directory
is an object whose file operations may fail or be cut short at any point, and which remembers every
state it has been in, so that a property of all of those states is a property of every possible
crash. `KeyRuns` adds time, signing, restarts and algorithm changes. The main results: a live token
always resolves to the key that signed it, exactly when the retiring window is at least the token
lifetime plus twice the clock skew; and no crash, failed write or restart ever leaves a directory
that cannot be loaded. A rotation may carry a time up to the clock skew behind the last signature,
and generated keys get unused kids. `TokenLifetime` adds the tokens' records and their sweeps; a
token's expiry is taken to be at most a nanosecond after its record's request time plus the lifetime.

**The store and its kill switch** (`Records`, `StoreSpec`, `StoreLaws`, `KvsStore`, `SqlStore`, `Backends`,
`StoreRuns`, `SplitCalls`, `RegistrationCap`). Each operation has one meaning on a map from typed keys
to values; `StoreLaws` says which records it takes or changes by their fields alone. The bucket backend
is proved against it over a flat, byte-sorted key list walked by Seek and prefix, the table backend over
rows with their duplicated request ID; `Backends.RunBoth` drives both in lockstep. `StoreRuns` interleaves minting flows, rotations, touches, sweeps and revokes, and says exactly
when a revoke of a client, a grant or everything is final. A rotation or touch reads in one transaction
and writes in another; `SplitCalls` proves each half a step of those runs in both backends. A stored
value either decodes to the record its kind calls for or does not.

**The operator's list** (`Ordering`, `Inventory`, `InventoryLaws`, `Sights`, `InventoryOrder`,
`TableOrder`, `Listing`, `ListingFeed`, `TableLists`, `ListedRows`, `StoreLists`, `MapSums`). The aggregator
folds records into rows; who is listed and what every field of a row shows is proved in terms of the
records. The list of the bucket is proved to depend on the stored records alone, that of the tables exactly
when the tables agree in a way spelt out below. Its counts are conserved; revoking a client removes
one row and nothing else, and revoking a grant that grant alone, in the tables under the same condition.

**Abuse protection** (`Lockouts`, `Limiter`, `LimiterSweeps`, `LimiterRate`), **the metadata cache**
(`Resolver`), **the redirecting transport** (`Transport`) and **the allow-list parser** (`AllowLists`)
are each a class or method proved against a specification, with the numeric bounds, run properties
and round trips as lemmas.

Times are natural numbers of nanoseconds, 0 being the zero time; clock readings, fetched documents,
generated keys and backend responses are parameters or arbitrary choices. Map iteration takes the
elements in an arbitrary order. Integers are unbounded; Go's truncating division occurs only on
non-negative operands, where Dafny's agrees with it.

## Where the code does less than it says

The model follows the code. In these places a promise holds only under a condition, and the
condition is proved to be exact.

- `pkg/ratelimit/ratelimit.go:104-105` calls a dropped bucket indistinguishable from a fresh one.
  A call reads the clock for its visitor first and for its bucket second. Sweeps are invisible, and
  the rate is kept, in every run exactly when no call lets more time pass between the two than
  `LimiterSweeps.Tolerance`, which is zero for any window its event count divides; `NearMiss` is the
  run that shows it. Beyond the tolerance a drop gives away at most `LimiterSweeps.Excess`, and a
  span holds one drop and at most one more per window (`LimiterRate.RateForAnyGap`). A run whose
  sweeps wait longer than the window by that gap is not affected (`LimiterSweeps.LateDropsAreFull`).
- `pkg/repository/interface.go:48-53` promises that a revoke takes all access away. It does exactly
  when no token request in its scope is between its read and its write at that moment
  (`StoreRuns.RevokeKills`); `StoreRuns.RevokeMissesOpenFlow` is a run where it does not.
- The registration cap of `pkg/repository/kvs.go:255-279` can be exceeded by writing over a stored
  registration that has expired, and in no other way. The gateway can do so by a touch: a
  registration expires after `pkg/idp/token.go:35` has looked it up, and line 54 touches it once its
  place is taken (`RegistrationCap.TouchExceeds`). Registering an expired ID again would do it too
  (`RegistrationCap.RegisterExceeds`), but `pkg/idp/register.go:95` draws a fresh ID each time.
- `pkg/repository/inventory.go:179-180` relies on one name per grant. The tables are read one after the
  other, the rows of each in no stated order (`pkg/repository/sql_inventory.go:25-54`). Their list is a
  function of the stored records and the time exactly when (`TableLists.TableListExactly`,
  `TableOrder.TablesAgree`): the access records of a grant carry one name, or where none has a name its
  refresh records do; a client without a registration has one set of redirect URIs on its newest refresh
  records, or where no refresh record is newest on its newest access records; a client's refresh times are
  all zero or none is; and where its access times mix zero with others, a refresh record is no later than
  each of the others. The same condition on the records left decides whether revoking a client takes its
  row and nothing else (`TableLists.RevokeTakesOneRowExactly`). The bucket reads in a fixed order, so its
  list needs none of this (`Listing.ScannedListIsDetermined`). For an aggregator fed in any order at all
  the exact condition is `InventoryOrder.OrderFree` (`InventoryOrder.OrderShowsExactly`).
- The two backends differ on `RevokeClient` with an empty ID and on `RevokeAll` over a registration
  that does not decode (`SqlStore.RevocationsAgreeExactly`), and on revoking the tokens of a request ID
  exactly when a record of that table does not decode and carries the ID in its column: the tables
  delete it, the bucket steps over it (`SqlStore.SqlRepository.RevokeTokens`). A rotation or touch whose
  record goes between read and write is an error in the bucket and none in the tables; the records are
  the same (`SplitCalls.WriteRotation`, `SplitCalls.WriteTouch`).
- `parse.go:20-21` has an escape for the delimiter but none for the backslash, so an entry that ends
  in one cannot be followed by another (`AllowLists.RoundTripExactly`).

## Model

| member | source | states |
|---|---|---|
| KeyDirectory.LoadKey | pkg/keys/manager.go:213-239 | a kid loads exactly when its file exists, holds an acceptable key and that key's fingerprint is the kid; every other case is an error |
| KeyDirectory.LoadsExactly | pkg/keys/manager.go:213-239 | the keys accepted from a file: RSA of at least 2048 bits for RS256, P-256 for ES256, under their own fingerprint, and no other |
| KeyDirectory.LoadRetiring | pkg/keys/manager.go:146-153 | all retiring keys load with their deadlines, each from its own file, or none does |
| KeyDirectory.Load | pkg/keys/manager.go:130-158 | what a start-up reads is what the manifest says, an absent age being set to now |
| KeyDirectory.LoadRetiringBacked | pkg/keys/manager.go:146-153 | retiring keys that are backed by their files load back unchanged |
| KeyDirectory.LoadReturnsPublished | pkg/keys/manifest.go:22-66 | round trip: the set a manager published is the set the next start-up loads |
| KeyDirectory.KeyDir.WriteKeyFile | pkg/keys/keys.go:134-142 | a key file write may fail or be cut short at any point and changes no other file and no manifest |
| KeyDirectory.KeyDir.WriteTmp | pkg/keys/manifest.go:39-60 | writing the temporary manifest leaves manifest and key files alone, whatever fails |
| KeyDirectory.KeyDir.RenameTmp | pkg/keys/manifest.go:61-64 | the rename puts the whole new manifest in place or changes nothing |
| KeyManager.Unexpired | pkg/keys/manager.go:375-383 | a sweep keeps exactly the retiring keys whose deadline is still ahead |
| KeyManager.Resolve | pkg/keys/manager.go:254-269 | a kid resolves to the active or a retiring key of that kid only, never an empty kid |
| KeyManager.ResolveRetiring | pkg/keys/manager.go:263-268 | a retiring key is found exactly when one has that kid |
| KeyManager.ResolvesOwnKeys | pkg/keys/manager.go:252-269 | every key of a sound set resolves to itself, so no key hides another |
| KeyManager.HomeIsRecoverable | pkg/keys/manager.go:130-158 | a directory that says what memory says can be restarted from, with the same keys |
| KeyManager.RotatedIsSound | pkg/keys/manager.go:350-355 | with the new key file written, the rotated set names distinct kids with matching files |
| KeyManager.UnexpiredDistinct | pkg/keys/manager.go:375-383 | the keys kept by a sweep still have distinct kids |
| KeyManager.SweptIsSound | pkg/keys/manager.go:387-388 | dropping expired keys keeps the set sound |
| KeyManager.MaintainedByAge | pkg/keys/manager.go:296-315 | a key of the configured algorithm younger than the interval stays with its age; any other is replaced by the new key, aged from now, and retires for the window |
| KeyManager.StartSetIsBegun | pkg/keys/manager.go:94-205 | a start-up begins with the manifest's keys and age, or else with the legacy key or a fresh one aged from now |
| KeyManager.RestartKeepsAge | pkg/keys/manifest.go:25-66 | a manifest that carries the age of the active key gives it back to the next start-up |
| KeyManager.OtherFilesStayBacked | pkg/keys/manager.go:393-398 | touching the file of a kid outside the set harms no key of the set |
| KeyManager.ExpiredKidIsFree | pkg/keys/manager.go:370-398 | an expired key shares its kid with no key that stays, so its file may go |
| KeyManager.Manager.NewFixed | pkg/keys/manager.go:108-128 | an environment key is accepted exactly when its algorithm is the configured one, and resolves |
| KeyManager.Manager.VerificationKey | pkg/keys/manager.go:254-269 | the lookup loop answers what the key set means for the kid |
| KeyManager.Manager.WriteManifest | pkg/keys/manifest.go:25-66 | at every point of the write the durable manifest is the old one or the whole new one; success publishes memory |
| KeyManager.Manager.RotateLocked | pkg/keys/manager.go:330-368 | success is one rotation, failure changes nothing in memory, and every disk state in between holds the old or the new set |
| KeyManager.Manager.Partition | pkg/keys/manager.go:375-383 | kept and expired keys split the retiring list by the deadline |
| KeyManager.Manager.SweepLocked | pkg/keys/manager.go:374-400 | success drops exactly the expired keys, failure none, and no disk state in between names a missing file |
| KeyManager.Manager.DeleteKeyFiles | pkg/keys/manager.go:393-398 | removing expired files, with any of them failing, leaves the published set loadable at every point |
| KeyManager.Manager.Maintain | pkg/keys/manager.go:296-315 | rotate when the interval has passed or the algorithm changed, then sweep; a failure leaves the old or the rotated set, in memory as on disk |
| KeyManager.Manager.Rotate | pkg/keys/manager.go:319-323 | a forced rotation, all or nothing |
| KeyManager.LoadRetiringFails | pkg/keys/manager.go:147-151 | one retiring key that cannot be loaded fails the whole load |
| KeyManager.Manager.LoadAll | pkg/keys/manager.go:132-158 | the loop loads exactly what the manifest means or changes nothing |
| KeyManager.Manager.Initialize | pkg/keys/manager.go:160-211 | the first manifest names the legacy key under its own kid, or a fresh key; no half-written start is ever published |
| KeyManager.Manager.Begin | pkg/keys/manager.go:88-100 | the first half of a start-up yields the set that the directory or a first key determines, and leaves an existing directory alone |
| KeyManager.Manager.Start | pkg/keys/manager.go:74-106 | success is the begun set after one maintenance pass; on every path every disk state has no manifest yet or holds the begun set, rotated, swept or both |
| KeyManager.StartsAreRecoverable | pkg/keys/manager.go:74-106 | and each of those disk states can be restarted from |
| KeyRuns.CallKeepsHold | pkg/keys/manager.go:330-400 | a rotation or sweep keeps every unexpired token's key, given the retiring window and the bounded lag |
| KeyRuns.SaveKeepsInv | pkg/keys/manager.go:330-400 | completed, failed and fatal saves all keep the run invariant |
| KeyRuns.NextKeepsInv | pkg/keys/manager.go:74-400 | waiting, signing, stopping, restarting and the first start keep the run invariant as saves do |
| KeyRuns.RunKeepsInv | pkg/keys/manager.go:74-400 | the invariant holds in every state of every run |
| KeyRuns.LiveTokensResolve | pkg/keys/signer.go:26-58 | in every run with crashes, failed writes, restarts and algorithm changes, an unexpired token resolves to the very key and algorithm that signed it |
| KeyRuns.NextKeepsOnDisk | pkg/keys/manager.go:325-400 | each step leaves a loadable directory that agrees with memory, whatever the window |
| KeyRuns.EveryRunIsRestartable | pkg/keys/manager.go:325-400 | at no point of any run is the directory unloadable, and memory always equals the manifest |
| KeyRuns.ShortWindowLosesAToken | pkg/mcp-proxy/deps.go:265-272 | any shorter retiring window has a run in which a live token no longer resolves |
| KeyRuns.RetireWindowIsExact | pkg/mcp-proxy/deps.go:265-272 | live tokens always resolve exactly when the window is at least the token lifetime plus twice the clock skew |
| KeyRuns.RotateIsAStep | pkg/keys/manager.go:319-368 | a call of the manager's rotation, and a crash at any of its disk states, is a step of the run machine |
| KeyRuns.SweepIsAStep | pkg/keys/manager.go:374-400 | a call of the manager's sweep, and a crash at any of its disk states, is a step of the run machine |
| KeyRuns.SigningKeyIsAStep | pkg/keys/signer.go:26-33 | reading the active key before signing is a step of the run machine |
| KeyRuns.PassLeads | pkg/keys/manager.go:296-315 | every outcome of a maintenance pass, on disk and in memory, is reached by steps of the run machine |
| KeyRuns.MaintainIsSteps | pkg/keys/manager.go:296-315 | a maintenance pass is steps of a run, and so is its death at any disk state it passes through |
| KeyRuns.StartIsSteps | pkg/keys/manager.go:74-106 | a start-up is steps of a run, and so is its death or failure at any disk state it passes through |
| Records.PrefixFree | pkg/repository/kvs_inventory.go:16-36 | no string starts with the prefixes of two kinds |
| Records.EncodeInjective | pkg/repository/kvs_inventory.go:16-36 | different typed keys never share a bucket key, whatever their suffixes |
| Records.EncodeHasOnlyItsPrefix | pkg/repository/kvs_inventory.go:223-232 | a bucket key has the prefix of its own kind and of no other |
| Records.BelowExactly | pkg/repository/kvs_inventory.go:223-232 | the byte order of keys: the first byte that differs decides, a proper prefix comes first |
| Records.PrefixInterval | pkg/repository/kvs_inventory.go:223-232 | between two keys at or after a prefix, the earlier has the prefix whenever the later has |
| Records.PrefixRun | pkg/repository/kvs_inventory.go:223-232 | the keys from Seek while HasPrefix holds are exactly the keys with the prefix |
| StoreSpec.RevokeIsExact | pkg/repository/kvs_inventory.go:99-126 | a revoke deletes exactly what its scope names, reports the exact drop in size, and on any undecodable record changes nothing |
| StoreSpec.RevokeKeepsAccounts | pkg/repository/kvs_inventory.go:94-97 | operator account, passkeys and schema marker survive every scope |
| StoreLaws.CreatedIsFetched | pkg/repository/kvs.go:41-68 | what is created is read back exactly where its key calls for such a record; other keys are not touched |
| StoreLaws.RotationIsNoted | pkg/repository/kvs.go:144-151 | a rotation sets the rotation time of its token's record and nothing else |
| StoreLaws.TouchMovesExpiry | pkg/repository/kvs.go:328-339 | a touch moves the expiry of a registration that has one and nothing else |
| StoreLaws.TokensOfGrantGo | pkg/repository/kvs.go:178-190 | revoking tokens takes those of one kind with the request ID and nothing else |
| StoreLaws.RegistrationLives | pkg/repository/kvs.go:281-375 | a registration is found through its expiry, counted until it, and swept exactly when it is no longer found |
| StoreLaws.RegisteredIsFound | pkg/repository/kvs.go:255-310 | an accepted registration is found until it expires; a refused one leaves no trace |
| StoreLaws.RevokeFailsExactly | pkg/repository/kvs_inventory.go:128-183 | a revoke fails exactly on a session or pending record it cannot read, that of everything also on a registration |
| StoreLaws.GrantRevokeTakes | pkg/repository/kvs_inventory.go:89-92 | revoking a grant takes the session and pending records with its ID and no others |
| StoreLaws.ClientRevokeTakes | pkg/repository/kvs_inventory.go:73-87 | revoking a client takes the session and pending records that carry it, and its registration |
| StoreLaws.FullRevokeTakes | pkg/repository/kvs_inventory.go:94-97 | revoking everything leaves accounts, passkeys, the schema marker and pending requests without a request |
| KvsStore.CoupledPut | pkg/repository/kvs_inventory.go:16-26 | writing a bucket key writes one typed key and no other |
| KvsStore.CoupledDelete | pkg/repository/kvs_inventory.go:16-26 | deleting a bucket key deletes one typed key and no other |
| KvsStore.KvsRepository.Seek | pkg/repository/kvs_inventory.go:223-226 | the cursor stands at the first key not below the sought one |
| KvsStore.KvsRepository.Put | pkg/repository/kvs.go:41-50 | a create writes one key of the typed map, new or not |
| KvsStore.KvsRepository.Delete | pkg/repository/kvs.go:63-68 | a delete removes one typed key, present or not |
| KvsStore.KvsRepository.Get | pkg/repository/kvs.go:52-61 | a read is found, missing or undecodable as the typed map says |
| KvsStore.KvsRepository.Update | pkg/repository/kvs.go:70-82 | an update writes only over a key that is present |
| KvsStore.KvsRepository.Scan | pkg/repository/kvs_inventory.go:223-232 | the Seek and HasPrefix loop visits every key of its kind once, in byte order, and no other |
| KvsStore.KvsRepository.SelectDecoded | pkg/repository/kvs_inventory.go:193-221 | a strict scan picks exactly the matching records, or fails on one it cannot read |
| KvsStore.KvsRepository.DeleteMatching | pkg/repository/kvs.go:155-176 | exactly the decodable matching records of the kind go; undecodable ones are skipped |
| KvsStore.KvsRepository.DeleteExpiredSessions | pkg/repository/kvs.go:194-231 | exactly the records older than their kind's cutoff go, unreadable pending requests with them |
| KvsStore.KvsRepository.RevokeTokens | pkg/repository/kvs.go:178-190 | all tokens of the kind with the grant's request ID go, and nothing else |
| KvsStore.KvsRepository.RotateRefreshToken | pkg/repository/kvs.go:144-151 | the record keeps its key and content apart from the rotation time |
| KvsStore.KvsRepository.CountLiveClients | pkg/repository/kvs.go:281-297 | the cursor loop counts exactly the registrations without or before their expiry |
| KvsStore.KvsRepository.RegisterClient | pkg/repository/kvs.go:255-279 | count and insert are one step; only a new ID at a full cap is refused, and then nothing changes |
| KvsStore.KvsRepository.GetClient | pkg/repository/kvs.go:299-310 | an expired registration is absent |
| KvsStore.KvsRepository.TouchClient | pkg/repository/kvs.go:328-339 | only a registration that expires gets a new expiry |
| KvsStore.KvsRepository.DeleteExpiredClients | pkg/repository/kvs.go:352-375 | exactly the expired registrations go |
| KvsStore.KvsRepository.StaleSessions | pkg/repository/kvs_inventory.go:131-159 | the session keys of a scope are collected once each, or the revoke fails |
| KvsStore.KvsRepository.StaleClients | pkg/repository/kvs_inventory.go:161-183 | the registrations of a scope: one named, all, or none |
| KvsStore.KvsRepository.RevokeScope | pkg/repository/kvs_inventory.go:99-126 | the transaction is the revocation of the typed map |
| KvsStore.KvsRepository.ListClientGrants | pkg/repository/kvs_inventory.go:40-69 | the list is that of the stored records read in the bucket's order; one unreadable record is an error |
| Inventory.NewerIsStrictOrder | pkg/repository/inventory.go:255-287 | the two sort orders are strict and total on rows and grants with distinct IDs |
| Inventory.ListingUnique | pkg/repository/inventory.go:232-262 | for given accumulators there is one finished list, whatever the map iteration order |
| Inventory.RowUnique | pkg/repository/inventory.go:242-253 | an accumulator determines its finished row |
| Inventory.FoldWellKeyed | pkg/repository/inventory.go:116-131 | accumulators and grants are filed under their own IDs |
| Inventory.Aggregator.AddToken | pkg/repository/inventory.go:133-150 | one token record adds to its client's row what it should, or nothing without a client |
| Inventory.Aggregator.TakeSnapshot | pkg/repository/inventory.go:152-162 | the newest record's redirect URIs win, unless a registration is known |
| Inventory.Aggregator.GrantFor | pkg/repository/inventory.go:164-177 | a grant keeps the earliest request time seen |
| Inventory.Aggregator.Count | pkg/repository/inventory.go:187-197 | one record counts once in its grant and once in its row |
| Inventory.Aggregator.RecordActivity | pkg/repository/inventory.go:199-216 | the latest activity and the earliest request are kept |
| Inventory.Aggregator.AddRegistration | pkg/repository/inventory.go:218-230 | a registration outranks every snapshot |
| Inventory.Aggregator.Rows | pkg/repository/inventory.go:232-262 | the finished list holds one row per client shown, newest activity first |
| Inventory.Aggregator.FinishRow | pkg/repository/inventory.go:242-252 | a row carries its sorted grants, sorted scopes and the newest name |
| Inventory.Aggregator.SortedGrants | pkg/repository/inventory.go:277-289 | all grants, newest first, ties by ID |
| Inventory.Aggregator.SortedScopes | pkg/repository/inventory.go:291-301 | all scopes once, in byte order |
| Ordering.Insert | pkg/repository/inventory.go:255-260 | insertion keeps a strictly sorted list sorted and loses nothing |
| Ordering.SortedUnique | pkg/repository/inventory.go:255-260 | two strictly sorted lists of the same elements are the same list |
| InventoryLaws.AddCommutes | pkg/repository/inventory.go:133-230 | two agreeing records may be folded in either order |
| InventoryLaws.AgreeingFoldAlike | pkg/repository/inventory.go:133-230 | records that agree pairwise fold alike in every order |
| Sights.SameListsExactly | pkg/repository/inventory.go:232-301 | two accumulations give the same list at every time exactly when they differ in nothing but the times of their snapshots |
| Sights.ListingExists | pkg/repository/inventory.go:232-262 | whatever was accumulated, a finished list of it exists at every time |
| InventoryOrder.TitleIsFirstName | pkg/repository/inventory.go:164-185 | a grant shows the first name found on its records in the order they were read |
| InventoryOrder.UrisAre | pkg/repository/inventory.go:152-162 | a row without a registration shows the redirect URIs of the last record read among its newest |
| InventoryOrder.LastDecidesZero | pkg/repository/inventory.go:199-216 | the first activity is unknown exactly when the last token record read has no request time |
| InventoryOrder.SightsIgnoreOrder | pkg/repository/inventory.go:133-230 | any permutation of records that leave nothing to the order accumulates to the same sights |
| InventoryOrder.ListIgnoresOrder | pkg/repository/inventory.go:137-262 | and gives the identical sorted list |
| InventoryOrder.OrderShowsExactly | pkg/repository/inventory.go:133-262 | for any number of records: all orders give the same list at every time exactly when each grant carries one name, no client mixes zero times with others, registrations of one ID agree, and a client without one has one set of redirect URIs on its newest records |
| TableOrder.SightsIgnoreTableOrder | pkg/repository/sql_inventory.go:25-54 | where the tables agree, any order of the rows within each table accumulates to the same sights |
| TableOrder.TableOrderShowsExactly | pkg/repository/sql_inventory.go:25-54 | for any number of records read access tokens first, then refresh tokens, then registrations: all orders within the tables give the same list at every time exactly when names, newest redirect URIs and zero times agree as far as that sequence leaves them open |
| InventoryLaws.FoldWithout | pkg/repository/inventory.go:133-230 | leaving out a client's records leaves out its accumulator and nothing else |
| InventoryLaws.ListingWithout | pkg/repository/inventory.go:232-262 | the list without a client is the list with that row removed |
| InventoryLaws.CountsAreConserved | pkg/repository/inventory.go:187-197 | each row's token counts are the sum over its grants, and over all rows the number of attributable records |
| InventoryLaws.FoldExplains | pkg/repository/inventory.go:133-230 | every row value has a record to explain it: activity bounds, scopes, grants, redirect URIs |
| InventoryLaws.FoldKeys | pkg/repository/inventory.go:137-141 | a client has a row exactly when some record names it |
| ListedRows.ListedExactly | pkg/repository/inventory.go:232-241 | a client is listed exactly when it holds a token or its registration has not expired |
| ListedRows.RowsSay | pkg/repository/inventory.go:116-230 | every field of a row, by the records: origin, counts, scopes, latest activity, first activity, registration, redirect URIs |
| ListedRows.RowsShowGrants | pkg/repository/inventory.go:164-216 | one grant for each grant ID, with its counts, its span of times and its first name, and the row named after the newest named grant |
| ListedRows.NewestFirst | pkg/repository/inventory.go:255-301 | rows and grants come newest first, ties and scopes in byte order |
| ListedRows.FoldWithoutGrant | pkg/repository/inventory.go:164-216 | leaving out a grant's records leaves every other grant as it was |
| TableLists.OrderFor | pkg/repository/sql_inventory.go:25-54 | every arrangement of the records within their tables comes from some order of the rows |
| TableLists.TableListIsDetermined | pkg/repository/inventory.go:232-262 | where the tables agree, the tables' list is a function of the stored records and the time |
| TableLists.TableListExactly | pkg/repository/sql_inventory.go:15-57 | on every decodable store, any two lists read table by table at one time are equal exactly when the tables agree |
| Listing.ScannedListIsDetermined | pkg/repository/kvs_inventory.go:40-69 | the bucket's list is a function of the stored records and the time, on every decodable store |
| Listing.RevokedIsAttributed | pkg/repository/kvs_inventory.go:73-87 | a revoke of a client takes exactly the listed records its row was made of |
| Listing.KeptOrderAfterRevoke | pkg/repository/kvs_inventory.go:73-87 | read in the order they had, the records left by a client revoke give the list without its row |
| Listing.ScannedListAfterRevokeClient | pkg/repository/kvs_inventory.go:73-87 | in the bucket, on every decodable store, revoking a client removes exactly its row from the list |
| StoreLists.ListedClientsExactly | pkg/repository/inventory.go:232-241 | in both backends a client is listed exactly when a token of it is stored or its registration has not expired |
| StoreLists.RowsCountStored | pkg/repository/inventory.go:187-197 | a row counts the stored tokens of its client, each kind for itself |
| StoreLists.TableRowsSay | pkg/repository/sql_inventory.go:15-57 | every row of either backend says what the stored records say, read in some order of the tables |
| StoreLists.ScannedListAfterRevokeGrant | pkg/repository/kvs_inventory.go:89-92 | in the bucket, revoking a grant takes it out of the list and leaves every other grant of every client as it was |
| StoreLists.TableListAfterRevokeGrant | pkg/repository/sql_inventory.go:77-80 | so it does in the tables where those of the records left agree |
| StoreLists.NothingListedAfterRevokeAll | pkg/repository/kvs_inventory.go:94-97 | revoking everything empties the list |
| TableLists.ListAfterRevokeClient | pkg/repository/sql_inventory.go:70-75 | so it does in the tables, whatever row order each read takes, where the tables of the records left agree |
| TableLists.RevokeTakesOneRowExactly | pkg/repository/sql_inventory.go:70-75 | and it does so in every order of reading exactly when they agree |
| ListingFeed.Feed | pkg/repository/kvs_inventory.go:51-63 | feeding one kind's records adds exactly those records, or stops at one that does not decode |
| ListingFeed.FinishList | pkg/repository/inventory.go:236-262 | the finished rows are the list of the store in the order it was fed |
| SqlStore.RevocationsAgreeExactly | pkg/repository/sql_inventory.go:59-187 | the table revoke and the bucket revoke do the same exactly when a session record does not decode, so that both fail, or neither is the empty client ID revoked while registered nor does the panic revoke meet an undecodable registration |
| SqlStore.SqlRepository.Upsert | pkg/repository/sql_sessions.go:86-101 | an insert or replace keeps the request_id column equal to the record's request ID |
| SqlStore.SqlRepository.First | pkg/repository/sql_sessions.go:103-113 | a read by primary key is found, missing or undecodable as the typed map says |
| SqlStore.SqlRepository.RevokeTokens | pkg/repository/sql_sessions.go:179-188 | rows go by their request_id column, which is what the bucket deletes exactly when no undecodable row of the table carries the ID there |
| SqlStore.SqlRepository.RotateRefreshToken | pkg/repository/sql_sessions.go:153-177 | only the rotation time changes, request ID and column stay; a missing or undecodable record is the error the bucket gives |
| SqlStore.SqlRepository.CountLiveClients | pkg/repository/sql_clients.go:82-101 | the loop over the rows counts exactly the registrations without or before their expiry, skipping undecodable ones |
| SqlStore.SqlRepository.RegisterClient | pkg/repository/sql_clients.go:23-64 | only a new ID at a full cap is refused, and then nothing changes; otherwise the row is the registration, as in the bucket |
| SqlStore.SqlRepository.GetClient | pkg/repository/sql_clients.go:103-130 | an expired registration is absent, a missing or undecodable one an error |
| SqlStore.SqlRepository.TouchClient | pkg/repository/sql_clients.go:132-150 | only a registration that expires gets a new expiry |
| SqlStore.SqlRepository.DeleteExpiredClients | pkg/repository/sql_clients.go:157-189 | exactly the expired registrations go, though the rows are addressed by the ID inside the record |
| SqlStore.SqlRepository.StaleKeys | pkg/repository/sql_inventory.go:189-232 | exactly the matching rows of a table, or an error |
| SqlStore.SqlRepository.CollectSweeps | pkg/repository/sql_inventory.go:128-167 | the matching rows of all five tables, once each, or an error when any row does not decode |
| SqlStore.SqlRepository.DeleteRegistrations | pkg/repository/sql_inventory.go:169-187 | one, all or no registrations, with their number |
| SqlStore.SqlRepository.RevokeScope | pkg/repository/sql_inventory.go:95-126 | sessions first, registrations second, one count and one outcome |
| SqlStore.RevokedInTwoParts | pkg/repository/sql_inventory.go:106-120 | the two deletions of the transaction are together the revocation, and their counts add up |
| SqlStore.SqlRepository.ListClientGrants | pkg/repository/sql_inventory.go:15-57 | the list is that of the stored rows read table by table; one unreadable record is an error |
| Backends.TidyRevocationsAgree | pkg/repository/sql_inventory.go:59-85 | on decodable stores the two revokes are the same for every scope but the empty client ID |
| Backends.ExecKeepsTidy | pkg/repository/sql_sessions.go:86-101 | every call keeps the store decodable |
| Backends.RunBoth | pkg/repository/interface.go:18-61 | in lockstep over any sequence of calls both backends give the same answers and counts and hold the same records; listings are equal wherever the tables agree |
| StoreRuns.NoResurrection | pkg/repository/kvs.go:70-82 | a removed record stays away until a create or register call writes its key, whatever rotations and touches had read it before |
| StoreRuns.FlowsWriteExactly | pkg/repository/kvs_inventory.go:28-36 | the session records a flow under way may write, and for whom |
| StoreRuns.UnmintableAfterStep | pkg/repository/interface.go:48-53 | no step brings back access for a client or grant with nothing stored and nothing under way |
| StoreRuns.RunKeepsInv | pkg/repository/kvs.go:144-151 | in every run from an empty store a pending rotation belongs to the client and grant of the record under its key |
| StoreRuns.StaysDeadExactly | pkg/repository/kvs_inventory.go:28-36 | a client or grant never regains an access token without a new authorize request exactly when no access token, code, refresh token, pending request or open flow of it is left |
| StoreRuns.RevokeKills | pkg/repository/interface.go:48-60 | a revoke of a client, of a grant or of everything is final for its scope exactly when no flow of the scope was open |
| StoreRuns.RevokeMissesOpenFlow | pkg/repository/interface.go:48-53 | a run from an empty store in which a revoked client gets an access token without asking again |
| StoreRuns.FlowRevives | pkg/repository/kvs_inventory.go:28-36 | an open flow can still write an access token after the revoke |
| StoreRuns.RecordRevives | pkg/repository/kvs_inventory.go:28-36 | an access token, code, refresh token or pending request left behind ends in an access token of its client and grant |
| SplitCalls.ReadForRotation | pkg/repository/sql_sessions.go:153-167 | the read of a rotation gives the same in both backends and is a step of the runs, or none is possible |
| SplitCalls.WriteRotation | pkg/repository/sql_sessions.go:168-177 | the write of a rotation is a step of the runs in both backends, however late it comes; only the bucket reports a record that has gone |
| SplitCalls.ReadForTouch | pkg/repository/sql_clients.go:132-140 | the read of a touch likewise |
| SplitCalls.WriteTouch | pkg/repository/sql_clients.go:141-150 | the write of a touch likewise; a registration read without an expiry is not written |
| SplitCalls.RunKeepsOwnIds | pkg/repository/sql_clients.go:23-64 | in every state of every run from an empty store a registration and a touch under way carry the ID they are stored under |
| RegistrationCap.RegisterExceedsExactly | pkg/repository/kvs.go:266-278 | a registration passes the cap exactly when it revives an expired ID while the cap is full |
| RegistrationCap.RefusalsLastExactly | pkg/repository/kvs.go:271-295 | a refused new ID is refused later exactly as long as the cap is full and no live registration has expired, sweep or no sweep |
| RegistrationCap.TouchExceedsExactly | pkg/repository/kvs.go:328-339 | the write of a touch passes the cap exactly when it revives an expired registration while the cap is full |
| RegistrationCap.CapHolds | pkg/repository/kvs.go:255-297 | over every run from an empty store without such revivals, touches reading and writing apart, the live registrations never exceed the cap |
| RegistrationCap.TouchExceeds | pkg/idp/token.go:35-58 | a run that exceeds it: looked up for a token request, expired, its place taken, then touched |
| RegistrationCap.RegisterExceeds | pkg/repository/kvs.go:266-278 | a run that exceeds it by registering an expired ID again |
| TokenLifetime.SweepDropsExactly | pkg/mcp-proxy/sweeper.go:57-65 | a sweep drops a token record exactly when its request time, lifetime and skew have passed |
| TokenLifetime.SweepTakesExactly | pkg/repository/kvs.go:194-231 | a sweep takes exactly the tokens, codes and PKCE sessions whose own lifetime and the skew have passed, pending requests with the codes or unreadable, and nothing else |
| TokenLifetime.RecordOutlivesTokenExactly | pkg/mcp-proxy/sweeper.go:57-65 | no sweep takes a record that still counts exactly when the token expires at most a tick after request time plus lifetime |
| TokenLifetime.RecordStays | pkg/mcp-proxy/sweeper.go:57-71 | through any schedule of sweeps the record outlasts the token |
| TokenLifetime.AcceptedExactlyWhileLive | pkg/proxy/proxy.go:131-168 | an unrevoked token is accepted exactly until its expiry plus the skew, across sweeps, key maintenance and restarts |
| TokenLifetime.IssuedIsAccepted | pkg/mcp-proxy/router.go:250-264 | a token signed and recorded in a run is accepted from then on exactly until its expiry plus the skew |
| TokenLifetime.TokensAreIssued | pkg/keys/signer.go:26-33 | a run that starts the gateway and issues a token with its record |
| Lockouts.Lockout.Locked | pkg/ratelimit/lockout.go:39-47 | locked while the window lasts, never for an unknown account |
| Lockouts.Lockout.Fail | pkg/ratelimit/lockout.go:55-77 | one failure of one account, every other account as before |
| Lockouts.Lockout.Sweep | pkg/ratelimit/lockout.go:89-105 | in any map order exactly the entries out of their window and idle for its length go |
| Lockouts.NewLockout | pkg/ratelimit/lockout.go:25-36 | no lockout at all for a threshold of zero or less |
| Lockouts.Drive | pkg/ratelimit/lockout.go:39-105 | the object treats one account alike whatever the others do |
| Lockouts.RunKeepsInv | pkg/ratelimit/lockout.go:55-105 | what an entry remembers of the failures that found the account unlocked |
| Lockouts.GuessesAreBounded | pkg/ratelimit/lockout.go:49-77 | any half-open interval as long as the window holds at most threshold failures that found the account unlocked, under any failures and sweeps |
| Lockouts.ArmedWindowStands | pkg/ratelimit/lockout.go:49-77 | an armed window's end never moves before it is reached, and a new window takes threshold further failures at or after it |
| Lockouts.BurstLocksAtThreshold | pkg/ratelimit/lockout.go:49-77 | failures less than a window apart lock at the threshold and not sooner |
| Lockouts.BurstLocksExactly | pkg/ratelimit/lockout.go:39-77 | after a burst the account is locked exactly from the failure that reaches the threshold until a window later |
| Lockouts.SweepForgetsExactly | pkg/ratelimit/lockout.go:89-105 | a sweep forgets an account exactly when its last failure is at least a window ago |
| Lockouts.DropShowsExactly | pkg/ratelimit/lockout.go:89-105 | what a sweep drops is missed by callers exactly when it is a streak of failures that has not locked the account |
| Limiter.Limiter.Allow | pkg/ratelimit/ratelimit.go:88-102 | one call of one key, a refusal leaving its bucket as it was |
| Limiter.Limiter.Sweep | pkg/ratelimit/ratelimit.go:104-117 | in any map order exactly the buckets not seen for a window go |
| Limiter.NewLimiter | pkg/ratelimit/ratelimit.go:76-86 | no limiter for a disabled limit |
| Limiter.Drive | pkg/ratelimit/ratelimit.go:88-117 | the object answers one key alike whatever the others do |
| Limiter.BurstMeasuresLevel | pkg/ratelimit/ratelimit.go:63-65 | the n-th of n calls in one instant passes exactly when the bucket holds n events |
| Limiter.SweepDropsExactly | pkg/ratelimit/ratelimit.go:104-117 | a sweep drops a key exactly when its last call, passed or refused, was seen at least a window ago |
| LimiterSweeps.ExcessCovers | pkg/ratelimit/ratelimit.go:100-113 | what a bucket may lack when a sweep may drop it: nothing within the tolerance, at most the excess of the gap beyond |
| LimiterSweeps.ToleratedDropsAreFull | pkg/ratelimit/ratelimit.go:104-117 | within the tolerance every dropped bucket is full |
| LimiterSweeps.LateDropsAreFull | pkg/ratelimit/ratelimit.go:104-117 | for any gap, a sweep that waits that much longer than the window drops only full buckets |
| LimiterSweeps.RunKeepsRel | pkg/ratelimit/ratelimit.go:88-117 | a run that drops only full buckets answers as the same calls without any sweep |
| LimiterSweeps.EarlyDropShows | pkg/ratelimit/ratelimit.go:104-117 | dropping a bucket that is not full can be noticed |
| LimiterSweeps.SweepsAreInvisibleExactly | pkg/ratelimit/ratelimit.go:104-117 | sweeps never change an answer, in any run, exactly when the two clock readings of a call are within the tolerance |
| LimiterSweeps.NeverDry | pkg/ratelimit/ratelimit.go:97-97 | a window shorter than its event count limits nothing |
| LimiterSweeps.BurstPassesExactly | pkg/ratelimit/ratelimit.go:88-97 | of the calls a new key makes at one instant exactly the first events pass |
| LimiterSweeps.RefillPassesExactly | pkg/ratelimit/ratelimit.go:88-97 | the next passes exactly when the window divided by the events has gone by |
| LimiterRate.RunIsSolvent | pkg/ratelimit/ratelimit.go:63-65 | what has passed was in the bucket, has been earned, or was given away by a drop |
| LimiterRate.DropsAreRare | pkg/ratelimit/ratelimit.go:104-117 | a span holds at most one drop of a key and one more per window |
| LimiterRate.RateForAnyGap | pkg/ratelimit/ratelimit.go:88-117 | whatever the gap: the burst, what the span earns, and the excess for each drop |
| LimiterRate.ExcessIsSmall | pkg/ratelimit/ratelimit.go:100-113 | a drop gives away no more than the gap between the readings reaches beyond the unused part of the window |
| LimiterRate.RateIsBounded | pkg/ratelimit/ratelimit.go:63-65 | any span lets at most the burst plus one call per interval through, in every run that drops only full buckets |
| LimiterRate.RateHoldsExactly | pkg/ratelimit/ratelimit.go:88-117 | that rate is kept in every run exactly when the two clock readings of a call are within the tolerance |
| Resolver.Resolver.constructor | pkg/cimd/resolver.go:73-91 | lifetimes of zero or less become the defaults |
| Resolver.Resolver.Lookup | pkg/cimd/resolver.go:118-123 | a hit is an entry before its expiry |
| Resolver.Resolver.Purge | pkg/cimd/resolver.go:147-151 | exactly the expired entries go |
| Resolver.Resolver.Evict | pkg/cimd/resolver.go:152-157 | the loop ends with room for one entry and takes no more than that needs |
| Resolver.Resolver.Store | pkg/cimd/resolver.go:142-160 | replace, insert, purge or evict: live entries are given up only when a full cache forces it |
| Resolver.Resolver.Resolve | pkg/cimd/resolver.go:117-136 | a caller on its own gets the cached answer or the fetched one, which is then stored with its lifetime |
| Resolver.StoredIsBounded | pkg/cimd/resolver.go:142-160 | a store keeps the bound and invents no entry |
| Resolver.LiveEntriesAreKept | pkg/cimd/resolver.go:142-160 | a live entry is lost only to a new ID in a cache full of live entries, and then one is lost |
| Resolver.NextKeepsInv | pkg/cimd/resolver.go:117-160 | every interleaved step keeps the bound and every entry's provenance |
| Resolver.ServedIsFresh | pkg/cimd/resolver.go:117-160 | in every interleaving an answer from the cache is that of a fetch for the same ID over less than its lifetime ago, and the cache holds at most 4096 entries |
| Resolver.AnswersUntilExpiry | pkg/cimd/resolver.go:142-160 | while live entries fit, an entry answers until it expires or is stored anew |
| Resolver.FetchedAnswers | pkg/cimd/resolver.go:126-160 | what a fetch brought and its caller stored answers for the lifetime of a document or of an error, while live entries fit |
| Transport.Body.ReadAll | pkg/backend/transparent.go:110-113 | reads to the limit, the end or an error, and what is read is gone from the body |
| Transport.Backend.RoundTrip | pkg/backend/transparent.go:117-124 | a request sends what its body still holds and leaves it empty |
| Transport.RedirectFollowingTransport.RoundTrip | pkg/backend/transparent.go:104-170 | unreadable body: nothing sent; over 4 MiB: sent once, whole, no redirect followed; otherwise the exchange the rules determine |
| Transport.ExchangeIsDetermined | pkg/backend/transparent.go:123-169 | against any backend there is one exchange of at most eleven requests, ended by the first response that may not be followed |
| Transport.EveryHopStaysHome | pkg/backend/transparent.go:147-166 | every hop has the client's method, headers and body bytes, and after the first goes to the target host or names none |
| Transport.EveryHopIsAsked | pkg/backend/transparent.go:129-147 | each request after the first is owed to a 307 or 308 whose Location resolves to it |
| Transport.LastAnswerIsReturned | pkg/backend/transparent.go:123-169 | the last answer is returned as it came; a 307 or 308 only without a Location, with one that cannot be resolved, or with a foreign host |
| Transport.RedirectErrorExactly | pkg/backend/transparent.go:169-169 | the redirect error is exactly eleven followable redirects in a row |
| AllowLists.SplitWithEscapes | parse.go:22-57 | the byte loop with its escape state reads what the recursive reading means, for any delimiter |
| AllowLists.SpacesAre | parse.go:46-56 | what counts as white space, by code point |
| AllowLists.TrimCuts | parse.go:46-56 | trimming takes white space off both ends and nothing else |
| AllowLists.EntryIsRead | parse.go:31-52 | an escaped entry is read back, or its final backslash swallows the separator |
| AllowLists.PrintedIsReadGlued | parse.go:22-57 | what comes back for every printed list: entries glued where one ends in a backslash, and trimmed |
| AllowLists.EveryTextIsPrinted | parse.go:22-57 | every text is what some entries print, so the rule above reads any text |
| AllowLists.GluedExactly | parse.go:35-43 | nothing is glued exactly when no entry but the last ends in a backslash |
| AllowLists.RoundTripExactly | parse.go:22-57 | printing and splitting give a list back exactly when it is empty, or not one blank entry, with trimmed entries of which only the last may end in a backslash |
| AllowLists.ParseAllowList | parse.go:111-128 | all entries that are not blank, in order; a setting without any is an error |
| AllowLists.NonBlankAre | parse.go:111-128 | the entries kept are those that are not blank, trimmed, in their order |
| AllowLists.NoRuleIsLost | parse.go:134-160 | the lists of the map hold one value for every rule written |
| AllowLists.GroupedAre | parse.go:139-155 | the list of a key holds the values of its rules in the order written |
| AllowLists.EveryEntryIsRead | parse.go:139-155 | a rule for each entry in order, or the error of the first entry that is none |
| AllowLists.ReadRuleExactly | parse.go:144-153 | which entries are rules, and the error of each that is none |
| AllowLists.ParseAttributeMap | parse.go:130-160 | an error, or a non-empty map whose lists hold exactly the non-blank entries |
| AllowLists.FirstErrorStands | parse.go:146-153 | an entry that is no rule fails the setting whatever follows |
| AllowLists.ReadRuleIsWritable | parse.go:144-153 | a rule that was read has a pointer key without an equals sign and a value, both trimmed |
| AllowLists.SettingRoundTripExactly | parse.go:130-160 | writing rules as a setting and parsing it gives the same rules exactly when each rule is writable and only the last may end in a backslash |

## Left out

- Backends.RunBoth: leaves out the session sweep, which the tables do by creation time and the bucket by request time, the user, passkey and schema calls, `RevokeClient` with an empty ID, and stores with records that do not decode; two lists may differ where `TableOrder.TablesAgree` fails, and nowhere else.
- KeyManager.Manager.Start: a start-up whose reads or stat calls fail for a passing reason is not modelled; that start-up fails and changes nothing.
- KeyDirectory.KeyDir.WriteTmp: a power failure that loses completed writes is not modelled, only the death of the process.
- SqlStore.SqlRepository.ListClientGrants: the three table reads, and the reads and deletes of the client sweep, are taken as one step each, as the single connection of the backend nearly makes them.
- SqlStore.SqlRepository.Upsert: the tables are one map from table and primary key to row; gorm, SQL types and the unused access-signature column are not modelled.
- Inventory.Aggregator.AddToken: accumulators and grants are values put back into their map, where the code keeps pointers to them; the Scopes field of a grant is never filled by the code and is omitted.
- Transport.Backend.RoundTrip: the backend reads every request body to its end, and a body error comes in a read of its own.
- Resolver.Resolver.Resolve: what a fetch does (URL rules, address checks, size limit, document rules) is one arbitrary answer.
- Limiter.Limiter.Allow: the rate library's floating-point tokens are exact nanosecond credit here.
- AllowLists.SplitWithEscapes: strings are sequences of Unicode characters, so invalid UTF-8 is not modelled; an empty delimiter, on which the loop does not end, is excluded.
- Parsing of rate expressions, plain comma lists, header mappings and the names of settings in errors: easy members.
- JSON encoding, bbolt and gorm internals: values decode or do not, and a transaction is one step.
- fosite's flows and token cryptography: steps that mint records, and signatures that are valid for the signing key alone.
- Restoring fosite sessions, user and passkey records, schema versions beyond surviving a revoke.
- Two processes sharing one key directory, which the repository does not support.
- HTTP handlers, templates, browser sessions, passkey ceremonies, TLS, flags, logging, and the stdio backend.
