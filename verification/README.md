# Verified model of CloudBin

CloudBin stores objects in several copies behind HTTP services. This project models its decision
logic in Dafny and proves properties of it over all inputs, all runs and all interleavings.

| file | what it models |
|---|---|
| `GoStrings.dfy`, `Outcomes.dfy` | the parts of Go's `strings` package the services rely on; what calls to SQL and Redis come to |
| `ObjectPaths.dfy` | object keys to files: `storagePath` in object-api, `pathFor` in storage-node |
| `HashRing.dfy`, `RingPoints.dfy`, `RingProperties.dfy` | the consistent-hash ring and its specification; which strings its points come from and which two nodes a key gets; what changes when the node list does |
| `ObjectTable.dfy`, `AccessHistory.dfy` | the metadata table, and public access told from the history of its statements |
| `ObjectService.dfy` | `Upload`, `Download`, `DownloadPublic` and `Delete`, with an outcome parameter for every node call and statement |
| `StoreMachine.dfy`, `StoreRefinement.dfy` | the same operations as a machine of single steps that interleave; the methods as runs of it |
| `StoreHistory.dfy` | who may read an object after a run, told from the run's events |
| `StoreExactness.dfy`, `StoreIntegrity.dfy`, `StoreDownloads.dfy` | which copies exist after which runs, when they agree with their row, and what downloads then stream |
| `Configuration.dfy` | the node list and what it means for downloads |
| `RateLimiter.dfy`, `RateLimitTraces.dfy` | the two rate-limit backends and their traces |
| `RateLimitRequests.dfy`, `RateLimitFaults.dfy`, `RateLimitAgreement.dfy` | requests that make two checks each, interleaved; Redis calls that fail, and when the backends still agree |
| `ShareLinks.dfy` | temporary share links in Redis or in memory |
| `Credentials.dfy`, `CredentialHistory.dfy`, `ResetTokens.dfy` | registration, password reset and login, step by step and interleaved; how often a reset token works |
| `Revocation.dfy` | session tokens, their rows and their revocation keys |

## How it is modelled

Objects whose fields the services update are classes (`HashRing`, `Service`, `Table`,
`FixedWindowLimiter`, `RedisCounters`, `ShareService`, the two `AuthService`s). Each method is tied
to a function of the old state, and the theorems are about those functions. Clocks, fresh
identifiers, the hash, the digest, lower-casing and the outcome of every call to a node, to SQL or
to Redis are parameters: a call succeeds, fails, or takes effect without saying so, as the theorem's
"for all" decides. A put that fails may leave the file as it was or with any bytes in it.

- **Ring.** The 64-bit hash is an arbitrary function, so colliding points are included.
- **Store machine.** Each node call and each statement is one event. Events of different keys
  interleave freely; each key has at most one mutation in flight, because the code takes no lock.
  An event that is not possible changes nothing, so every event sequence is a run. Keys are
  canonical: a trimmed owner without slash that is not `.` and does not start with `..`, and a
  trimmed key whose slash-separated parts are neither empty nor `.` nor `..`.
- **Directories.** A path without a file may be a directory, which another object's file lies or lay
  below. `Store.Get` opens it as it opens a file, and the node then answers with a success and an empty
  body, because the status is sent before the read fails (`storage-node/internal/server/server.go:53-55`).
  Every get takes the node's reply as a parameter: silent, or answering with or without a directory
  there. Over runs the replies are those the puts of the run allow.
- **Redis lifetimes.** A key set at t to live for d is present at exactly the instants of [t, t + d).
  `Revocation` also covers a client that rounds d down, by the parameter `tick`.
- **Credentials.** Password hashing is ideal: a digest matches one password. A code may be saved at
  any time for any email, which covers every order of the checks before it. No code of the service
  deletes or deactivates a user.

## Where the code and its documentation part

- `object-api/README.md:8` says hash-and-modulo placement. The code uses the ring; the other branch
  of `placement` is never taken because `New` always builds a ring.
- `Readme.md:41` says a failed upload is rolled back on the nodes that succeeded, so that partial
  writes are not left behind. The code deletes from every target and ignores the answers.
  `FailedUploadLeavesNothingIff` says exactly when nothing is left. The rollback of an overwrite also
  destroys the object that was there before, and keeps its row: `FailedOverwriteLosesObjectIff` says
  exactly when a later download is refused, and `FailedOverwriteServesLeftover` that a lost rollback
  delete serves what a broken put left under the old row. An overwrite whose metadata statement is
  lost leaves the new bytes under the old row (`LostStatementMismatches`). The recorded copies agree
  with the row's etag whenever the key is idle exactly when the key's rollback deletes and statements
  were carried out, or made no difference (`RecordedCopiesMatchIff`).
- What a download streams need not be an object at all. An object whose copy is gone but whose row is
  there, and below which another object was put, is answered with its row and no bytes
  (`DirectoryServedAsObject`). `DownloadsMatchIff` gives the exact condition under which every download
  streams bytes with its row's etag.
- `Delete` removes the two recorded copies, while `Upload` writes as many as the replication factor.
  `CorrespondenceIff` shows that files and rows correspond exactly when the factor or the number of
  nodes on the ring is at most two; `object-api/README.md:19` does say that the factor is expected to
  be 2.
- A key with a leading slash has its own row but shares the file of the key without it
  (`LeadingSlashSharesFile`). A first component that merely starts with `..`, such as `..a`, is refused.
- The two limiter backends agree exactly when every limit is positive (`BackendsAgreeIff`). Over the
  requests of any set of users at any addresses they agree exactly when no user bucket is also an
  address bucket, of the same requester or of two (`SharedBucketIff`). A user whose name is the address
  makes them part at the request after half the limit (`SharedBucketParts`); a user whose name is
  another's address, at the check that uses up the limit (`CrossedBucketsPart`).
- Once a counter that lost its EXPIRE is past the limit, every call on it whose INCR is answered is
  refused, and one whose INCR fails is let through (`LostExpireBlocks`). After any trace of failing
  calls the backends agree from then on exactly when their counters match (`AgreementIff`); when only
  EXPIREs were lost, exactly when none was lost after an INCR that made its key (`LostExpireIff`).
- `New` counts list entries, which does not mean that anything can be placed: an upload succeeds in
  some run exactly when two points of the ring have different owners (`SomeUploadSucceedsIff`).
- A share token opens an object at its very expiry from memory, but no longer from Redis (`StoresAgreeIff`).
- A registration token creates at most one user whatever fails. A reset token has no such limit: a
  reset takes effect exactly when its check came before every deletion of the code that took effect
  (`ResetTakesEffectIff`), so requests that check before any of them deletes all reset, even when the
  deletion works (`TwoChecksBeforeDropBothReset`).
- A verification whose statement took effect decides later logins even when its caller was told
  that it failed (`LoginIsLatestVerification`).
- When the answer of the revoking statement or the SET is lost, the token stays good until it
  expires, and calling `DeleteToken` again does not help; a revoked token is also let through whenever
  the lookup in Redis fails, and from the end of the revocation key's lifetime
  (`RevokedTokenAcceptedIff`). That end is never before the token's own expiry when the lifetime is
  sent as computed (`RevocationLeavesNoGap`), but it can be when the client rounds it down to
  milliseconds, as go-redis does (`MillisecondClientLeavesGap`).

## Model

| member | source | states |
|---|---|---|
| GoStrings.JoinSplit | storage-node/internal/storage/store.go:73 | splitting a path at its separator and joining the parts gives the path back |
| GoStrings.SplitJoin | storage-node/internal/storage/store.go:73 | joining separator-free parts and splitting gives the parts back |
| GoStrings.TrimSpaceCutsSpaces | storage-node/internal/storage/store.go:68 | trimming takes nothing but spaces off the two ends and leaves no space there |
| GoStrings.IsSpaceIff | storage-node/internal/storage/store.go:68 | the characters trimmed are those of Unicode's White_Space property, by code point |
| GoStrings.PrefixTrimmed | storage-node/internal/storage/store.go:74 | a prefix is what something can follow; taking it off gives that back, and a string without it stays |
| ObjectPaths.CleanRules | storage-node/internal/storage/store.go:73 | cleaning, anywhere in a path: an empty or `.` component goes, a component and a `..` after it go together, a `..` at the root goes, and nothing else does |
| ObjectPaths.RelJoinsToTarget | storage-node/internal/storage/store.go:85-88 | the relative path joined to the base cleans to the target, for every two absolute paths |
| ObjectPaths.PathForDecides | storage-node/internal/storage/store.go:67-91 | for every key: accepted exactly when its cleaned components are non-empty and the first does not start with `..`; the file is the root followed by them; the later relative-path check never rejects |
| ObjectPaths.AcceptedPathStaysInside | storage-node/internal/storage/store.go:84-90 | an accepted path is the root plus one or more components, none empty, `.` or `..` |
| ObjectPaths.SharedFileIff | storage-node/internal/storage/store.go:67-91 | two accepted keys open one file if and only if their trimmed, cleaned component lists are equal |
| ObjectPaths.NoRootNoPath | storage-node/internal/storage/store.go:79-82 | when the root cannot be made absolute no key is accepted, and the earlier refusals are as before |
| ObjectPaths.StoragePathTrims | object-api/internal/object/service/service.go:502-506 | both parts are trimmed; without a leading slash the path is owner, slash and key |
| ObjectPaths.CanonicalStoragePath | object-api/internal/object/service/service.go:502-506 | the storage path of a canonical object cleans to its owner followed by its key's parts |
| ObjectPaths.CanonicalFile | object-api/internal/object/service/service.go:502-506 | end to end, a canonical object is accepted and lies at root/owner/key |
| ObjectPaths.CanonicalFilesDistinct | storage-node/internal/storage/store.go:67-91 | end to end, two canonical objects never share a file |
| ObjectPaths.CanonicalPath | storage-node/internal/storage/store.go:84-90 | the file of a canonical object, spelt out: the root, its owner and its key |
| ObjectPaths.LiesBelowIff | storage-node/internal/storage/store.go:32 | one canonical object's file lies below another's path if and only if it has the same owner and its key goes on after a slash |
| ObjectPaths.LeadingSlashSharesFile | object-api/internal/object/service/service.go:504 | outside canonical keys two metadata keys do share a file: one with a leading slash |
| HashRing.HashRing.constructor | object-api/internal/object/service/service.go:52-72 | the map and the sorted slice are those of the writes in order, 50 per node unless the argument is positive |
| HashRing.HashRing.GetNodes | object-api/internal/object/service/service.go:74-105 | search and cyclic walk return the first distinct owners at or after the key's hash, then those before it |
| HashRing.HashRing.Search | object-api/internal/object/service/service.go:84-86 | the binary search finds the least index at or after the target |
| HashRing.HashRing.Collect | object-api/internal/object/service/service.go:92-104 | the loop with its seen-set returns the first distinct owners of the walk, no index out of range |
| HashRing.WalkIsRotation | object-api/internal/object/service/service.go:84-95 | points at or after the target then those before it are a rotation of the sorted slice at the cut |
| HashRing.RotationOwner | object-api/internal/object/service/service.go:92-95 | indexing modulo the ring size meets the owners in walk order |
| HashRing.DistinctOnce | object-api/internal/object/service/service.go:96-100 | skipping nodes already seen keeps every owner and repeats none |
| HashRing.RingShape | object-api/internal/object/service/service.go:57-70 | the slice is sorted, has nodes times replicas entries, and is the map's domain |
| HashRing.SortPermutes | object-api/internal/object/service/service.go:67-69 | sorting keeps every point as often as it was written |
| HashRing.SortedUnique | object-api/internal/object/service/service.go:67-69 | there is only one sorted arrangement, so the sort used does not matter |
| HashRing.OwnerMapPoints | object-api/internal/object/service/service.go:60-66 | exactly the written points have an owner |
| RingPoints.DecimalReads | object-api/internal/object/service/service.go:62 | the index is written in base ten, without leading zeros |
| RingPoints.VirtualKeyReads | object-api/internal/object/service/service.go:62 | the text before the last `#` of a virtual key is the node, and the text after it reads as the index |
| RingPoints.VirtualKeysDiffer | object-api/internal/object/service/service.go:62 | no two nodes or indices share a virtual key |
| RingPoints.OwnsItsPoints | object-api/internal/object/service/service.go:60-66 | when the hash keeps virtual keys apart, a node owns exactly the points of its own |
| RingPoints.EqualShares | object-api/internal/object/service/service.go:60-66 | and every listed node owns exactly as many points as it has virtual keys, however often it is listed |
| RingPoints.PlacementIsNextOnRing | object-api/internal/object/service/service.go:74-105 | for any hash, the first node placed owns the first point at or after the key's hash, cyclically, and the second is the owner of the first point met that is not the first node's |
| RingProperties.PreferenceNodes | object-api/internal/object/service/service.go:74-105 | a preference list holds configured nodes only, each once, and is never longer than the node list |
| RingProperties.PreferenceHoldsAllOwners | object-api/internal/object/service/service.go:88-104 | every key's preference list holds exactly the nodes that own a point, so all are equally long |
| RingProperties.PlacementLength | object-api/internal/object/service/service.go:74-105 | every key gets the count asked for or as many nodes as own a point, whichever is less |
| RingProperties.TwoNodesIff | object-api/internal/object/service/service.go:155-158 | a count of two or more is met with two nodes exactly when two points have different owners |
| RingProperties.PrimaryIsFirstOwner | object-api/internal/object/service/service.go:84-103 | with a node and a positive count there is a primary: the owner of the first point met |
| RingProperties.PrimaryMovesOnlyToNewNode | object-api/internal/object/service/service.go:52-105 | inserting a node anywhere moves any key's primary only to that node, even under collisions |
| RingProperties.InsertedOwners | object-api/internal/object/service/service.go:60-66 | after an insertion a point keeps its owner or goes to the new node |
| RingProperties.WalkInsert | object-api/internal/object/service/service.go:67-95 | a new point enters every walk once, next to its equals |
| RingProperties.OthersKeepOrder | object-api/internal/object/service/service.go:52-105 | if no existing point changes hands, the other nodes keep their preference order |
| RingProperties.FreshPointsTakeNone | object-api/internal/object/service/service.go:60-66 | a node whose points collide with nobody's takes no existing point |
| RingProperties.AtMostOneDisplaced | object-api/internal/object/service/service.go:74-105 | then the new placement without the new node is a prefix of the old one and at most one shorter |
| RingProperties.OrderIrrelevant | object-api/internal/object/service/service.go:52-105 | when no two distinct nodes share a point, permuting the node list changes no placement |
| RingProperties.SharedPointFollowsOrder | object-api/internal/object/service/service.go:64 | in any list, two nodes that share a point make some permutation place some key differently, because the later write wins |
| RingProperties.OrderIrrelevantIff | object-api/internal/object/service/service.go:52-105 | for every hash and list, some permutation places some key differently if and only if two of its nodes share a point |
| ObjectTable.Table.UpsertObject | object-api/internal/object/repository/postgres.go:25-58 | insert as private-read, or overwrite keeping permission and un-hiding; refused when both placement columns are equal |
| ObjectTable.Table.HideByOwnerAndKey | object-api/internal/object/repository/postgres.go:88-111 | hides the one row, also when the audit insert then fails |
| ObjectTable.Table.DeleteByOwnerAndKey | object-api/internal/object/repository/postgres.go:113-122 | removes the one row and reports whether it was there |
| ObjectTable.Table.SetPermissionByOwnerAndKey | object-api/internal/object/repository/postgres.go:230-240 | sets the one row's permission and reports whether it was there |
| AccessHistory.RowIsHistory | object-api/internal/object/repository/postgres.go:25-122 | at every time existence, visibility and public permission of a row are what the history says |
| AccessHistory.PublicAccessEqualsHistory | object-api/internal/object/service/service.go:329-340 | the public gate opens if and only if the row exists, no hide follows its last upsert and its last permission change is public-read |
| AccessHistory.OverwriteShowsAgain | object-api/internal/object/repository/postgres.go:31-41 | after an overwrite the gate depends on the permission history alone |
| AccessHistory.ReuploadIsPrivate | object-api/internal/object/repository/postgres.go:25-122 | after a removal the gate stays closed, whatever follows, until an existing row is permitted public reading |
| ObjectService.New | object-api/internal/object/service/service.go:124-144 | refuses fewer than two nodes; raises a factor below two to two and lowers one above their number to it |
| ObjectService.TargetsDiffer | object-api/internal/object/service/service.go:440-444 | targets are configured nodes, each once |
| ObjectService.OrderIrrelevantToPuts | object-api/internal/object/service/service.go:163-174 | what the puts leave does not depend on the order of the goroutines |
| ObjectService.FailureIsReported | object-api/internal/object/service/service.go:176-182 | an error is counted if and only if some put failed |
| ObjectService.Service.PutToNode | object-api/internal/object/service/service.go:452-468 | one file is written, left alone or spoilt; success means the data is there |
| ObjectService.Service.DeleteFromNode | object-api/internal/object/service/service.go:486-500 | one file is gone or nothing changed |
| ObjectService.Service.PutAll | object-api/internal/object/service/service.go:163-181 | in any schedule every target holds its own put's outcome and no other file changes |
| ObjectService.Service.CountErrors | object-api/internal/object/service/service.go:176-181 | the count is positive if and only if some result is an error |
| ObjectService.Service.RollBack | object-api/internal/object/service/service.go:182-186 | every target whose delete works is cleared, the others keep what they held, no other file changes |
| ObjectService.Service.Upload | object-api/internal/object/service/service.go:146-193 | error, files and row for every schedule and every pattern of failures |
| ObjectService.Service.Download | object-api/internal/object/service/service.go:195-213 | the primary's answer, else the replica's, a directory's empty body included, with every error |
| ObjectService.Service.DownloadPublic | object-api/internal/object/service/service.go:329-350 | the same behind the gate: forbidden if and only if it is closed |
| ObjectService.Service.Delete | object-api/internal/object/service/service.go:215-240 | clears the two recorded copies as far as the nodes obey, then the row |
| ObjectService.UploadNilStores | object-api/internal/object/service/service.go:146-193 | nil means that the row has the data's size and etag and the content type or its default, an overwrite keeps the permission, and every target holds exactly the data |
| ObjectService.UploadNilFollowsRing | object-api/internal/object/service/service.go:146-193 | and the row's nodes are the next two different ones on the ring of 50 points a node, from the hash of the trimmed owner, a slash and the trimmed key without a leading slash |
| ObjectService.UploadErrorIs | object-api/internal/object/service/service.go:176-193 | a write failure if and only if some put failed; the table's error if and only if none did and the statement was not answered |
| ObjectService.FailedUploadLeavesNothingIff | object-api/internal/object/service/service.go:182-192 | an upload that failed leaves no file exactly when a put failed and each target was cleared or empty |
| ObjectService.FailedOverwriteLosesObjectIff | object-api/internal/object/service/service.go:182-187 | after an overwrite with a failed put the row is as it was, and a download is refused exactly when each recorded node is silent, or was left without the file and has no directory there |
| ObjectService.FailedOverwriteServesLeftover | object-api/internal/object/service/service.go:183-185 | when the primary's put broke and its rollback delete was lost, the old row streams what the put left |
| StoreMachine.CanonicalHasFile | object-api/internal/object/service/service.go:452-453 | each canonical object has its file on each node |
| StoreMachine.FileSpelt | storage-node/internal/storage/store.go:84-90 | it is the node's own root, the owner's directory and the key |
| StoreMachine.FilesApart | object-api/internal/object/service/service.go:502-506 | different objects or nodes have different files |
| StoreMachine.CopyAfterStep | object-api/internal/object/service/service.go:146-240 | a step changes copies of its own key only, and only as that step does |
| StoreMachine.KeyInvStep | object-api/internal/object/service/service.go:146-240 | each single step keeps the key's invariant |
| StoreMachine.RunsKeepInv | object-api/internal/object/service/service.go:146-240 | every run keeps it for every key |
| StoreMachine.RowFollowsRing | object-api/internal/object/service/service.go:440-444 | over every run, the primary of a row owns the first point at or after the hash of owner, slash and key, cyclically, and the replica is the next different owner |
| StoreMachine.PutReturnsOnce | object-api/internal/object/service/service.go:163-174 | over every run, the put to a target returns once in an upload: not again before the next upload begins |
| StoreMachine.PlacementCheckNeverFires | migrations/object/000001_init.up.sql:29 | the CHECK on the placement columns refuses no row of any run |
| StoreMachine.AcknowledgedUploadIsDurable | object-api/internal/object/service/service.go:146-193 | in every run, if a key's last finished mutation is an upload that returned nil, its row describes the data and all targets, both recorded nodes among them, hold exactly it |
| StoreMachine.ReturnStays | object-api/internal/object/service/service.go:146-240 | what other keys do, and hides and permission changes, do not disturb that |
| StoreMachine.AcknowledgedStays | object-api/internal/object/service/service.go:146-240 | the acknowledged bytes stay on both recorded nodes until the key's next mutation |
| StoreMachine.DownloadReturnsUpload | object-api/internal/object/service/service.go:195-213 | a download spread over a run returns the acknowledged bytes whenever either node answers, and an error otherwise |
| StoreMachine.RowNamesNodes | object-api/internal/object/service/service.go:155-160 | every row of every run names two different nodes with non-empty names |
| StoreMachine.NoEmptySuccess | object-api/internal/object/service/service.go:195-213 | no download of any run reports success without a stream |
| StoreHistory.RowsAreHistory | object-api/internal/object/service/service.go:146-325 | over every run of the machine, a key's row is what the run's statements leave in the table |
| StoreHistory.PublicAfterRunIff | object-api/internal/object/service/service.go:329-343 | over every run, an object is there if and only if it was uploaded and not deleted since; visible if and only if it was not hidden since either; and public if and only if, besides, it was last permitted public reading, while it was stored |
| StoreRefinement.FromAfter | object-api/internal/object/service/service.go:146-240 | a run continued from a reachable state is a run |
| StoreRefinement.AllPutsReturned | object-api/internal/object/service/service.go:163-182 | the machine's put steps, in any schedule, leave the files the method's puts leave and take the same branch |
| StoreRefinement.UploadIsARun | object-api/internal/object/service/service.go:146-193 | the upload method's contract is what a run of the machine's upload steps does, for every schedule and failure |
| StoreRefinement.UndisturbedUploadSucceeds | object-api/internal/object/service/service.go:163-193 | from any state in which the key is idle, in any schedule, when all puts and the statement work the upload returns nil, the row describes it and every target holds it |
| StoreRefinement.GoodUploadAfterRun | object-api/internal/object/service/service.go:163-193 | so every run that leaves the key idle can go on with an acknowledged upload |
| StoreRefinement.DeleteIsARun | object-api/internal/object/service/service.go:215-240 | the same for delete |
| StoreExactness.CleanRunsKeepExact | object-api/internal/object/service/service.go:146-240 | over clean runs every key's copies are, at each point of each operation, exactly those expected |
| StoreExactness.IdleKeysCorrespond | object-api/internal/object/service/service.go:146-240 | with at most two targets an idle key's holders are its targets if it has a row, and nobody otherwise |
| StoreExactness.FilesAreOwned | object-api/internal/object/service/service.go:452-468 | every file of every run belongs to a canonical object |
| StoreExactness.ExactCorrespondence | object-api/internal/object/service/service.go:146-240 | factor 2, clean run, nothing in flight: the files are exactly those of the rows on their targets |
| StoreExactness.ThirdCopyStays | object-api/internal/object/service/service.go:224-230 | with a third target a clean upload and delete leave a copy without a row |
| StoreExactness.TargetCount | object-api/internal/object/service/service.go:440-444 | every key has as many targets: the factor, or the number of nodes that own a point |
| StoreExactness.CorrespondenceIff | object-api/internal/object/service/service.go:440-444 | the correspondence holds over all clean runs if and only if the factor or the number of ring owners is at most two |
| StoreIntegrity.TidyRunsKeepMatch | object-api/internal/object/service/service.go:146-240 | over runs in which the key's rollback deletes and statements are carried out, or make no difference, its copies agree with its row's etag wherever a finished step left them |
| StoreIntegrity.RecordedCopiesMatchIff | object-api/internal/object/service/service.go:182-192 | over any run that leaves the key idle, both recorded nodes hold nothing or bytes with the row's etag at every idle moment if and only if all the key's own events were so |
| StoreIntegrity.UntidyIsSeen | object-api/internal/object/service/service.go:182-192 | a mismatch that a lost rollback delete or statement left is there when the key is idle again |
| StoreDownloads.LyingBelowWasPut | storage-node/internal/storage/store.go:32-35 | over every run, only a put of an object that extends the key, on that node, puts a file below its path |
| StoreDownloads.DownloadsMatchEtag | object-api/internal/object/service/service.go:195-213 | after such a run, a download spread over a run streams bytes with the etag of the row it returns, or the empty body of a directory that a put below the object made |
| StoreDownloads.DownloadsMatchIff | storage-node/internal/server/server.go:42-55 | every download at every idle moment streams bytes with its row's etag if and only if the key's events were so and no recorded node without the file could have a directory there, unless the row is that of the empty object |
| StoreDownloads.DirectoryServedAsObject | storage-node/internal/storage/store.go:43-53 | an object that was cleared but for its row, with another put below it, is streamed as its row with no bytes, although its own events were all tidy |
| StoreIntegrity.LostStatementMismatches | object-api/internal/object/service/service.go:189-192 | without that, an overwrite whose statement is lost leaves other bytes than the row's on every target |
| Configuration.ParseNodeList | object-api/internal/config/config.go:39-53 | blank entries skipped, the others trimmed and given a scheme |
| Configuration.ParsedNodesNamed | object-api/internal/config/config.go:39-53 | no parsed node is empty |
| Configuration.ParsedNodeSpelt | object-api/internal/config/config.go:43-49 | an entry is skipped if and only if it is blank; one with a scheme is kept, another gets `http://` |
| Configuration.ParsedNodesHaveScheme | object-api/internal/config/config.go:39-53 | every parsed node has one of the two schemes |
| Configuration.ConfiguredDownloadsStream | object-api/internal/config/config.go:39-53 | for every configuration string, no download of any run reports success without a stream |
| Configuration.SomeUploadSucceedsIff | object-api/internal/object/service/service.go:125-158 | for every key, some run gives it a row exactly when two points of the ring have different owners |
| Configuration.RepeatedNodePlacesNothing | object-api/internal/object/service/service.go:125-133 | in particular one node listed repeatedly never gives a row |
| RateLimiter.FixedWindowLimiter.Allow | object-api/internal/object/handler/http.go:79-106 | decision and new counters; afterwards few entries or only young ones |
| RateLimiter.FixedWindowLimiter.Cleanup | object-api/internal/object/handler/http.go:85-91 | the loop keeps exactly the entries younger than two windows |
| RateLimiter.RedisCounters.AllowRedis | object-api/internal/object/handler/http.go:128-137 | INCR, then EXPIRE on the first; open on an INCR error |
| RateLimitTraces.CleanupInvisible | object-api/internal/object/handler/http.go:84-91 | on every trace over many buckets the sweep changes no decision |
| RateLimitTraces.AgreeStep | object-api/internal/object/handler/http.go:93-137 | one call keeps the backends related and takes the same decision in both |
| RateLimitTraces.BackendsAgree | object-api/internal/object/handler/http.go:79-137 | on every trace both backends decide every call alike |
| RateLimitTraces.BackendsAgreeIff | object-api/internal/object/handler/http.go:94-103 | they do so on all traces if and only if every limit is positive |
| RateLimitRequests.RunIsSourced | object-api/internal/object/handler/http.go:108-126 | the calls of interleaved requests are in order and on the requests' own buckets |
| RateLimitRequests.OneCheckEach | object-api/internal/object/handler/http.go:108-126 | in every run each request makes exactly one check of its user's bucket and at most one of its address's |
| RateLimitRequests.RequestsAgree | object-api/internal/object/handler/http.go:108-126 | over every interleaving of the requests' two checks both backends give every request the same verdict |
| RateLimitRequests.SharedBucketParts | object-api/internal/object/handler/http.go:119-125 | when the user's bucket is the address's, the backends agree for half the limit and part at the next request, for every positive limit |
| RateLimitRequests.CrossedBucketsPart | object-api/internal/object/handler/http.go:119-125 | one request from an address, then limit-many checks of a user of that name: Redis lets the last one pass and memory refuses it |
| RateLimitRequests.SharedBucketIff | object-api/internal/object/handler/http.go:119-125 | for any set of requesters and all positive limits, the backends agree on all their runs if and only if no user bucket of theirs is an address bucket of theirs |
| RateLimitRequests.SharedNameIff | object-api/internal/object/handler/http.go:119-125 | for one requester, if and only if the user's name is not the address |
| RateLimitFaults.LostExpireBlocks | object-api/internal/object/handler/http.go:128-137 | once a counter without expiry has used up its limit, over every continuation a call on it is refused if and only if its INCR is answered |
| RateLimitFaults.NoLossNoDifference | object-api/internal/object/handler/http.go:133-135 | EXPIREs lost after other INCRs than a key's first change nothing |
| RateLimitAgreement.MismatchShows | object-api/internal/object/handler/http.go:94-137 | two counters of one bucket that do not match are told apart by calls on it, at once or when the earlier one ends |
| RateLimitAgreement.AgreementIff | object-api/internal/object/handler/http.go:128-137 | after any trace, with any INCRs unanswered and EXPIREs lost, Redis decides like the memory on every continuation without faults if and only if, for each bucket called, the two counters match at the last call |
| RateLimitAgreement.LostExpireIff | object-api/internal/object/handler/http.go:128-137 | when every INCR was answered, if and only if no EXPIRE was lost after an INCR that made its key |
| RateLimitTraces.RateBound | object-api/internal/object/handler/http.go:79-106 | any half-open interval of length T admits at most max(1, limit) times (T over W rounded up, plus one) calls |
| RateLimitTraces.TwiceTheLimitPerWindow | object-api/internal/object/handler/http.go:79-106 | in particular twice a positive limit per window length |
| RateLimitTraces.RefusalIsDeserved | object-api/internal/object/handler/http.go:99-101 | a refused call has at least limit admitted calls in the window before it |
| ShareLinks.Lifetime | object-api/internal/object/service/service.go:353-358 | fifteen minutes unless a positive one is asked for, and never more than a day |
| ShareLinks.ShareService.CreateTemporaryShareLink | object-api/internal/object/service/service.go:352-390 | who gets a link, each error, and what is stored where under owner and trimmed key, a lost SET included |
| ShareLinks.ShareService.OpenShareToken | object-api/internal/object/service/service.go:392-426 | a token opens exactly while its link resolves and its row exists and is visible now; the condition of each error |
| ShareLinks.ResolvedWasIssued | object-api/internal/object/service/service.go:392-415 | a token resolves only to what a creation with that token named, for a row visible then, within a day |
| ShareLinks.OpenedWasLinked | object-api/internal/object/service/service.go:392-426 | over every run, what a token opens is the owner and the trimmed key that a creation with that token was given, at most a day before, for a row visible then and now |
| ShareLinks.LinkOpensObject | object-api/internal/object/service/service.go:352-426 | over every run, a link made and stored opens just that owner's object, at every instant before its expiry while the row is visible and the lookups answer |
| ShareLinks.LinkOfCreation | object-api/internal/object/service/service.go:376-387 | later creations leave a stored link as it is |
| ShareLinks.LostSetLeavesNothing | object-api/internal/object/service/service.go:382 | a lost SET never leaves a link in Redis |
| ShareLinks.StoresAgreeIff | object-api/internal/object/service/service.go:399-415 | at which instants exactly Redis and memory agree, for stored, late and lost links |
| Credentials.Find | auth-service/internal/auth/repository/postgres.go:46-53 | the row found is in the table and has that email |
| Credentials.AuthService.BeginRegistration | auth-service/internal/auth/service/service.go:82-127 | a code is saved for the normalised email of no user; the condition of each error |
| Credentials.AuthService.VerifyRegistrationOTP | auth-service/internal/auth/service/service.go:129-160 | the uninterrupted run of check, insert and drop; success if and only if the insert is reported; each error's condition; a failure leaves every code, a success removes this one unless the deletion fails |
| Credentials.AuthService.BeginForgotPassword | auth-service/internal/auth/service/service.go:162-202 | a code is saved for the normalised email of a user; the condition of each error |
| Credentials.AuthService.VerifyForgotPasswordOTP | auth-service/internal/auth/service/service.go:204-238 | the uninterrupted run of check, update and drop; success if and only if the update is reported; each error's condition; a failure leaves every code, a success removes this one unless the deletion fails |
| Credentials.AuthService.Login | auth-service/internal/auth/service/service.go:240-268 | accepted exactly on a verified, active row of the normalised email whose digest matches; the condition of each error |
| CredentialHistory.InsertedRows | auth-service/internal/auth/repository/postgres.go:33-44 | an insert adds one row and hides none |
| CredentialHistory.RepasswordedRows | auth-service/internal/auth/repository/postgres.go:55-64 | an update changes the digest of its rows only and no email |
| CredentialHistory.SomeRowAffected | auth-service/internal/auth/repository/postgres.go:55-64 | with unique emails rows are affected if and only if the row exists and is not deleted |
| CredentialHistory.RunsKeepEmail | auth-service/internal/auth/service/service.go:82-238 | over every interleaving the row of an email is what its last effective verification left |
| CredentialHistory.OneUserPerEmail | auth-service/internal/auth/repository/postgres.go:33-44 | over every interleaving an email has at most one user and is given one at most once |
| CredentialHistory.LoginIsLatestVerification | auth-service/internal/auth/service/service.go:240-257 | over every interleaving login accepts exactly the password of the last verification to take effect |
| CredentialHistory.RunsKeepTokens | auth-service/internal/auth/service/service.go:129-238 | codes, flows in flight and finished verifications all stem from what was issued |
| CredentialHistory.VerificationsAreGenuine | auth-service/internal/auth/service/service.go:129-226 | each verification that took effect presented, in time, the code issued for its email and purpose |
| CredentialHistory.TokenCreatesOneUser | auth-service/internal/auth/service/service.go:129-151 | no registration token creates two users, even when every deletion of a code fails |
| ResetTokens.DroppedStaysDropped | auth-service/internal/auth/otp/store.go:45-47 | a dropped code never comes back |
| ResetTokens.StoredIff | auth-service/internal/auth/otp/store.go:25-47 | over every interleaving a saved code is in the store, unchanged, exactly until the first drop that takes effect |
| ResetTokens.DropWasEarned | auth-service/internal/auth/service/service.go:144-151 | over every interleaving, a flow about to delete its code had its statement carried out and reported before |
| ResetTokens.GoneWasVerified | auth-service/internal/auth/service/service.go:129-238 | over every interleaving, a saved code leaves the store only by the deletion of a verification of that token that took effect and was reported |
| ResetTokens.WritesOnce | auth-service/internal/auth/service/service.go:129-238 | over every interleaving a verification sends its statement once, whatever became of it |
| ResetTokens.ResetsWereCheckedBeforeDrop | auth-service/internal/auth/service/service.go:209-236 | every reset in the log was written by a flow whose check passed before the first drop of its token that took effect |
| ResetTokens.ResetTakesEffectIff | auth-service/internal/auth/service/service.go:204-238 | a reset with the right code and a live row takes effect if and only if its check came before every drop that took effect, whatever happened in between |
| ResetTokens.TwoChecksBeforeDropBothReset | auth-service/internal/auth/service/service.go:209-236 | two requests that check before either drops both reset, although the drop works |
| ResetTokens.SecondResetIffDropLost | auth-service/internal/auth/service/service.go:228-237 | of two resets that do not overlap, the second works if and only if the deletion after the first was lost |
| Revocation.AuthService.IssueToken | auth-service/internal/auth/service/service.go:336-356 | claims in whole seconds, row in whole microseconds |
| Revocation.AuthService.DeleteToken | auth-service/internal/auth/service/service.go:296-323 | row and Redis key after every outcome of the statement and the SET; revoked only by its owner, and otherwise nothing changes |
| Revocation.AuthService.Authenticate | auth-service/internal/auth/handler/http.go:333-365 | accepted exactly while unexpired, well issued and not known revoked; open on a Redis error |
| Revocation.RunKeepsRow | auth-service/internal/auth/repository/postgres.go:113-127 | no run removes a token's row, undoes its revocation, or touches its key without revoking the row |
| Revocation.OwnedByIssue | auth-service/internal/auth/service/service.go:336-356 | over every run a row belongs to the user its token was issued to |
| Revocation.OthersRevokeNothing | auth-service/internal/auth/repository/postgres.go:113-127 | a call by anyone but the row's owner changes nothing |
| Revocation.RevokedByOwner | auth-service/internal/auth/repository/postgres.go:113-127 | over every run a row becomes revoked only by a call of its owner |
| Revocation.RevokeSetsKey | auth-service/internal/auth/service/service.go:314-320 | the revocation's key is set for the row's own token only |
| Revocation.KeyLifetime | auth-service/internal/auth/service/service.go:314-320 | the key lives as long as the row still has to, and a minute when that is over |
| Revocation.WholeTicks | auth-service/internal/auth/service/service.go:319 | a client that sends whole units sends the number of them in a positive lifetime, and at least one |
| Revocation.KeyOutlivesToken | auth-service/internal/auth/service/service.go:315-319 | a key that was set outlives the whole-second expiry, up to the client's rounding |
| Revocation.RevokedTokenAcceptedIff | auth-service/internal/auth/service/service.go:296-356 | over every run and at every instant from the SET on, a revoked token is accepted exactly while unexpired and there is no Redis, the answer or the SET was lost, the lookup fails, or the key's rounded lifetime is over |
| Revocation.RevocationLeavesNoGap | auth-service/internal/auth/service/service.go:314-320 | when lifetimes are not rounded, the key's lifetime is never the reason |
| Revocation.MillisecondClientLeavesGap | auth-service/internal/auth/service/service.go:315-319 | when they are rounded down to milliseconds, it can be over before the token expires |

## Left out

- HTTP handlers, JSON, status codes, proxying, request logging, server start and shutdown.
- The gateway's route tables, and URL escaping and mux path cleaning between the services; the machine uses canonical keys.
- SHA-256, FNV, bcrypt, JWT signing, UUID and code generation: parameters, an ideal digest, fresh identifiers.
- The width of the ring's points: the hash is an arbitrary function to integers, which covers all 64-bit ones.
- Node URLs that differ only in a trailing slash, which the code sends to one server and the model treats as two.
- Files in the way of another object's directory: covered only as puts that fail. When empty directories are removed is left open: a path may be a directory from the first put below it on.
- The Redis server's own clock, which counts milliseconds.
- Bytes of strings: text is a sequence of characters, and invalid UTF-8 is not modelled; minimum lengths count characters.
- Concurrent mutations of the same key, and puts that reach a node after the client gave up.
- Uploads refused for want of targets are in `ObjectService.Service.Upload` but are no step of the machine.
- The branch of `placement` without a ring, which `New` never leaves reachable.
- Audit rows, row identifiers, timestamps, and the list, count and paging functions: no modelled decision depends on them.
- `DownloadByShareToken` after the token is opened reads the two nodes as `Download` does and is not repeated.
- The separate `UserExistsByEmail` step of a registration as a point of interleaving: codes may be saved at any time instead.
- Users inserted by the seeding scripts; the histories start from empty tables.
- object-api's own token check, which does not consult the revocation keys.
- `CreateToken` and `ListTokens`: the first issues tokens as login does, the second only reads.
- Email sending, templates, environment loading, the migrations runner, Docker and shell scripts.
