# Moov, verified models

Moov is a mail server front end over Dovecot and Mailcow. This project models the parts of it that
carry state over unbounded runs, and proves what their comments and documentation promise, in Dafny
4.11. `dafny verify dfyconfig.toml` checks all of it.

- **Blob store** (`Blob*.dfy`). Reference rows, reference counts and zero stamps live in two tables,
  written by concurrent transactions that lock the blob row first. Every interleaving is a run of a
  transition system; the statements themselves are methods over the tables, each with its outcome row
  by row, and the sweeps are functions of what other writers do between their turns. Files are a
  second transition system in which the machine may stop at any point.
- **JMAP batch engine** (`Jmap*.dfy`). Sequential dispatch over arbitrary handlers, capability gating,
  result references with the extended JSON Pointer of section 3.7 of RFC 8620, and creation ids.
- **Conditional STORE** (`ImapStore.dfy`). Which messages a server refused under section 3.1.3 of
  RFC 7162, told by the server or by reading back, with other clients acting in between.
- **Accounts** (`AccountsWorld.dfy`, `Accounts.dfy`). The admin verbs over Mailcow and the store, where
  any call may fail, with or without having taken effect.
- **Authentication** (`AuthCache.dfy`, `AuthHistory.dfy`, `AuthCoalesce.dfy`, `AuthFlow.dfy`,
  `RateLimiter.dfy`). The credential cache, the sharing of concurrent logins, the way from one to the
  other, and the admin API's token bucket.
- **Key rotation** (`KeyRotation.dfy`, `RotationPass.dfy`). The envelope format, and the restartable
  re-sealing pass with other writers beside it.

`Prelude.dfy` and `Sorting.dfy` hold what several modules share.

## Where the code and its documentation differ

The models follow the code. These differences are stated as lemmas or contracts:

- A blob is kept for the grace period less the length of the longest transaction, not for the whole
  grace period, because stamps are taken at transaction start. `BlobGrace.GraceExact` gives the exact
  guarantee; the whole period is guaranteed only if transactions take no time.
- A committed blob row can outlive its file when Puts of one hash overlap, when a Put overlaps the
  collector, when a Put ends between its rename and its directory fsync, and when a Put creates its
  shard directories, whose own entries nobody fsyncs (`BlobFiles.LonePutLoses`).
  `BlobFiles.SafeIffDisciplined` gives the exact condition.
- Deleting an account drops its reference rows by cascade without recounting, so blobs only it held
  are not collected until a transaction that adds or removes a reference to them commits
  (`BlobCascade.CascadeConsistentIff`, `BlobCascade.LeakedIff`).
- A reference naming `error` does resolve. Un-opted methods are undetectable as long as no reference
  reads an error whole or reads its description; a request that starts with a call and such a
  reference to it does detect them (`JmapGating.ProbeDetects`).
- With both `#a` and `##a` among the arguments, the outcome can depend on map iteration order; the
  exact condition is `JmapBackRef.OrderMattersIff`.
- Array indices in pointers may carry a sign, which RFC 6901 does not allow (`JmapPointer.SignedIndex`).
- The read-back is right about a UID, whatever other clients do, if and only if the mailbox has
  assigned it (`ImapStore.ReadBackExactIff`).
- When the connection fails inside a batch, the messages that batch had applied are not reported
  (`ImapStore.StoreFlags` says exactly which).
- When a create fails after provisioning has reached the account row, the mailbox is rolled back and
  the row is not (`Accounts.Exactly` gives the exact condition, `Accounts.RowSurvivesRollback` the
  case). Every later create then finds the row and reports success, and the mailbox does not come back
  before the account is deleted and purged (`AccountsWorld.LostMailboxStaysLost`).
- A mailbox that already exists is taken over only if the freshly drawn password happens to be its own
  (`Accounts.Records`), so the repair the comments describe does not take place.
- A read-only request on a read-only account is logged as successful and answered with an error exactly
  if the account cannot be read back (`Accounts.Service.ReadOnly`, `Accounts.ReadOnlyMisreported`).
- The pass of key rotation writes over a credential re-issued since the listing; the exact condition is
  `RotationPass.ReissueKeptIff`. It also sets the credential's state to active, which revives a revoked
  one, and the IMAP user to the listed one; the exact conditions are `RotationPass.RevivedIff` and
  `RotationPass.UserKeptIff`.
- A request whose own client is still there can be answered with another's cancellation
  (`AuthCoalesce.LiveWaiterIsAborted`). While it is unanswered this can still happen to it if and only
  if it waits for a call that is being validated or was aborted, or has yet to come in beside another
  request of its credential that could lead it there (`AuthCoalesce.AbortedIff`).
- Dropping a user's cached credentials makes the next request of a pair validate again if and only if
  no validation of that pair is on its way (`AuthFlow.NextRequestRevalidatesIff`).

## Model

| member | source | states |
|---|---|---|
| BlobTables.ApplyConsistent | internal/blob/blob.go:301-477 | Each statement on a blob keeps every count equal to the blob's reference rows, every stamp present exactly at zero, and no reference without its blob. |
| BlobTables.ApplyAllConsistent | internal/blob/blob.go:301-477 | So does any program of statements. |
| BlobTables.CollectedHasNoRefs | internal/blob/blob.go:617-645 | On consistent tables, a blob the collector finds collectable has no reference row. |
| BlobTables.ApplyAllJoin | internal/blob/blob.go:345-393 | A program that stays within the rows it locks commutes with whatever others do to the remaining rows. |
| BlobOutcomes.RemoveOutcome | internal/blob/blob.go:432-477 | Removing a reference deletes that one row and no other; the count becomes that of the remaining rows, and the stamp is set on reaching zero, kept at zero and cleared above it. |
| BlobOutcomes.ExpireOutcome | internal/blob/pins.go:77-102 | Expiry deletes exactly the pins of the blob created before the cutoff; every reference that is no pin stays, however old. |
| BlobOutcomes.RecordOutcome | internal/blob/blob.go:237-247 | Recording a blob that has a row changes nothing; a new one starts unreferenced with its stamp set. |
| BlobOutcomes.CollectOutcome | internal/blob/blob.go:617-645 | The guarded delete matches exactly the blobs without a reference row stamped before the cutoff, and deletes that row alone. |
| BlobOutcomes.StampStays | internal/blob/blob.go:454-477 | In every run, from the moment a blob is unreferenced until something references or collects it, its row and stamp do not change, whatever else commits. |
| BlobProtocol.RunInv | internal/blob/blob.go:284-323 | Every reachable state keeps the lock discipline: open transactions hold disjoint blobs and have computed on the committed rows of theirs. |
| BlobProtocol.CommitIsSerial | internal/blob/blob.go:647-661 | Publishing a transaction's rows gives the tables its program would give run alone at that moment. |
| BlobProtocol.Serializable | internal/blob/blob.go:284-323 | In every interleaving the committed tables are those of running the committed transactions one at a time in commit order. |
| BlobProtocol.AlwaysConsistent | internal/blob/blob.go:461-477 | In every reachable state of every interleaving of adds, removals, pin expiry, puts and collections, counts, stamps and references agree. |
| BlobProtocol.LostRaceLeavesNothing | internal/blob/blob.go:301-323 | For as long as a blob row is missing, a transaction that still has to add a reference to it does not commit; it can only fail or be rolled back, which changes no table, and no reference to the blob exists. |
| BlobGrace.StampOfAll | internal/blob/blob.go:461-477 | A program leaves a zero stamp only as it found it or at its own transaction's start. |
| BlobGrace.LostRowWasOld | internal/blob/blob.go:617-645 | A row an honest program deletes was stamped more than the grace period before the transaction began. |
| BlobGrace.StampsCoverRun | internal/blob/blob.go:461-477 | In every reachable state no committed reference to a stamped blob was seen later than its stamp plus the longest transaction. |
| BlobGrace.CollectedWasUnreferenced | internal/blob/blob.go:554-645 | Whenever a collection commits, the blob had no committed reference for more than grace minus the longest transaction. |
| BlobGrace.GraceAloneIsNotEnough | internal/blob/blob.go:78-86 | For every grace period and every transaction length, a run that collects a blob exactly grace minus that length plus one after its last committed reference. |
| BlobGrace.GraceExact | internal/blob/blob.go:554-645 | The gap guaranteed in all runs, if and only if: at most grace minus the longest transaction; the whole grace period only if that is zero. |
| BlobLocks.NoDeadlock | internal/blob/blob.go:345-393 | With hashes locked in ascending order, no chain of waits ever returns to its start, for any number of transactions. |
| BlobLocks.AlwaysProgress | internal/blob/blob.go:345-393 | In every reachable state with open transactions one of them can go forward. |
| BlobLocks.ForwardRunsEnd | internal/blob/blob.go:345-393 | However forward steps are scheduled, only a bounded number fits. |
| BlobLocks.AllFinish | internal/blob/blob.go:345-393 | Every reachable state extends, by forward steps alone, to one in which all transactions have ended: nobody has to be rolled back for the others. |
| BlobAddRefs.ProgramIsOrdered | internal/blob/blob.go:363-393 | The grouped program visits each hash once, in strictly ascending order. |
| BlobAddRefs.FoldOutcome | internal/blob/blob.go:301-323 | Adding references one at a time yields the tables described row by row: first claimant per owner, exact counts. |
| BlobAddRefs.GroupsOutcome | internal/blob/blob.go:363-424 | So does adding them group by group. |
| BlobAddRefs.GroupedEqualsOneAtATime | internal/blob/blob.go:363-424 | AddRefs leaves exactly the tables of folding AddRef in arrival order, and fails exactly when that fold fails, which is when some blob is missing. |
| BlobStore.BlobTx.SyncRefcount | internal/blob/blob.go:461-477 | The recount writes the number of rows and keeps or sets the stamp. |
| BlobStore.BlobTx.AddRef | internal/blob/blob.go:301-323 | Performs the add statement, or fails and changes nothing if the blob is gone. |
| BlobStore.BlobTx.RemoveRef | internal/blob/blob.go:432-452 | Deletes that one reference, leaves every other row, recounts the blob and starts its stamp only on reaching zero; without a blob row it changes nothing. |
| BlobStore.BlobTx.GroupByHash | internal/blob/blob.go:363-393 | Groups claims by hash, keeping arrival order within each group. |
| BlobStore.BlobTx.AddRefs | internal/blob/blob.go:363-424 | The loops over the sorted hashes perform the ordered program, up to the first missing blob. |
| BlobStore.Store.CollectOne | internal/blob/blob.go:617-645 | Deletes the row exactly when the guarded delete matches and the transaction commits, reported or not. |
| BlobStore.Store.GC | internal/blob/blob.go:554-612 | Ends at the first turn whose transaction fails or whose file cannot be removed, or after the last; up to there exactly the candidates whose guarded delete matched are deleted, counted with their bytes and unlinked, and all others skipped. The turn that stops it leaves its file. |
| BlobSweeps.AfterConsistent | internal/blob/blob.go:554-645 | From consistent tables, and with writers between its turns, the pass meets and leaves consistent tables at every turn, wherever it stops. |
| BlobSweeps.TurnExact | internal/blob/blob.go:595-645 | At its turn, with writers committing before it, a candidate is deleted exactly when nothing references it and its stamp is before the cutoff, whatever the scan saw; its row alone goes. |
| BlobSweeps.UnlinkedExact | internal/blob/blob.go:595-610 | The files removed are those of the candidates that matched. |
| BlobSweeps.PassAlone | internal/blob/blob.go:554-612 | A pass nobody disturbs deletes every garbage blob among its candidates, row and file, and no other row, counts each once and never stops early. |
| BlobStore.Store.ExpirePinsOf | internal/blob/pins.go:77-102 | Removes the blob's expired pins unless the transaction rolls back, and returns how many. |
| BlobStore.Store.ExpirePins | internal/blob/pins.go:31-75 | A sweep, with writers in between, expires each blob in turn up to the first transaction that fails and returns by how many rows the completed turns shrank the table. |
| BlobSweeps.SweptConsistent | internal/blob/pins.go:31-102 | So does the sweep. |
| BlobSweeps.SweepExact | internal/blob/pins.go:77-102 | At its turn a blob loses exactly its pins created before the cutoff unless the transaction rolls back, and its count and stamp follow. |
| BlobSweeps.SweepAlone | internal/blob/pins.go:31-75 | A sweep nobody disturbs leaves exactly the references that are not expired pins of the blobs it visits. |
| BlobCascade.CascadeConsistentIff | internal/store/accounts.go:141-158 | Deleting an account keeps the counts right if and only if it held no reference. |
| BlobCascade.CascadeLeaks | internal/store/migrations/0002_core_schema.sql:413-428 | A blob only the deleted account referenced is left with a positive count and no reference. |
| BlobCascade.LeakedUntilRecounted | internal/store/accounts.go:141-158 | Such a blob is never collected, in any interleaving of transactions, until one that adds or removes a reference to it commits. |
| BlobCascade.LeakedIff | internal/store/accounts.go:141-158 | In every interleaving the blob is leaked if and only if no committed transaction has added or removed a reference to it; afterwards its row counts right. |
| BlobFiles.RunInv | internal/blob/blob.go:169-253 | Every step of Put, of the collector, of the operating system and of a power loss keeps the invariant that ties rows, entries, directories and processes together. |
| BlobFiles.RowsAreBacked | internal/blob/blob.go:169-235 | Under the four rules every row of every reachable state, after a power loss at any point too, has its complete and durable file under durable directories. |
| BlobFiles.OverlappingPutsLose | internal/blob/blob.go:205-235 | A run of two overlapping Puts that ends with a row and no file. |
| BlobFiles.OverlappingGcLoses | internal/blob/blob.go:595-612 | A run of a Put and a collection that ends with a row and no file. |
| BlobFiles.AbandonedRenameLoses | internal/blob/blob.go:205-235 | A run without overlap, but with a Put that ends before its directory fsync, that ends with a row and no file. |
| BlobFiles.LonePutLoses | internal/blob/blob.go:204-235 | A run of one complete Put, alone, of the first blob of a shard, that a power loss ends with a row and no file. |
| BlobFiles.SafeIffDisciplined | internal/blob/blob.go:146-235 | Rows are always backed if and only if all four rules hold. |
| JmapPointer.UnsignedIndex | internal/jmap/backref.go:216-231 | On unsigned tokens the code accepts exactly the array indices of section 4 of RFC 6901, within bounds. |
| JmapPointer.SignedIndex | internal/jmap/backref.go:216-231 | Which signed tokens it accepts besides, exactly. |
| JmapPointer.TwoPassesDecode | internal/jmap/backref.go:165-168 | The two replacement passes equal the single left-to-right decoder on every string. |
| JmapPointer.PrintParse | internal/jmap/backref.go:148-168 | Splitting and unescaping recovers every non-empty token list from its escaped printing. |
| JmapPointer.PointerSelects | internal/jmap/backref.go:148-160 | A printed token list selects what its tokens select; a pointer neither empty nor starting with a slash selects nothing. |
| JmapPointer.EvalTokensLoop | internal/jmap/backref.go:170-214 | The evaluator with its append loop computes the recursive definition. |
| JmapPointer.WalkExact | internal/jmap/backref.go:170-214 | Where no array is mapped, a path selects a value exactly when its tokens walk to it member by member and element by element; no token steps into a scalar. |
| JmapPointer.StarConcat | internal/jmap/backref.go:170-214 | A star over a concatenation is the concatenation of the stars, failing when either does. |
| JmapPointer.StarAllOrNothing | internal/jmap/backref.go:170-214 | A star succeeds exactly when every element does, in order, flattening one level. |
| JmapPointer.PathsCompose | internal/jmap/backref.go:170-214 | Evaluating p then q is evaluating p+q whenever p maps through no array. |
| JmapPointer.MappingDoesNotCompose | internal/jmap/backref.go:170-214 | A path that maps through an array for which that fails. |
| JmapBackRef.ResolveBackReferences | internal/jmap/backref.go:50-102 | The loop that edits the argument map computes the substitution in the order given. |
| JmapBackRef.FoundIsFirst | internal/jmap/backref.go:106-121 | The response found is the first in the list under the call id, and none is found exactly if none has the id. |
| JmapBackRef.ResolvedExact | internal/jmap/backref.go:105-141 | A reference resolves to a value exactly when the first response under its call id has its name and its path selects that value there; every failure is an invalidResultReference. |
| JmapBackRef.SubstituteFailure | internal/jmap/backref.go:71-85 | The first reference that fails decides the error: invalidArguments if the plain name is present too, invalidResultReference if it does not resolve. |
| JmapBackRef.SubstituteOutcome | internal/jmap/backref.go:50-102 | Without a chained reference, success and the final arguments are determined by the fields alone. |
| JmapBackRef.OrderDoesNotMatter | internal/jmap/backref.go:50-102 | Then substitution succeeds for one iteration order if and only if for every order, with the same arguments. |
| JmapBackRef.SuccessesAgree | internal/jmap/backref.go:50-102 | Any two orders that succeed leave the same arguments, chained or not. |
| JmapBackRef.OrderMattersIff | internal/jmap/backref.go:50-102 | Two orders disagree if and only if one reference names another and all of them resolve. |
| JmapDispatch.CreationIDs.Record | internal/jmap/created.go:52-66 | The creation id then stands for the server id, and no other id changes; an empty one on either side records nothing. |
| JmapDispatch.CreationIDs.Resolve | internal/jmap/created.go:68-82 | What a wire id resolves to. |
| JmapDispatch.RecordAllExact | internal/jmap/created.go:52-66 | After any records a creation id stands for the server id last recorded for it, or for the one it had. |
| JmapDispatch.CreationIDs.Snapshot | internal/jmap/created.go:84-95 | The copy equals the map. |
| JmapDispatch.SafeCall | internal/jmap/dispatch.go:278-303 | A handler call is total: a panic becomes a server failure. |
| JmapDispatch.Dispatch | internal/jmap/dispatch.go:199-271 | One call in place: gate, substitute, call, encode. |
| JmapDispatch.RefusedCall | internal/jmap/dispatch.go:199-226 | An unknown or un-opted method is one unknownMethod error and unresolvable arguments are that one error; neither changes the state. |
| JmapDispatch.SingleCall | internal/jmap/dispatch.go:228-303 | The state the handler left and everything it recorded are kept even if it failed or panicked; its object result is the answer, anything else one error. |
| JmapDispatch.MultiCall | internal/jmap/dispatch.go:228-290 | The same for a handler with several results, all of which are answered in order or none. |
| JmapDispatch.Process | internal/jmap/dispatch.go:139-197 | Which requests are rejected whole, and that the others run all their calls in order; created ids are returned exactly when given. |
| JmapDispatch.AnswerShape | internal/jmap/dispatch.go:222-271 | Any failure of a handler or of encoding yields exactly one error; an outcome whose results all encode is answered with all of them, in order. |
| JmapDispatch.RunPrefix | internal/jmap/dispatch.go:139-197 | For every k, the responses to the first k calls are a prefix of the whole and do not depend on later calls. |
| JmapDispatch.CallBlock | internal/jmap/dispatch.go:139-197 | Each call contributes a non-empty contiguous block under its own id. |
| JmapDispatch.SeedKept | internal/jmap/created.go:42-50 | Created ids keep every seeded key. |
| JmapGating.SubstituteAgrees | internal/jmap/backref.go:105-141 | Responses that differ only in error descriptions give the same substitution, unless a reference reads a description. |
| JmapGating.UnoptedDoNotExist | internal/jmap/dispatch.go:199-221 | For every such request the responses equal, up to error descriptions, those of the registry cut down to the capabilities in use; state and created ids are equal. |
| JmapGating.ProbeDetects | internal/jmap/backref.go:105-141 | For every request that starts with a pair of calls whose reference reads a description, a registry exists on which the two differ. |
| ImapStore.Server.Store | internal/imap/store.go:114-160 | What a conforming server applies, refuses and echoes. |
| ImapStore.VerifyByReadBack | internal/imap/store.go:199-213 | The method returns exactly the unconfirmed messages that still exist above the threshold, ascending. |
| ImapStore.ReadBackIsExact | internal/imap/store.go:199-213 | Whatever other clients do, an assigned UID the STORE did not confirm is found above the threshold exactly if it was refused and still exists. |
| ImapStore.UnknownUidMisreported | internal/imap/store.go:199-213 | For every UID not assigned there is a course of events after which the read-back is wrong. |
| ImapStore.ReadBackExactIff | internal/imap/store.go:199-213 | The read-back is right about a UID whatever other clients do, if and only if the mailbox has assigned it. |
| ImapStore.StoreBatch | internal/imap/store.go:114-197 | When a batch completes, which mailbox its read-back sees and whether there is one, as functions of the mailbox it meets; what it then reports by either path against what the server did. |
| ImapStore.ReadBackEqualsModified | internal/imap/store.go:114-197 | The two paths give the same list if and only if no refused message was expunged in between. |
| ImapStore.ExpungedGoesUnreported | internal/imap/store.go:199-213 | Any refused message can be expunged before the read-back, which then does not report it. |
| ImapStore.NeverBoth | internal/imap/store.go:83-110 | No message is both updated and rejected, across all batches. |
| ImapStore.StoreFlags | internal/imap/store.go:40-110 | Runs every batch up to the first that does not complete and fails exactly if there is one. Updated messages were applied, rejected ones refused, no message is both; no refused message of a finished batch goes unreported unless expunged before the read-back; an applied message goes unreported exactly if the batch that failed applied it; a read-back is reported exactly if one took place. |
| ImapStore.NextBatch | internal/imap/store.go:83-103 | One turn of the loop: a batch that fails leaves the result without what it did. |
| AccountsWorld.GateExact | internal/accounts/service.go:245-250 | The gate admits exactly the addresses local@domain of the actor's own domain. |
| AccountsWorld.NoForeignContact | internal/accounts/service.go:232-250 | Over every history, each request Mailcow receives was sent during a call of an actor whose domain the address is in. |
| AccountsWorld.LocksHold | internal/accounts/operations.go:397-448 | Until it is purged, a read-only account stays read-only and a deleting one stays deleting. |
| AccountsWorld.OnlyDeletingEnds | internal/accounts/operations.go:522-549 | Only a purge ends an account, and only one marked deleting. |
| AccountsWorld.SwitchesAgree | internal/accounts/operations.go:342-395 | Over every history, Mailcow's active flag is the negation of Moov's suspension unless the latest suspend or resume failed. |
| AccountsWorld.ReadOnlyCannotSend | internal/accounts/operations.go:397-477 | A read-only account never holds a stored credential that permits submission. |
| AccountsWorld.TrailIsComplete | internal/accounts/service.go:252-288 | A call that wrote to Mailcow left exactly one line, and at its place in every later log stands that call's own line with that call's own outcome. |
| AccountsWorld.TrailCounts | internal/accounts/service.go:252-288 | The log grows by a line for each call that wrote to Mailcow and by at most one per call. |
| AccountsWorld.LostMailboxStaysLost | internal/accounts/operations.go:66-93 | While its row lives, an account whose mailbox is gone does not get it back. |
| Accounts.Service.Suspend | internal/accounts/operations.go:344-373 | Succeeds exactly if the gate admits a live account, Mailcow and the row take the change and the account can be read back; for every script of failures the answer, the mailbox, the row and the line are exact. |
| Accounts.Service.Resume | internal/accounts/operations.go:377-395 | The same for resuming. |
| Accounts.Service.Update | internal/accounts/operations.go:288-340 | Succeeds exactly if Mailcow takes the edit and the limit asked for, the row is written and can be read back; for every script the answer, the mailbox, the facts and the line are exact. |
| Accounts.Service.ApplyRateLimit | internal/accounts/operations.go:241-254 | Success means the mailbox has the limit asked for; nothing is written when it already had it. |
| Accounts.Service.ReadOnly | internal/accounts/operations.go:410-448 | Succeeds exactly if the account is read-only already or its credential is re-issued without SMTP and the mark written, and it can be read back; for every script row, mailbox and line are exact; line and answer disagree exactly if a read-only account cannot be read back. |
| Accounts.Service.ReissueWithoutSMTP | internal/accounts/operations.go:460-477 | For every script, what becomes of the credential and its id; once the new credential is stored, the deletion of the old app password is sent to Mailcow. |
| Accounts.Service.Delete | internal/accounts/operations.go:487-520 | Succeeds exactly if Mailcow deletes the mailbox or denies having it, the row is marked and can be read back; for every script answer, mailbox, row and line are exact. |
| Accounts.Service.Purge | internal/accounts/operations.go:530-549 | With a listing, exactly the rows marked deleting whose deletion is not refused go, and the count is of those reported deleted; without one nothing changes. |
| Accounts.Service.Create | internal/accounts/operations.go:66-143 | For every script of failures: the facts are recorded exactly if every call on the way succeeds; otherwise the rows are as before exactly if provisioning did not reach the row, and the set of mailboxes exactly if the mailbox created here could be deleted again; no mailbox that was there before is deleted; an idempotent success changes nothing. |
| Accounts.Service.FinishCreate | internal/accounts/operations.go:151-237 | When the facts are recorded, and otherwise which mailbox and row are left: only a mailbox this call created may be gone afterwards. |
| Accounts.CreateIsFullUpdate | internal/accounts/operations.go:197-210 | Creating an account, and updating any account with everything the creation names, leave the same facts and the same mailbox. |
| Accounts.UpdatesCompose | internal/accounts/operations.go:312-336 | Of two updates the second wins where it says something and the first stands elsewhere. |
| Accounts.RowSurvivesRollback | internal/accounts/operations.go:151-189 | A create whose password id cannot be recorded leaves the row and no mailbox, and the next create reports success. |
| Accounts.ReadOnlyMisreported | internal/accounts/operations.go:419-422 | A read-only request that is logged as a success and answered with an error. |
| AuthCache.MacInputInjective | internal/jmaphttp/authcache.go:79-92 | The length prefixes make the MAC's input determine the pair. |
| AuthCache.CredentialCache.Compact | internal/jmaphttp/authcache.go:111-122 | Overwriting the slice being read keeps exactly the unexpired entries, in order, and finds the pair among them. |
| AuthCache.CredentialCache.Check | internal/jmaphttp/authcache.go:101-129 | The check prunes that user's bucket and no other. |
| AuthCache.CredentialCache.PutSlice | internal/jmaphttp/authcache.go:138-158 | Refresh, evict the entry closest to expiry, or append, in place. |
| AuthCache.CredentialCache.Put | internal/jmaphttp/authcache.go:132-159 | The put changes that user's bucket and no other. |
| AuthCache.CredentialCache.InvalidateUser | internal/jmaphttp/authcache.go:164-168 | Drops the user's bucket. |
| AuthCache.CredentialCache.InvalidateAll | internal/jmaphttp/authcache.go:171-175 | Drops every bucket. |
| AuthHistory.Bounded | internal/jmaphttp/authcache.go:61-64 | After every history a bucket has at most four entries, all distinct. |
| AuthHistory.CheckSound | internal/jmaphttp/authcache.go:99-129 | With any clock, a positive answer names a pair that was put, not invalidated since, and is within its TTL. |
| AuthHistory.CheckExact | internal/jmaphttp/authcache.go:99-159 | With a clock that never runs back and separates the user's puts, the answer is positive if and only if the pair was put, not invalidated since, is within its TTL, and fewer than four other passwords of the user were put after it. |
| AuthHistory.TiesEvictTheWrongPair | internal/jmaphttp/authcache.go:146-157 | When puts share an instant, eviction can drop a pair only one other password followed. |
| AuthCoalesce.OneValidationPerKey | internal/jmaphttp/auth.go:282-307 | In every reachable state at most one request per credential key is validating upstream. |
| AuthCoalesce.AnswersAreShared | internal/jmaphttp/auth.go:286-308 | Every answer is the request's own cancellation, or what an upstream validation of its key returned that was in the map when it came in. |
| AuthCoalesce.NeverAnothersVerdict | internal/jmaphttp/auth.go:282-308 | A shared login was made with the same user, up to case, and the same password. |
| AuthCoalesce.OneVerdictPerCall | internal/jmaphttp/auth.go:299-308 | A call has one verdict, so all who share it agree. |
| AuthCoalesce.RunsAreShort | internal/jmaphttp/auth.go:282-308 | No run has more than five steps per request, the end of its context included. |
| AuthCoalesce.SomeoneCanMove | internal/jmaphttp/auth.go:282-308 | While a request is unanswered, some request can move without anyone giving up: no wake-up is lost. |
| AuthCoalesce.AbortedIff | internal/jmaphttp/auth.go:286-308 | In every reachable state, an unanswered request whose context is live can still be told that its validation was aborted if and only if it waits for a call that is being validated or was aborted, or is yet to come in beside a request of its key that could lead it there; a leader never can. |
| AuthCoalesce.AbortedIsGone | internal/jmaphttp/auth.go:299-308 | In every run a call is aborted only when its leader's own context has ended. |
| AuthCoalesce.LiveWaiterIsAborted | internal/jmaphttp/auth.go:286-308 | A run in which a live waiter is answered with the leader's cancellation. |
| AuthFlow.InFlightPutReturns | internal/jmaphttp/auth.go:217-247 | A validation on its way when entries are dropped puts its own afterwards, and the next request is answered from the cache. |
| AuthFlow.NextRequestRevalidatesIff | internal/jmaphttp/auth.go:190-195 | After a drop the next request of a pair validates again, whatever happens, if and only if no validation of the pair is on its way. |
| AuthFlow.HitNeedsConfirmation | internal/jmaphttp/auth.go:217-247 | In every interleaving a pair is answered from the cache only after the upstream confirmed it; rejected validations let nothing in. |
| RateLimiter.Limiter.Allow | internal/jmaphttp/admin_accounts.go:322-338 | The bucket after a request, the decision, and the wait reported. |
| RateLimiter.KeysAreIndependent | internal/jmaphttp/admin_accounts.go:322-331 | A key's bucket depends on that key's requests only. |
| RateLimiter.TokensAreTightest | internal/jmaphttp/admin_accounts.go:332-335 | The tokens are what the tightest window ending now has left of its budget. |
| RateLimiter.AdmitsExactly | internal/jmaphttp/admin_accounts.go:322-338 | A request is admitted if and only if that keeps every window within burst plus rate times length. |
| RateLimiter.WindowBound | internal/jmaphttp/admin_accounts.go:297-308 | Between any two instants, both included, no more requests are admitted than burst plus rate times the time between them. |
| RateLimiter.RetryExact | internal/jmaphttp/admin_accounts.go:337-338 | A lone retry is admitted if and only if the reported wait has passed. |
| KeyRotation.NewKeyring | internal/crypto/crypto.go:204-221 | The ring holds exactly the keys given and the first is primary; an empty list is refused, and otherwise the first key that is unusable or repeats an id decides the error. |
| KeyRotation.SealOpens | internal/crypto/crypto.go:243-315 | What is sealed opens to the same plaintext under every ring that has the sealing key. |
| KeyRotation.OpenExact | internal/crypto/crypto.go:281-331 | Which envelopes are malformed, which name a key that is not loaded, and what the others open to. |
| KeyRotation.SealIsBound | internal/crypto/crypto.go:243-315 | With an authenticated cipher, an envelope does not open for another account, nor with its key id changed to another that stands for the same key. |
| KeyRotation.RotateKeepsPlaintext | internal/crypto/crypto.go:347-368 | Succeeds exactly if the envelope opens, with the error of opening otherwise; re-seals exactly if another key than the primary sealed it; the result is under the primary key and opens to the same plaintext under it alone. |
| RotationPass.Accounts.SetCredentials | internal/store/accounts.go:97-112 | The write sets user, envelope and state of an existing row, and succeeds exactly if it is confirmed and the row exists. |
| RotationPass.Accounts.RotateRow | cmd/moovctl/key.go:130-172 | One row of the pass from its listed envelope, whatever the row holds by now, and how it is counted. |
| RotationPass.Accounts.KeyRotate | cmd/moovctl/key.go:121-190 | Stopped anywhere, with other writers in between, the loop leaves the table of the pass, and every row is counted as empty, failed, current or re-sealed by what it was when listed. |
| RotationPass.ResealedIff | cmd/moovctl/key.go:137-155 | The pass re-seals exactly the listed envelopes that open and are under another key than the primary. |
| RotationPass.TallyTotal | cmd/moovctl/key.go:121-178 | Every row is counted once. |
| RotationPass.FailsIff | cmd/moovctl/key.go:137-171 | Alone, with a store that takes every write, a row fails exactly if its envelope does not open. |
| RotationPass.NothingToDo | cmd/moovctl/key.go:152-155 | Credentials already under the primary key are not written again, wherever the pass stops and whatever others do. |
| RotationPass.SecondPassIdle | cmd/moovctl/key.go:87-92 | After a complete pass without a failure another one, wherever it stops, leaves every row as it is. |
| RotationPass.PassKeepsCredentials | cmd/moovctl/key.go:87-92 | Alone, wherever it stops and whatever writes fail, every credential opens as before and every user stays; a dry run changes nothing. |
| RotationPass.CompleteRunFinishes | cmd/moovctl/key.go:181-189 | A complete run without failures leaves every credential nobody else replaced opening under the primary key alone. |
| RotationPass.RerunsKeep | cmd/moovctl/key.go:87-92 | Any number of passes over the rows the last one left, each stopped anywhere, dry or not, with any write failures, together keep every plaintext. |
| RotationPass.RerunsFinish | cmd/moovctl/key.go:87-92 | However often rotation was interrupted before, once a pass completes, not dry and without failure, every credential opens under the primary key alone to exactly what it opened to before the first pass. |
| RotationPass.ReissueKeptIff | cmd/moovctl/key.go:121-171 | A row opens as it would without the pass if and only if the pass did not write over a credential replaced since the listing. |
| RotationPass.ConcurrentReissueIsLost | cmd/moovctl/key.go:121-171 | A pass in which a credential re-issued after the listing is replaced by the old one. |
| RotationPass.RevivedIff | internal/store/accounts.go:97-102 | The pass changes a row's state if and only if it wrote the row while its credential was not active and nobody has touched it since. |
| RotationPass.RevokedIsRevived | internal/store/accounts_admin.go:107-126 | A pass that revives the revoked credential of an account being deleted. |
| RotationPass.UserKeptIff | internal/store/accounts.go:97-102 | The pass leaves a row's IMAP user as it would be without the pass if and only if no write of the pass stands over a user other than the listed one. |

## Left out

- PostgreSQL: only row locks held to the end of the transaction, read-committed reads and atomic commit are modelled; a failing statement is a rollback, and transactions share one clock.
- SHA-256, HMAC and AES-GCM: parameters that are collision-free or round-trip, as preconditions; hashes and keys are numbers.
- BlobFiles.RowsAreBacked: an unlink that a power loss undoes is not modelled, since it leaves only a file without a row; nor is a platform that cannot fsync directories, whose error the code ignores; creating the shard directories and the stat that follows are one step.
- BlobCascade.LeakedUntilRecounted: the account is deleted while no blob transaction is open.
- JSON bytes: documents are a datatype and arguments are maps; Go's case-insensitive matching of struct keys is not modelled, and error descriptions are abridged.
- JmapDispatch.Process: request size limits, parsing and the session state string are not modelled.
- JmapGating.ProbeDetects: detection is shown for requests that start with the probing pair of calls and whose second call has one reference, not for every request with such a reference.
- ImapStore.StoreFlags: invalid flag operations and a connection without a selected mailbox are not modelled; UIDs must be distinct and assigned, which is when the read-back is exact; a STORE that fails has run whole or not at all, and one that succeeds is taken to raise the modification sequence of every message it applies.
- Accounts.Service: verbs run one after another; concurrent admin requests and changes an operator makes in Mailcow directly are not modelled. A failed mailbox creation is taken to have changed nothing. Session revocation, the sync nudge, request validation and the returned resource are not modelled, and app passwords in Mailcow are represented by the ids sent to it.
- AuthCoalesce.SomeoneCanMove: a validator that never returns or panics is not modelled; the failure budget is part of the verdict.
- AuthFlow.NextRequestRevalidatesIff: the lockout check and the sharing of concurrent validations are left to their own models; a refused request is one that finishes without a put.
- RateLimiter.Limiter.Allow: float64 rounding and the rounding of the wait to whole seconds are not modelled.
- RotationPass.RerunsKeep: composes passes that run alone, as does RotationPass.RerunsFinish; what other writers lose to one pass is said by RotationPass.ReissueKeptIff.
- The lockout limiter, the IMAP watcher, all other IMAP commands, ManageSieve, SMTP, Mailcow's HTTP client and provisioning internals: network clients, represented by the contracts of the calls made.
- The sync engine, search, threading, sieve, exports, identities, HTTP rendering, configuration, the command line beyond key rotation, and the web client: not part of this model.
