# Verification model of orza

orza keeps a catalog of SSH connections in SQLite, remembers passwords in the
operating system's secret store, and runs port-forwarding tunnels. This project
models the parts of it whose correctness depends on several functions or on
interleavings, and proves properties of them in Dafny 4.11:

    dafny verify --resource-limit 2000000 dfyconfig.toml

| file | what it models |
|---|---|
| `CredentialWorld.dfy`, `CredentialSaga.dfy` | the saga that keeps catalog and secret store consistent although they share no transaction, with calls that fail or crash before or after their effect |
| `Tunnels.dfy` | the registry of concurrent tunnel runs: one step per locked section, any interleaving |
| `Forwarding.dfy` | the forwarding runtime: acceptor, workers and deferred cleanup racing over the connection table |
| `LogicalPaths.dfy`, `CatalogTree.dfy`, `CatalogEffects.dfy`, `CatalogRepository.dfy` | names, paths, the tree of rows, its transactions, what these accept and do, and the repository methods that carry them out row by row |
| `FolderDelete.dfy`, `ConnectionDelete.dfy` | deletions that read the catalog in several transactions while other actors change it |
| `Socks.dfy` | the SOCKS version 5 handshake (RFC 1928, sections 3 to 5) |
| `SecretEditor.dfy` | the line editor for secrets with in-place wiping, and their encoding in UTF-8 (RFC 3629, section 3) |
| `Viewport.dfy` | scrolling and scrollbar arithmetic on 64-bit words |
| `Browser.dfy` | the visible rows of the catalog tree and the cursor on them |
| `Outcomes.dfy` | result types |

How the models are set up:

- **Faults.** In `CredentialSaga`, every repository and store call goes one of
  five ways: as asked, reporting an error before or despite its effect, or
  crashing before or after its effect. `Call` results carry a crash straight out
  of the running operation; what is left is the durable state, on which `Recover`
  is run again. `calm` switches all faults off, `alone` all other writers.
  A secret store read may be unavailable but never lies.
- **Other actors.** Between any two calls of the saga other writers run plain
  transactions (`Drift`); in the deletion services they run any request of
  `CatalogTree`, credential operations included (`Others`), but leave the operation
  row of a saga in flight to the worker that stored it.
- **Log.** `Repository` keeps a ghost log of every request committed since a state
  `origin`, by whomever. `Valid` says that these requests, one after the other, make
  the present state of `origin`; `Saw(at, c)` says that the catalog was in state c when
  the log had `at` entries. The deletion services name the states they acted on that
  way, and the request with which they ended.
- **Pending operations.** `pending` in `CatalogTree` holds the connections that have a
  row in the operation table; a foreign key keeps these from being deleted. What is in
  the row, its phase above all, is the subject of `CredentialWorld`.
- **Tickets.** A `Ticket` is what one saga operation found when it began. `Before`
  and `After` say that the connection's row and secrets are those of then, or
  those the operation asks for, with the catalog revision advanced once.
- **Certificates.** `depth` in `CatalogTree`, `depth` and `height` in `Browser`,
  `owner` in `CredentialWorld` and `holder` in `Forwarding` are no part of the
  program's data. They witness that rows form a tree, for which connection a
  reference was generated, and whose job it is to release a connection.
- **Pure specifications.** Methods follow the code's loops and field updates; each is
  proved against a function or relation on values, and the laws are lemmas about
  those values.

Findings (properties that do not hold as one might expect, with the exact
condition under which they do):

- A plain connection delete that was decided on while the connection had no
  remembered password can drop a password remembered meanwhile, leaving its secret
  orphaned: exactly when the request names no expected revision, or names the
  connection by path with an expected revision of at least 2
  (`UnpinnedDeletionsOrphan`).
- An edit of a connection strands a pending operation exactly between its secret
  step and its catalog step (`EditsStrandExactly`); `Recover` then keeps the row and
  reports an error.
- A node's path leads back to it exactly when no name on it is `.` or `..`; names
  allow these, paths do not (`PathsAndIdsAreInverse`). A folder created as `.` has the
  path `/.`, which is refused (`DotFolderIsUnreachable`).

## Model

| member | source | states |
|---|---|---|
| `CredentialSaga.CredentialSaga.Survives` | internal/app/credential_saga.go:96-154 | crash atomicity: after any of the four operations, cut at any call or not, and any number of recoveries, each cut or not, a recovery that reports success leaves no operation pending and the connection's row and secrets either exactly as they were or changed exactly once and completely, other writers' edits aside |
| `CredentialSaga.CredentialSaga.WriteCredential` | internal/app/credential_saga.go:191-218 | success means the operation happened once and completely; without faults and other writers it succeeds exactly if the catalog has the connection, at the recorded revision and reference, and no operation pending for it; in every other case, crashes included, the world stays consistent and the operation is pending in a state recovery knows, or undone |
| `CredentialSaga.CredentialSaga.DeleteCredential` | internal/app/credential_saga.go:220-259 | the same for removing a password and for deleting a connection with its password |
| `CredentialSaga.CredentialSaga.ApplyAndInspect` | internal/app/credential_saga.go:270-296 | the state it reports is true of the table even if the apply call lied; without faults and other writers it is decided by the compare-and-swap |
| `CredentialSaga.CredentialSaga.FinishApplied` | internal/app/credential_saga.go:298-312 | ends an applied operation, a replaced secret being retired first; it can only end in the after state |
| `CredentialSaga.CredentialSaga.CompensateNewCredential` | internal/app/credential_saga.go:314-321 | never reports success; if the operation row goes, row and secrets are those of before |
| `CredentialSaga.CredentialSaga.CompensateOldCredential` | internal/app/credential_saga.go:323-335 | the same for a secret that has to be put back |
| `CredentialSaga.CredentialSaga.DeleteAndVerify` | internal/app/credential_saga.go:450-461 | the verdict tells what a read finds, whatever the delete call reported |
| `CredentialSaga.CredentialSaga.Save` | internal/app/credential_saga.go:96-106 | rejected exactly for a connection that has a reference or no revision, and then nothing is touched; without faults and other writers it succeeds exactly if the connection is in the catalog as it was read and has no operation pending; success leaves the row with the new reference, password authentication and the next revision, and the new secret as the only one of the connection; otherwise the outcome is tracked from the state it was called in |
| `CredentialSaga.CredentialSaga.Replace` | internal/app/credential_saga.go:108-119 | rejected exactly without a reference; without faults and other writers it succeeds exactly if the connection is in the catalog as it was read and has no operation pending; success leaves the row with the new reference, password authentication and the next revision, and the new secret as the only one, the old one being gone; otherwise tracked |
| `CredentialSaga.CredentialSaga.Remove` | internal/app/credential_saga.go:121-131 | rejected exactly without a reference or with an invalid target authentication; without faults and other writers it succeeds exactly if the connection is in the catalog as it was read and has no operation pending; success leaves the row without a reference, with the target authentication and the next revision, and no secret of the connection; otherwise tracked |
| `CredentialSaga.CredentialSaga.DeleteConnection` | internal/app/credential_saga.go:133-141 | rejected exactly without a revision; without faults and other writers it succeeds exactly if the connection is in the catalog as it was read and has no operation pending; success leaves neither row nor secret; otherwise tracked |
| `CredentialSaga.CredentialSaga.RecoverOperation` | internal/app/credential_saga.go:337-369 | success means the operation is gone, and that it happened completely if its catalog change was in or its secret step was taken, and was undone otherwise; without faults and other writers it succeeds exactly for a recoverable operation |
| `CredentialSaga.CredentialSaga.RecoverPrepared` | internal/app/credential_saga.go:371-397 | a prepared operation goes on exactly if its secret step was taken, else it is dropped and nothing of it is left |
| `CredentialSaga.CredentialSaga.RecoverySecretState` | internal/app/credential_saga.go:399-420 | the same decision for one in phase secret_changed, changing nothing when it goes on |
| `CredentialSaga.CredentialSaga.VerifyAppliedRecoveryState` | internal/app/credential_saga.go:422-436 | it says yes only with the new secret in the store or, for a removal, the old one gone; without faults it always does |
| `CredentialSaga.CredentialSaga.Recover` | internal/app/credential_saga.go:143-154 | success leaves the operation table empty, each operation carried on or undone as its state called for (`Settles`), and those over before as they were; without faults and other writers it succeeds exactly if every pending operation is recoverable; with an empty table it touches no secret and, other writers aside, changes nothing, so a second run does nothing |
| `CredentialSaga.CredentialSaga.RecoverUntilDone` | internal/app/credential_saga.go:143-154 | recovery can be cut and run again any number of times: once it succeeds the followed operation is undone or done |
| `CredentialWorld.CreateKeeps` | internal/catalog/credential_operations.go:33-66 | storing an operation row keeps the coverage invariant: every catalog reference resolves or belongs to a pending removal of that connection, every stored secret is in use or named by a pending operation |
| `CredentialWorld.PhaseKeeps` | internal/catalog/credential_operations.go:106-135 | so does recording a phase |
| `CredentialWorld.ApplyKeeps` | internal/catalog/credential_operations.go:150-245 | so does the compare-and-swap, if the secret step was taken; a deletion takes the operation row with it |
| `CredentialWorld.DropKeeps` | internal/catalog/credential_operations.go:137-146 | so does forgetting an operation whose effects are undone or complete, and it then is exactly before or exactly after |
| `CredentialWorld.PutKeeps` | internal/app/credential_saga.go:191-204 | so does storing the new secret or putting back the old one |
| `CredentialWorld.EraseKeeps` | internal/app/credential_saga.go:450-461 | so does erasing a secret the operation removes or undoes |
| `CredentialWorld.DriftKeeps` | internal/catalogrepo/connection_repository.go:157-305 | so does anything other writers commit in between |
| `CredentialWorld.TicketsAreLocal` | internal/app/credential_saga.go:143-154 | work on one connection never touches what is said of an operation on another |
| `CredentialWorld.TicketFor` | internal/app/credential_saga.go:337-369 | every pending operation of a consistent world is in a state its own steps can have led to |
| `CredentialWorld.PlainIsDrift` | internal/catalogrepo/connection_repository.go:212-305 | edits, moves, new connections and plain deletions are among what the saga is proved to withstand |
| `CredentialWorld.EditsStrandExactly` | internal/catalog/credential_operations.go:186-191 | an edit makes a pending operation unrecoverable if and only if its secret step was taken and its catalog step was not |
| `CredentialWorld.EditsStrandOperations` | internal/catalog/credential_operations.go:186-191 | a concrete consistent world where that happens |
| `Tunnels.RunInv` | internal/app/tunnel.go:190-420 | in every interleaving, whenever the lock is free: at most 16 live and 32 terminal entries, every uncompleted run is the mapped entry of its tunnel, versions grow and completions differ |
| `Tunnels.NextInv` | internal/app/tunnel.go:190-542 | every locked section keeps all of that |
| `Tunnels.RunProgress` | internal/app/tunnel.go:216-393 | attempts are never reused, versions strictly grow with every change, states only advance, a cancelled attempt ends Stopped and never Failed, nothing starts after close |
| `Tunnels.IdsAreNeverReused` | internal/app/tunnel.go:216-247 | over any run, an admitted start gets an id, and every admission an attempt number, that no attempt ever had before; an admitted retry keeps its tunnel's id under a higher version |
| `Tunnels.CloseJoinsEverything` | internal/app/tunnel.go:523-542 | once the attempts Close waits for are done, no run is unfinished and no attempt is ever made or changed again |
| `Tunnels.AttemptsAreIsolated` | internal/app/tunnel.go:344-458 | callbacks, completion and a stop naming an attempt reach no other attempt; late or stale ones do nothing |
| `Tunnels.CompletedRunIsKept` | internal/app/tunnel.go:372-393 | the run that just completed is never evicted |
| `Tunnels.CompleteDoes` | internal/app/tunnel.go:372-393 | a run ends as failed if and only if it failed and neither its own context nor the service was cancelled, otherwise as stopped; the diagnostic becomes the summary exactly for a failure that had none; no other attempt changes |
| `Tunnels.EvictionDoes` | internal/app/tunnel.go:408-420 | a tunnel is forgotten at a completion only when it is over, 32 others that are over remain, and each of these completed later |
| `Tunnels.ReadyDoes` | internal/app/tunnel.go:344-356 | a ready callback is heeded if and only if its attempt is starting: it becomes active with the scope of its mode, one version on; the other checks never decide |
| `Tunnels.DiagnosticDoes` | internal/app/tunnel.go:357-369 | a diagnostic is recorded if and only if it is new and the attempt is starting or active |
| `Tunnels.StopDoes` | internal/app/tunnel.go:422-465 | a stop reaches exactly the attempt its tunnel has now, if it names no other, while that is starting or active, and leaves it stopping and cancelled |
| `Tunnels.DismissDoes` | internal/app/tunnel.go:509-521 | a tunnel is forgotten if and only if its run is over |
| `Tunnels.CloseDoes` | internal/app/tunnel.go:523-536 | closing makes every starting or active attempt stopping and cancelled and changes no other |
| `Tunnels.AdmitDoes` | internal/app/tunnel.go:216-272 | a start or retry is admitted if and only if the service is open, fewer than 16 runs are unfinished, and a retried tunnel is known, over and of the same connection; what it adds is one starting attempt with the next number, id and version |
| `Tunnels.RefusalMeans` | internal/app/tunnel.go:249-272 | not found means exactly the retry of a tunnel that an open service does not know |
| `Tunnels.TunnelService.AdmitLocked` | internal/app/tunnel.go:249-272 | refuses exactly a closed service, an unknown or live retry, a retry for another connection, or a seventeenth live run |
| `Tunnels.TunnelService.Start` | internal/app/tunnel.go:190-247 | what counts is the second check, after any activity of others; refused at the first, nothing has happened |
| `Tunnels.TunnelService.ReadyCallback` | internal/app/tunnel.go:344-356 | exactly the Ready step: only a current, uncancelled, starting attempt becomes active |
| `Tunnels.TunnelService.DiagnosticCallback` | internal/app/tunnel.go:357-369 | exactly the Diagnostic step |
| `Tunnels.TunnelService.CompleteRun` | internal/app/tunnel.go:372-393 | the last section of a run with its eviction is exactly the Complete step |
| `Tunnels.TunnelService.EvictLocked` | internal/app/tunnel.go:408-420 | forgets terminal entries only, down to 32, and keeps those with the largest completion numbers |
| `Tunnels.TunnelService.StopOneAttempt` | internal/app/tunnel.go:442-465 | exactly the StopAttempt step: a stale token changes nothing |
| `Tunnels.TunnelService.CloseBegin` | internal/app/tunnel.go:523-536 | closes, stops every mapped attempt, and waits for exactly those |
| `Forwarding.NextInv` | internal/sshclient/forwarding.go:102-420 | every step of acceptor, workers and cleanup keeps the ownership of each connection, close-once, and the slot count |
| `Forwarding.NothingLeaks` | internal/sshclient/forwarding.go:216-248 | when RunTunnel returns, every accepted or dialed connection was closed exactly once, the table is empty, no worker runs and no slot is held |
| `Forwarding.LateTrackersClose` | internal/sshclient/forwarding.go:141-153 | no connection is closed twice; one tracked after the cleanup's snapshot is closed by whoever tracked it, having seen the cancelled context under the same lock |
| `Forwarding.TableIsBounded` | internal/sshclient/forwarding.go:290-338 | at most 64 slots are held and at most 129 connections tracked |
| `Forwarding.SlotOutlivesSource` | internal/sshclient/forwarding.go:321-327 | a slot is freed only after its source is closed and untracked and the worker holds nothing else |
| `Forwarding.ServesUntilStopped` | internal/sshclient/forwarding.go:290-340 | over any run, until the root, a watchdog or the listener stops it, the tunnel is not cancelled, the acceptor does not end and no cleanup starts, however many clients are refused |
| `Forwarding.AdmissionIsByCapacity` | internal/sshclient/forwarding.go:320-338 | an accepted client gets a slot and a worker if and only if fewer than 64 are taken, and is refused if and only if all are |
| `Forwarding.OverflowCostsOneClient` | internal/sshclient/forwarding.go:329-337 | refusing a client closes and untracks that client, changes nothing else, and returns to accepting |
| `Forwarding.StopCostsOneClient` | internal/sshclient/forwarding.go:296-319 | a client that arrives at a stopped tunnel, or with an error, is closed and untracked alone; then the acceptor ends, except that a remote listener without an error is drained |
| `Forwarding.WorkerEnds` | internal/sshclient/forwarding.go:321-327 | a worker whose copying is over closes and untracks both its connections once, frees its one slot, leaves, and changes nothing else |
| `Forwarding.ClientsAreIsolated` | internal/sshclient/forwarding.go:321-420 | only its own worker and the final cleanup change a worker's connection, only the acceptor and the cleanup one the acceptor holds, nothing one that is gone |
| `Forwarding.WorkersAreIsolated` | internal/sshclient/forwarding.go:321-420 | a worker is moved or ended by its own steps only |
| `LogicalPaths.ParseRender` | internal/domain/path.go:10-55 | a rendered path parses back to its names exactly when no name is `.` or `..` |
| `LogicalPaths.RenderParse` | internal/domain/path.go:10-55 | every accepted path is the rendering of its segments |
| `LogicalPaths.RenderStep` | internal/catalogrepo/connection_repository.go:495-526 | the root's path is a slash, and a step down adds a slash and the name |
| `CatalogTree.TransactKeepsTree` | internal/catalogrepo/folder_repository.go:26-328 | every create, rename, update, move, delete and credential change keeps one tree: a single root, folders as the only inner nodes, no cycles, different names among siblings |
| `CatalogTree.RunsKeepTree` | internal/catalogrepo/folder_repository.go:26-328 | so does every sequence of them, and revisions only grow, ids never come back |
| `CatalogTree.TransactEvolves` | internal/catalogrepo/connection_repository.go:157-334 | an unchanged node revision means an unchanged row, an unchanged catalog revision means unchanged rows |
| `CatalogTree.RevisionPinsRow` | internal/catalog/credential_operations.go:193-234 | over any run, a node has its old revision if and only if its whole row, reference included, is the old one |
| `CatalogTree.OperationStays` | internal/catalog/migrations/001_initial.sql:114-128 | no transaction ends a pending operation, or deletes its connection, except those that work on that operation |
| `CatalogTree.CyclesAreRefusedExactly` | internal/catalogrepo/folder_repository.go:201-270 | a move is refused as a cycle if and only if the destination lies in the moved subtree, and those are the moves after which the rows could not be a tree |
| `CatalogTree.PathsAndIdsAreInverse` | internal/catalogrepo/connection_repository.go:396-526 | a node within depth 100 has a path; it resolves to the node if and only if no name on it is `.` or `..`; any path that resolves to the node is that path |
| `CatalogTree.DotFolderIsUnreachable` | internal/domain/node.go:16-26 | a concrete catalog with a folder named `.`, created by the ordinary transaction, whose path is refused |
| `CatalogEffects.NamesResolve` | internal/catalogrepo/connection_repository.go:396-437 | a selector resolves to a node within reach if and only if it is the node's id, or the node's path with no name on it being `.` or `..` |
| `CatalogEffects.PathsFollowParents` | internal/catalogrepo/connection_repository.go:495-526 | a node's path is its parent's, a slash, and its name |
| `CatalogEffects.AcceptedIsNamed` | internal/catalogrepo/connection_repository.go:396-437 | no request is accepted whose selectors name no such node |
| `CatalogEffects.CreateIsExact` | internal/catalogrepo/folder_repository.go:26-72 | accepted if and only if the parent is a folder as expected, less than 100 deep, and the name is valid and free in it; adds exactly one row, at revision 1, without a reference |
| `CatalogEffects.RenameIsExact` | internal/catalogrepo/folder_repository.go:153-199 | accepted if and only if the node is a folder other than the root, at the expected revision, and the new name is valid and free beside it; that row gets the name and the next revision, and no other row or column changes |
| `CatalogEffects.UpdateIsExact` | internal/catalogrepo/connection_repository.go:157-244 | the same for a connection's name and other columns; what the request does not bring, and the reference, stay |
| `CatalogEffects.MoveFolderIsExact` | internal/catalogrepo/folder_repository.go:201-270 | accepted if and only if both ends are as expected, the name is free at the destination, that is not in the moved subtree, and the depths allow it; the moved row gets the new parent and the next revision, and no other row changes |
| `CatalogEffects.MoveConnectionIsExact` | internal/catalogrepo/connection_repository.go:246-305 | the same for a connection |
| `CatalogEffects.DeleteFolderIsExact` | internal/catalogrepo/folder_repository.go:272-328 | accepted if and only if the folder is not the root, as expected, not too high, without a pending operation in it, and childless or, recursively, pinned by the snapshot; exactly its subtree goes |
| `CatalogEffects.DeleteConnectionIsExact` | internal/catalogrepo/connection_repository.go:307-334 | accepted if and only if at the expected revision and without a pending operation; exactly that row goes |
| `CatalogEffects.CredentialIsExact` | internal/catalog/credential_operations.go:150-245 | succeeds if and only if the operation is pending and revision and reference are the recorded ones; sets or clears the reference with the authentication columns under the next revision, or takes row and operation away |
| `CatalogEffects.OperationsAreExact` | internal/catalog/credential_operations.go:33-146 | an operation is stored if and only if the node is a connection without one; storing and ending change no row and no revision |
| `CatalogEffects.RefusalsAreExplained` | internal/catalogrepo/folder_repository.go:26-328 | each error of a refused request has the cause that it names |
| `CatalogRepository.Repository.PathForNode` | internal/catalogrepo/connection_repository.go:495-526 | on any rows, cyclic ones included, a path is found exactly if the root is within 100 steps |
| `CatalogRepository.Repository.ResolveSelector` | internal/catalogrepo/connection_repository.go:396-437 | the loop over the segments resolves as the walk from the root does |
| `CatalogRepository.Repository.ReadSubtree` | internal/catalogrepo/folder_repository.go:372-415 | lists the subtree, each node once with its distance, or refuses exactly if it is deeper than 100; the cycle guard never fires on a tree |
| `CatalogRepository.Repository.MatchesSnapshot` | internal/catalogrepo/folder_repository.go:417-437 | accepts if and only if the snapshot pins exactly the subtree's nodes at their revisions |
| `CatalogRepository.Repository.Create` | internal/catalogrepo/folder_repository.go:26-72 | commits the create transaction of the tree, or reports its error and changes nothing, also when the new node would be too deep |
| `CatalogRepository.Repository.RenameFolder` | internal/catalogrepo/folder_repository.go:153-199 | commits the rename transaction, whose exact condition and effect are `RenameIsExact`, or reports its error and changes nothing |
| `CatalogRepository.Repository.UpdateConnection` | internal/catalogrepo/connection_repository.go:157-244 | the same for update and `UpdateIsExact` |
| `CatalogRepository.Repository.MoveFolder` | internal/catalogrepo/folder_repository.go:201-270 | the same for moving a folder and `MoveFolderIsExact`, its checks in their order |
| `CatalogRepository.Repository.MoveConnection` | internal/catalogrepo/connection_repository.go:246-305 | the same for moving a connection and `MoveConnectionIsExact` |
| `CatalogRepository.Repository.DeleteFolder` | internal/catalogrepo/folder_repository.go:272-328 | the same for delete, refused and rolled back if an operation is pending anywhere in the subtree; the counts are those of the deleted subtree |
| `CatalogRepository.Repository.DeleteRows` | internal/catalogrepo/folder_repository.go:303-324 | deleting deepest first removes exactly the subtree, each row childless when its turn comes; it stops exactly if a connection of the subtree has a pending operation |
| `CatalogRepository.NothingHangs` | internal/catalogrepo/folder_repository.go:297-307 | why it is: every child of a listed row is listed earlier |
| `CatalogRepository.Repository.DeleteConnection` | internal/catalogrepo/connection_repository.go:307-334 | commits the plain deletion, or changes nothing and reports why, a pending operation included |
| `CatalogRepository.Repository.ApplyCredential` | internal/catalog/credential_operations.go:150-245 | changes a connection only under a pending operation and only if both revision and reference are the recorded ones; a deletion takes the operation row with it |
| `CatalogRepository.Repository.BeginCredential` | internal/catalog/credential_operations.go:33-66 | an operation row is stored exactly for a connection that has none, and no node changes |
| `CatalogRepository.Repository.EndCredential` | internal/catalog/credential_operations.go:137-146 | forgets the row if there is one, and nothing else |
| `FolderDelete.FolderService.BuildDeleteScope` | internal/app/folder_delete.go:99-161 | what many transactions read is the exact subtree, with its revisions, connections and counts, in a single state that the log shows the catalog was in during the call; undisturbed it succeeds exactly if all paths can be read |
| `FolderDelete.IsValidSnapshot` | internal/app/folder_delete.go:163-178 | accepts exactly non-empty snapshots of different non-empty ids with revisions |
| `FolderDelete.FolderService.Delete` | internal/app/folder_delete.go:34-97 | under any interleaved transactions: a success deleted exactly the subtree confirmed in a state the catalog was in during the call; the last committed request is its own final transaction, which in the state it found dropped only rows unchanged since then and none that carries a credential reference; the counts are those confirmed; undisturbed, a recursive one succeeds exactly if the request confirms what is there and no operation is pending in it, and another one exactly if its transaction accepts the state it finds |
| `FolderDelete.FolderService.DeleteWithCredential` | internal/app/credential_saga.go:220-259 | as the catalog sees the saga for one connection: a success is logged as a compare-and-swap on the row that was read and the connection is gone; undisturbed it succeeds exactly if the row is unaltered and no operation is pending, and otherwise leaves rows and operations as they were |
| `FolderDelete.FinalDeletion` | internal/app/folder_delete.go:63-96 | a snapshot match at the final delete means every row is the one seen at preflight, still without a reference |
| `FolderDelete.SameSnapshot` | internal/app/folder_delete.go:180-194 | equal lengths and every entry the last one for its id on the other side; for snapshots that name each id once, equality as sets of id and revision |
| `ConnectionDelete.UnpinnedDeletionsOrphan` | internal/app/connections.go:236-261 | others can make a plain delete drop a reference if and only if it names no expected revision, or finds the connection by path and expects a revision of at least 2 |
| `ConnectionDelete.ConnectionService.Delete` | internal/app/connections.go:236-273 | a plain success is the last committed request, a saga's success a logged compare-and-swap that dropped the very row that was read; with an expected revision and an id, or undisturbed, the plain path drops no reference; undisturbed it is refused exactly if the connection is missing, unreadable, has another revision or a pending operation |
| `Socks.Request` | internal/sshclient/socks.go:16-99 | the outcome, the bytes taken and the bytes sent are those of the parser below |
| `Socks.RoundTrip` | internal/sshclient/socks.go:16-99 | any supported greeting and CONNECT request followed by anything yields that target, sends `05 00` and leaves the rest unread |
| `Socks.OnlyEncodings` | internal/sshclient/socks.go:16-99 | whatever is accepted is such an encoding and is all that was read |
| `Socks.ReadsAreBounded` | internal/sshclient/socks.go:16-99 | no input makes it read more than 519 bytes |
| `Socks.Refusals` | internal/sshclient/socks.go:29-79 | codes 0, 7 and 8 for no acceptable method, another command, an unknown address type |
| `Socks.RefusalMeans` | internal/sshclient/socks.go:29-79 | and only for these |
| `Socks.Layout` | internal/sshclient/socks.go:49-99 | where the bytes of an encoded request stand: version, command, reserved byte, address type, address, and the port with its high byte first |
| `SecretEditor.SecretEditor.Session` | internal/terminal/secret_editor.go:35-76 | any sequence of keys and pastes does what it does in a plain before/selection/after editor; cursor and anchor stay in range, the text stays within 4096 bytes, no buffer is ever forgotten, and every buffer ever made but the current one is zero |
| `SecretEditor.SecretEditor.Paste` | internal/terminal/secret_editor.go:78-95 | line breaks are dropped; any other control character rejects the whole paste with text, cursor and selection unchanged |
| `SecretEditor.SecretEditor.Insert` | internal/terminal/secret_editor.go:97-132 | replaces the selection, or changes nothing but the status when over the limit, malformed or not printable; every buffer it drops is zero |
| `SecretEditor.SecretEditor.Remove` | internal/terminal/secret_editor.go:209-218 | the new buffer is the old one without the span, the old buffer is zero, and no earlier buffer is forgotten |
| `SecretEditor.SecretEditor.MoveLeft` | internal/terminal/secret_editor.go:134-146 | moves, collapses, extends or shrinks the selection as the plain editor does |
| `SecretEditor.SecretEditor.MoveRight` | internal/terminal/secret_editor.go:148-160 | the same to the right |
| `SecretEditor.SecretEditor.MoveTo` | internal/terminal/secret_editor.go:162-185 | the same for both ends of the line |
| `SecretEditor.SecretEditor.Render` | internal/terminal/secret_editor.go:235-255 | the display and the caret's column depend on lengths only |
| `SecretEditor.SecretEditor.Bytes` | internal/terminal/secret_editor.go:257-265 | the bytes decode as UTF-8 to exactly the text, and have the length computed beforehand |
| `SecretEditor.SecretEditor.Wipe` | internal/terminal/secret_editor.go:267-273 | afterwards every buffer that existed is zero |
| `SecretEditor.HandleKeepsSound` | internal/terminal/secret_editor.go:45-132 | every event keeps limit and printability; a rejection changes only the status |
| `SecretEditor.MovesKeepText` | internal/terminal/secret_editor.go:134-185 | no movement changes the text |
| `SecretEditor.ShiftedStepsCancel` | internal/terminal/secret_editor.go:134-160 | a shifted step and the step back cancel |
| `SecretEditor.TypingIsUndone` | internal/terminal/secret_editor.go:187-207 | backspace, or left and delete, undo one typed rune |
| `SecretEditor.EntryReplaces` | internal/terminal/secret_editor.go:97-132 | a typed or pasted text takes the place of the selection, with the cursor behind it and nothing selected, if and only if the result is at most 4096 bytes; otherwise nothing but the status changes |
| `SecretEditor.RemovalsAreExact` | internal/terminal/secret_editor.go:187-218 | backspace and delete take out the selection, or the one rune before or after the cursor if there is one, and leave the cursor there |
| `SecretEditor.Moved` | internal/terminal/secret_editor.go:134-185 | where each moving key leaves cursor and anchor, by index |
| `SecretEditor.UnbrokenKeepsOrder` | internal/terminal/secret_editor.go:78-92 | of a paste exactly the runes that are no line breaks are kept, in their order |
| `SecretEditor.MaskingIsExact` | internal/terminal/secret_editor.go:235-255 | the display has one star for each rune and a bracket at either end of a selection; where the caret stands |
| `SecretEditor.EncodesExactly` | internal/terminal/secret_editor.go:257-265 | the encoding is the only byte string that a decoder following the table of RFC 3629 (leading bytes, continuation bytes, shortest form, scalar values) decodes to the text |
| `SecretEditor.PlainTextIsItself` | internal/terminal/secret_editor.go:257-265 | text of one-byte runes is its own encoding |
| `SecretEditor.EncodeInjective` | internal/terminal/secret_editor.go:257-265 | different secrets have different bytes |
| `Viewport.TrapsExactly` | internal/tui/viewport.go:108-121 | the 128-by-64 division traps if and only if the product is at least divisor times 2^64 |
| `Viewport.RoundsHalfUp` | internal/tui/viewport.go:108-121 | the result is the exact quotient rounded half up whenever that fits a signed word |
| `Viewport.ThumbIsProportional` | internal/tui/viewport.go:91-106 | the thumb is the visible share rounded half up, or one row where that is less, and fills the track if and only if the track is one row |
| `Viewport.ThumbStands` | internal/tui/viewport.go:91-106 | its top is the scrolled share of the free track, rounded half up; clamping never changes it |
| `Viewport.ThumbFollows` | internal/tui/viewport.go:91-106 | the thumb lies in its track, is at the top at offset 0, flush with the bottom at the maximum offset, and never moves against the scrolling |
| `Viewport.ProjectionIsNearest` | internal/tui/viewport.go:50-89 | the lines shown are those of the content from the offset on; the window is full, shows a valid active line, and of all such windows is nearest to the user's offset |
| `Viewport.ProjectionSettles` | internal/tui/viewport.go:50-89 | projecting again from there changes nothing |
| `Browser.AddChildren` | internal/tui/browser.go:49-94 | refuses exactly unknown parents, empty and duplicate ids, leaving the nodes hung up to the unusable one and no list of children; otherwise keeps a well-formed snapshot |
| `Browser.RowsAreTheVisible` | internal/tui/browser.go:216-243 | the rows are exactly the nodes whose ancestors are all expanded, each once, indented by depth |
| `Browser.RowsAreNested` | internal/tui/browser.go:216-243 | and in preorder: the closest less indented row above a row is its parent |
| `Browser.ChildrenKeepOrder` | internal/tui/browser.go:216-243 | the children of a folder are shown in their order |
| `Browser.CursorKeysKeepOk` | internal/tui/browser.go:289-331 | toggle, right and left keep the selection visible |
| `Browser.CollapseKeepsOk` | internal/tui/browser.go:333-343 | so does closing any folder |
| `Browser.ClosingHides` | internal/tui/browser.go:333-352 | closing a folder hides exactly what is below it |
| `Browser.KeysCancel` | internal/tui/browser.go:289-331 | left undoes right, a second toggle undoes the first |
| `Browser.ToggleDoes` | internal/tui/browser.go:289-300 | the selected folder, the root excepted, is open afterwards if and only if it was closed; nothing else changes |
| `Browser.RightDoes` | internal/tui/browser.go:302-315 | a closed folder is opened; from an open one that is not empty the cursor goes to the next row, its first child's; otherwise nothing changes |
| `Browser.LeftDoes` | internal/tui/browser.go:317-331 | an open folder other than the root is closed; otherwise the cursor goes to the parent, and at the root nothing changes |
| `Browser.CollapseDoes` | internal/tui/browser.go:333-352 | that folder alone is closed, and the cursor goes to it if and only if its own row is hidden |
| `Browser.ChoiceIsNearest` | internal/tui/browser.go:167-177 | with a new snapshot the pending node is selected if it is there, else the previous one, else the nearest surviving ancestor, else the root |
| `Browser.AncestorsAreAbove` | internal/tui/browser.go:210-214 | the folders opened for the selection are exactly those it lies below |
| `Browser.BrowserModel.SetSnapshot` | internal/tui/browser.go:151-214 | selects the pending node, else the previous one, else its nearest surviving ancestor, visible and never overridden by the fallback to the root; keeps the surviving expanded folders |
| `Browser.BrowserModel.RebuildRows` | internal/tui/browser.go:216-243 | the fallback to the root is taken exactly if the selection has no row |
| `Browser.BrowserModel.Move` | internal/tui/browser.go:254-275 | moves by rows and stops at both ends |
| `Browser.BrowserModel.Collapse` | internal/tui/browser.go:333-352 | a selection below the closed folder moves to it |
| `Browser.BrowserModel.Toggle` | internal/tui/browser.go:289-300 | opens or closes the selected folder, the root excepted |
| `Browser.BrowserModel.Right` | internal/tui/browser.go:302-315 | opens the selected folder, else enters it |
| `Browser.BrowserModel.Left` | internal/tui/browser.go:317-331 | closes the selected folder, else goes to its parent |

## Left out

- SQLite itself, migrations, schema checks and file permissions: a transaction is one atomic change of rows, a foreign key or unique index a condition of it.
- Native secret stores, D-Bus, Keychain and their encryption: a faulty map stands for them.
- A second worker recovering while a saga is in flight: the saga results are for one worker that can crash and restart, and other actors leave the operation row of a running saga alone.
- CredentialSaga.CredentialSaga.Recover: says nothing good of an operation whose connection was edited between its secret step and its catalog step; the code keeps the row and reports the conflict.
- CredentialSaga.CredentialSaga.WriteCredential: the wiping of the caller's password copies is not modelled, and neither are the error values behind a failure.
- CredentialSaga.CredentialSaga.RecoverUntilDone: recovery takes pending operations in any order, where the code sorts them by time.
- Browser.AddChildren: the sorting of the children by kind and name; they stay in the order given, folders first.
- The order in which sibling rows, snapshots and credential connections are sorted; results are stated as sets where only the order differs.
- CatalogRepository.Repository.ApplyCredential: the kind, the phase and the other columns of the operation row are arguments here; that they are the stored ones, and the phase test, are modelled in `CredentialWorld.ApplyTx`.
- CatalogRepository.Repository.UpdateConnection: host, port, user name and authentication are one opaque `details` value, so their validation is not modelled.
- CatalogRepository.Repository.ReadSubtree: the recursive query is modelled level by level; the row order it leaves open stays open.
- An absolute depth bound of 100 on every node: a move checks only the moved folder's own path, so none holds.
- FolderDelete.FolderService.Delete: the saga is represented by what it does to the catalog, at most one compare-and-swap on the row that was read, and its effect on the secret store is the subject of `CredentialSaga`.
- ConnectionDelete.ConnectionService.Delete: a path that meanwhile leads to another connection of the same revision is not pinned; `UnpinnedDeletionsOrphan` says exactly when that matters.
- The update and remember paths of the connection service beyond the choice between saga and plain transaction on delete.
- Integers of revisions, versions and attempts are unbounded, where the code uses 64-bit words; `Viewport` is modelled on words.
- Tunnels.TunnelService.Start: request, selector and configuration validation, the list of permitted diagnostic texts, the authentication gate and recovery before a run; a run's outcome is an input.
- Forwarding.NothingLeaks: timers, watchdogs and the joining of the transport; it is about connections, and says what holds when RunTunnel returns, not that it returns.
- Host text: SOCKS results keep address bytes or the domain instead of a printed address; sending the final reply is one constant write.
- SecretEditor.SecretEditor.Paste: the string builder and the pasted string itself are not rune buffers and are not wiped by the code either; ill-formed bytes in a paste arrive as replacement characters.
- Viewport.ProjectionIsNearest: lines are not cut to the width and control sequences not made visible.
- The filter of the tree browser, its rendering, and the loading of folders.
- SSH handshakes, terminals, signals, the command line, JSON output and the other screens: plumbing.
