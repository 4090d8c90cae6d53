# PennCloud: verification of the replicated store, its front ends and its mail server

PennCloud keeps user data in a replicated, partitioned key-value store.  A storage node holds a
tablet in memory, a checkpoint file and an append log; a coordinator elects one primary per
partition; the primary forwards each write to every peer before it applies and answers it.  On top
sit a file and mail front end whose handlers update comma-separated lists by compare-and-swap, an
SMTP server that appends to mailboxes, and a load balancer.

The project models five parts and proves what each promises.

- **One storage node** (`Tablets`, `AdminLists`, `Records`, `ShippedPuts`, `SkippedDeletes`,
  `TornLogs`, `Durability`, `LoggedWrites`, `StorageNode`): the tablet, the exact bytes of its two files, crash recovery as a
  state machine, and the node as a class whose methods are the request handlers.
- **The replicated protocol** (`Views`, `Coordinator`, `Replication`, `Histories`, `Availability`,
  `Failover`, `Agreement`, `SafeSwaps`, `DeletedValue`): any number of nodes and of concurrent
  operations, with crashes, health rounds and rejoins in any order.
- **Compare-and-swap clients** (`CasClients`, `FolderClients`, `Lists`): any number of clients on one list cell, and
  what the handlers do to the list.
- **Mail** (`SmtpSession`, `SmtpDialogue`, `SmtpFraming`, `SmtpWorker`, `Connections`): the session of RFC 5321 as
  the server implements it, the cutting of the byte stream into lines, the worker's in-place buffer,
  and the connection table.
- **Files, JSON, load balancing** (`FileStore`, `FileMoves`, `FileSystems`, `FlatJson`,
  `LoadBalancer`).

Where the code does not do what it is evidently for, the model keeps the code and the theorem says
exactly when the purpose is met:

- `get_token` fills its result only under a local debug flag, `get_fmt_put` puts the row and column
  on the header line, and replay skips one byte too many after a DELETE.  `Records.Build` switches
  each of the three between the shipped and the repaired form; `Records`, `ShippedPuts` and
  `SkippedDeletes` say what each shipped form does to every input, and the repaired form parses
  back exactly.
- CPut reads a column before it tests that it is there (`checkedAt == false` in `Tablets`), so it
  can never create a cell; `FileStore` and `FileMoves` carry the same switch.
- The store client looks at a status variable it never sets, so a mismatch never surfaces as
  KVNoMatch (`CasClients.CPutLoop`).
- The coordinator reads `nodes[-1]` before it tests the index; the value read does not matter
  (`Coordinator.KVMaster.Reelect`).
- A checkpoint that is truncated while a logged write is not yet applied loses that write
  (`Durability.OvertakenWriteIsLost`); a rejoining node brings deleted cells back
  (`DeletedValue.AcknowledgedDeleteUndone`).
- Replay does not notice a log that a crash cut short: the missing bytes of a value become NULs
  (`TornLogs.TornPutIsReplayed`).
- Uploading a second file is not refused and breaks the download (`FileStore.SecondUploadExactly`);
  an empty file cannot be moved (`FileSystems.MoveFilePreservesExactly`); a failed `accept` uses up a
  connection for good (`Connections.FailedAcceptsRefuseEveryone`); a NUL byte stops a mail session
  (`SmtpFraming.NulStalls`).

Strings are sequences of characters that stand for bytes.  A tablet cell is addressed by row and
column; `Contents` is a tablet seen as a map from cells to values, in which empty rows cannot be told
from absent ones.

`dafny verify dfyconfig.toml` checks the whole project.

## Model

| member | source | states |
|---|---|---|
| Tablets.PutContents | src/kv/KVClass.h:507-516 | a tablet put binds one cell and touches no other |
| Tablets.DeleteContents | src/kv/KVClass.h:558-580 | a tablet delete unbinds one cell, reports 1 exactly if it was there, and touches no other |
| Tablets.GetExact | src/kv/KVClass.h:760-786 | a Get answers Value(v) exactly if the cell holds v, and NOT_FOUND exactly if the tablet does not hold the cell |
| Tablets.ReadAfterWrite | src/kv/KVClass.h:507-580 | a Get after a put answers the value put, after a delete NOT_FOUND, and of any other cell what it answered before |
| Tablets.CompareExact | src/kv/KVClass.h:959-999 | repaired CPut commits exactly when the held value matches, absent counting as ""; shipped CPut commits exactly when the column is there and equal, and takes the process down exactly on create-if-absent |
| Tablets.RefusalExact | src/kv/KVClass.h:968-999 | a refused CPut says NOT_FOUND exactly if a value is expected of an absent cell, FAILED_PRECONDITION exactly if the cell holds another value, and nothing else |
| Tablets.EmptyRowsUnobservable | src/kv/KVClass.h:742-786 | tablets equal up to empty rows answer every Get, Put, Delete and CPut alike and stay equal up to empty rows |
| Tablets.CellVerdictIsCompare | src/kv/KVClass.h:959-999 | the compare step depends on the one cell alone |
| AdminLists.Sort | src/kv/KVClass.h:1258-1263 | the result is a sorted permutation, in the order of std::string |
| AdminLists.LessExactly | src/kv/KVClass.h:1258-1263 | the order: a string is below another if it is a proper prefix of it, or has the smaller byte where they first differ |
| AdminLists.AdminList | src/kv/KVClass.h:1242-1282 | gathering the rows in any order, sorting each row's columns, sorting the rows and flattening lists every cell of the tablet exactly once, by row and then column |
| AdminLists.AdminListUnobservable | src/kv/KVClass.h:1242-1282 | such a listing is determined by the contents: tablets equal up to empty rows list alike |
| Records.DecimalReadsBack | src/kv/KVClass.h:127-129 | a printed length is all digits, nonempty, and reads back as itself |
| Records.StoiDecimal | src/kv/KVClass.h:266-272 | stoi of a printed length is that length if it fits 32 bits and an exception otherwise |
| Records.StoiReads | src/kv/KVClass.h:266-272 | with white space and a sign before it and no digit after it, a printed number is read as itself, negated after '-', if it fits 32 bits, and is an exception otherwise |
| Records.TokenExactly | src/common/common_util.h:14-30 | a filled token runs to the next space, carriage return or newline |
| Records.TurnAt | src/kv/KVClass.h:352-413 | one turn of a reader on an encoded record takes exactly that record and its bytes, or dies if a length overflows |
| Records.RecordsParseBack | src/kv/KVClass.h:250-283 | for every sequence of records over arbitrary bytes, reading the concatenated encoding returns that sequence and consumes everything, if and only if every length fits an int |
| Records.ShippedReaderRestoresNothing | src/common/common_util.h:18-27 | with the shipped get_token, replay takes no record of any log and loading ends the process exactly when the file is not empty |
| ShippedPuts.InlinePutNeverReadsBack | src/kv/KVClass.h:499-501 | with the shipped PUT header, no PUT with a value, or with anything after it, is ever read back |
| ShippedPuts.InlinePutReadsBackExactly | src/kv/KVClass.h:375-383 | for all keys, values and tails: a PUT in the shipped layout is read back if and only if it is of the empty value, ends the log, its column is newlines only, its row is a space and a newline repeated, and the lengths fit |
| ShippedPuts.InlinePutOfPlainKeys | src/kv/KVClass.h:375-383 | with newline-free keys that is the PUT of three empty strings only |
| Records.SkippingDeleteReadsBackOnlyLast | src/kv/KVClass.h:399-408 | with the shipped skip after DELETE, a DELETE is read back exactly if and only if it ends the log |
| SkippedDeletes.LateLog | src/kv/KVClass.h:352-413 | a log of PUTs and DELETEs that has lost bytes at its front is never read back as the whole, whatever bytes its values hold |
| SkippedDeletes.SkippingLogReadsBackExactly | src/kv/KVClass.h:407-407 | with only the extra skip left as shipped, replay gives back a whole log of PUTs and DELETEs if and only if every length fits an int and no DELETE precedes another record |
| TornLogs.Layout | src/kv/KVClass.h:484-505 | one record of each kind byte for byte, and the shipped form of a PUT |
| TornLogs.TornPutIsReplayed | src/kv/KVClass.h:375-395 | with the repaired format, a log cut within the value of its last PUT is replayed as all records before it and that PUT with NULs for the missing bytes; the cut is not noticed |
| Durability.ReplayIsLastEffect | src/kv/KVClass.h:326-415 | replay gives each cell the effect of the last record on it and leaves the other cells alone |
| Durability.ReplayIdempotent | src/kv/KVClass.h:326-415 | replaying a log twice gives the contents of replaying it once, for every log and tablet |
| Durability.ShippedRestartExactly | src/kv/KVClass.h:1162-1164 | the shipped node restarts with the contents it had if and only if it had none and its tablet file was empty |
| Durability.SaveThenLoad | src/kv/KVClass.h:156-200 | saving in any order and loading gives the same contents; empty rows are dropped |
| Durability.SyncOverlays | src/kv/KVClass.h:86-115 | pulling a peer's cells in any order gives the local contents overlaid by the peer's |
| Durability.StreamsAgree | src/kv/KVClass.h:1108-1150 | tablets with equal contents send the same key-value pairs, up to order |
| Durability.OverlayDiffersExactly | src/kv/KVClass.h:1178-1199 | after pulling a peer's cells in any order a node differs from the peer exactly at cells it held and the peer does not |
| Durability.MissedWritesOverlay | src/kv/KVClass.h:1178-1199 | a replica that agreed and missed any run of writes agrees again if and only if that run leaves no cell it held deleted |
| Durability.MissedPutsAgreeAgain | src/kv/KVClass.h:1178-1199 | a replica that missed puts and compare-and-puts only agrees again |
| Durability.StepKeepsInvExactly | src/kv/KVClass.h:135-211 | every step of a node whose files hold memory plus the logged, unapplied writes keeps that; a truncation if and only if the checkpoint overtook no logged write that mattered, a pull if and only if it brings nothing new |
| Durability.CrashRecovery | src/kv/KVClass.h:1162-1166 | after any run, a crash at any point comes back with exactly memory plus the logged, unapplied writes, when no truncation overtook one that mattered and the last pull has been checkpointed |
| Durability.RunRecoversExactly | src/kv/KVClass.h:135-211 | every state of a run recovers exactly, if and only if every truncation of it overtook nothing that mattered and every pull brought nothing new |
| Durability.OvertakenWriteIsLost | src/kv/KVClass.h:836-846 | a concrete run in which an acknowledged put is missing after a restart |
| LoggedWrites.RestartGivesLoggedWrites | src/kv/KVClass.h:326-415 | after any careful run of writes, checkpoints and crashes, a restart gives exactly what the logged writes, in order, make of an empty tablet |
| LoggedWrites.MemoryIsLoggedWrites | src/kv/KVClass.h:484-580 | with nothing pending, memory is exactly that too |
| LoggedWrites.OtherStepsPossible | src/kv/KVClass.h:135-211 | a checkpoint can be started and finished with any enumeration of the tablet, a pull made with nothing pending, and a crash come at any time |
| LoggedWrites.WriteCanBeMade | src/kv/KVClass.h:820-846 | outside a checkpoint and with its row free, any write can be logged and then applied, and changes its cell alone |
| Views.RenewIdxNamesPrimary | src/kv/KVClass.h:290-311 | told the address of node p, node n holds the view that stands for p, "self" exactly if n is p |
| Views.RenewIdxStranger | src/kv/KVClass.h:217-227 | told an address outside the partition, a node holds the unknown view |
| StorageNode.KVNode.ConductP | src/kv/KVClass.h:507-516 | the tablet afterwards is the put applied to it |
| StorageNode.KVNode.CheckptLogP | src/kv/KVClass.h:521-552 | the log grows by exactly one encoded PUT record |
| StorageNode.KVNode.DelLog | src/kv/KVClass.h:421-436 | the log grows by exactly one encoded DELETE record |
| StorageNode.KVNode.TblSaving | src/kv/KVClass.h:135-211 | the file becomes an encoded enumeration of the tablet, each cell once, and the log is emptied |
| StorageNode.KVNode.TblLding | src/kv/KVClass.h:232-285 | the tablet becomes the file's records put in order, or the process ends exactly when the parse does |
| StorageNode.KVNode.LogOperation | src/kv/KVClass.h:326-415 | the log's records are applied in order and counted |
| StorageNode.KVNode.StartInitialize | src/kv/KVClass.h:1162-1201 | a restart is the restart function of the two files, overlaid by the chosen peer's contents; with the coordinator out of reach, the files alone |
| StorageNode.KVNode.TabletSync | src/kv/KVClass.h:1108-1150 | the stream lists every cell of the tablet once |
| StorageNode.KVNode.PeerToSynTab | src/kv/KVClass.h:86-115 | the contents become the local ones overlaid by the peer's, and nothing is logged |
| StorageNode.KVNode.RecoverPartition | src/kv/KVClass.h:465-472 | a known view is kept; an unknown one becomes "myself", the peer with the reported address, or stays unknown if nobody has it; it throws exactly when the view is unknown and the coordinator out of reach |
| StorageNode.KVNode.PPut | src/kv/KVClass.h:1032-1064 | a serving backup logs and applies the put, one shut down refuses and changes nothing |
| StorageNode.KVNode.PDelete | src/kv/KVClass.h:1069-1092 | a serving backup logs and applies the delete, one shut down refuses and changes nothing |
| StorageNode.KVNode.MulticP | src/kv/KVClass.h:632-665 | every reachable peer logs and applies the put exactly once, unreachable ones do not change |
| StorageNode.KVNode.MulticD | src/kv/KVClass.h:671-702 | every reachable peer logs and applies the delete exactly once, unreachable ones do not change |
| StorageNode.KVNode.GetRequest | src/kv/KVClass.h:742-786 | the reply is the value the tablet holds in the cell, NOT_FOUND if it holds none, and UNAVAILABLE when not serving |
| StorageNode.KVNode.PutRequest | src/kv/KVClass.h:791-851 | each refusal, and the exception of an unreachable coordinator, changes nothing; a primary leaves the put logged and applied at itself and every reachable peer; others forward once |
| StorageNode.KVNode.DeleteRequest | src/kv/KVClass.h:857-901 | each refusal, and the exception of an unreachable coordinator, changes nothing; a primary leaves the delete logged and applied at itself and every reachable peer; others forward once |
| StorageNode.KVNode.CPutRequest | src/kv/KVClass.h:908-1013 | as a put when the verdict is to commit; otherwise nothing changes but an empty row that may appear |
| Coordinator.HealthRoundElects | src/kv_coordinator.h:39-94 | after a round there is no primary exactly if no node is live, otherwise a live one, the old one unless dead or absent, then the least live index |
| Coordinator.RoundsKeepAddresses | src/kv_coordinator.h:39-94 | over any rounds every node keeps its configured address, its flag is what the last round saw, and an address sent out is the configured one of the least node that answered |
| Coordinator.KVMaster.Reelect | src/kv_coordinator.h:47-92 | one partition's turn elects and announces as specified, whatever the stray read of nodes[-1] yields |
| Coordinator.KVMaster.DoHealthcheck | src/kv_coordinator.h:39-94 | a round sets every node's flag and leaves its address, does to every partition what the election specifies, and announces exactly the new primaries |
| Coordinator.KVMaster.GetPartitionPrimary | src/kv_coordinator.h:96-130 | the answer names the primary and all nodes, or "" and no nodes when there is none |
| Replication.StepKeepsViews | src/kv_coordinator.h:39-94 | every step keeps: a live node's view is unknown or stands for the coordinator's primary |
| Replication.OnePrimaryOneForward | src/kv/KVClass.h:831-850 | at most one live node takes itself for primary; another live node with a known view forwards straight to it |
| Replication.OnePrimaryAlways | src/kv_coordinator.h:39-94 | the same in every state of every run of crashes, elections and rejoins |
| Replication.SyncPeerExactly | src/kv/KVClass.h:1178-1199 | a returning node pulls from the least live node other than itself, and from nobody without a primary |
| Replication.HealthIsRound | src/kv_coordinator.h:39-94 | the protocol's health step is the coordinator's round: same primary, same report, same address sent |
| Replication.StepKeepsInv | src/kv/KVClass.h:791-1013 | every step keeps: each cell of each node holds the effect of the operation its tag names, locks are held by one operation each, acknowledgements are counted |
| Histories.RunTold | src/kv/KVClass.h:836-897 | in every state of every run the operations are those the steps asked for, in order, the acknowledged ones those the Ack steps answered, and each row lock stands for the last operation begun on its row and neither acknowledged nor abandoned, with the sends and the apply that have happened since |
| Availability.RequestCommits | src/kv/KVClass.h:836-846 | a request at the live primary, its row free and its guard met, can be sent, applied and acknowledged; every live node then holds what it asked for and no other cell has changed |
| Availability.HealthServes | src/kv_coordinator.h:39-94 | a health round can always happen, and with a live node leaves a live primary that knows itself |
| Availability.AnyWriteCanCommit | src/kv/KVClass.h:632-702 | from every state runs with safe rejoins reach, with one node live, any put or delete can be carried through without another crash or rejoin |
| Availability.FailuresAndRepairs | src/kv/KVClass.h:1155-1199 | every live node can crash, every dead one come back, and every live one that knows no primary ask for it |
| Failover.StepKeepsGoodExactly | src/kv/KVClass.h:836-846 | every step keeps the invariant "live nodes hold the last acknowledged write or a later one, and what was sent to them is there", a rejoin if and only if it is safe |
| Failover.RejoinFreshExactly | src/kv/KVClass.h:1178-1199 | right after a rejoin every live node holds the last acknowledged write of every cell or a later one, if and only if the node kept no cell that missed one |
| Failover.SafeRejoinExactly | src/kv/KVClass.h:1178-1199 | that stays so whatever happens next short of another rejoin, if and only if the node kept nothing stale and brings every operation in flight whose send to it has failed |
| Failover.AcknowledgedWritesSurvive | src/kv/KVClass.h:889-897 | after every run with safe rejoins, each cell of each live node holds what the last acknowledged of the requested operations on it asked for, or a later-requested unacknowledged one |
| Failover.WithoutRejoinsAllSurvive | src/kv_coordinator.h:44-79 | in runs without rejoins the same holds with no condition |
| Failover.QuietRejoinSafe | src/kv/KVClass.h:1178-1199 | a rejoin with nothing in flight and a live peer is safe if nothing was ever deleted or the peer holds every cell the node holds |
| Failover.QuietRunsSurvive | src/kv/KVClass.h:1178-1199 | acknowledged writes survive every run of crashes, elections and such rejoins, which can be told without the model's bookkeeping |
| Failover.WithoutDeletesAllSurvive | src/kv/KVClass.h:1178-1199 | in particular every run without deletes whose rejoins happen with nothing in flight and a live peer |
| Failover.UnsafeRejoinShowsStale | src/kv/KVClass.h:1178-1199 | from every unsafe rejoin, at once or after the operation in flight is sent to the others, applied and acknowledged, a live node holds an effect older than an acknowledged one |
| DeletedValue.AcknowledgedDeleteUndone | src/kv/KVClass.h:1178-1199 | a seven-step run after which a live node answers with a value whose delete was acknowledged |
| Agreement.StepKeepsAgreement | src/kv/KVClass.h:632-702 | without crashes every step keeps: each node shows, in each cell, the last write, or for a locked row the image before or after the operation as it has or has not been delivered there |
| Agreement.ReplicasAgree | src/kv/KVClass.h:1032-1092 | after every crash-free run each replica's cell holds what the last acknowledged requested operation on it asked for, or what the one still under way asks for exactly if its send, or at the primary its apply, has happened |
| Agreement.QuietReplicasEqual | src/kv/KVClass.h:317-320 | with no operation in flight all tablets are equal |
| Agreement.CompareAndPutAtomic | src/kv/KVClass.h:959-1008 | in every run without crashes, every requested compare-and-put that was let through expected what the operation requested before it on its cell left, absent counting as "" |
| SafeSwaps.NoAcknowledgedWriteOverlooked | src/kv/KVClass.h:959-1008 | in every run of crashes, elections and safe rejoins, every compare-and-put that started expected what some earlier operation on its cell left there, and no acknowledged operation on the cell lies between the two |
| CasClients.StepKeepsInv | src/frontend_servers/req_handling.cc:624-653 | every step of any clients keeps the chain of committed swaps, one link per success |
| CasClients.SwapsLinearize | src/kv/storage_client.h:197-267 | for any clients, interleaving, stale reads and five tries each, the committed values form a chain v(k+1) = f(v(k)) with exactly one link per successful client |
| CasClients.ShippedNeverCreates | src/kv/KVClass.h:987-989 | with the shipped CPut an absent list cell is never created by any run |
| CasClients.FoldersCreatedOnce | src/frontend_servers/req_handling.cc:624-653 | the list is always the initial entries followed by exactly the folders reported created, in commit order, without duplicates |
| FolderClients.ClientsDoAsProgrammed | src/kv/storage_client.h:197-267 | in every run a client has nothing to do exactly if its program made nothing of the value it read, a success has swapped in what it made of it within five tries, and a failure has tried five times unless the store is down |
| FolderClients.TryExactly | src/kv/KVClass.h:968-999 | a try commits exactly if the cell holds what the client read, absent counting as "" with the repaired compare only, and takes the store down exactly where the shipped compare does |
| FolderClients.ExistedExactly | src/frontend_servers/req_handling.cc:624-644 | "Folder existed" is the answer to exactly the clients that read a list with their folder in it |
| FolderClients.UndisturbedCreates | src/frontend_servers/req_handling.cc:624-648 | an undisturbed client whose folder is not listed commits, with the repaired compare or a list that is there, and the entries are the old ones and the folder |
| CasClients.GetLoop | src/kv/storage_client.h:107-150 | the first OK or NOT_FOUND of at most five answers decides; without one the last failure is thrown |
| CasClients.CPutLoop | src/kv/storage_client.h:213-267 | OK returns, anything else after five tries is a plain error and never KVNoMatch |
| CasClients.GetDefault | src/kv/storage_client.h:197-211 | the value, or the default exactly on NOT_FOUND |
| Lists.SplitLoop | src/frontend_servers/req_handling.cc:298-307 | the loop returns the pieces between delimiters |
| Lists.JoinLoop | src/frontend_servers/req_handling.cc:309-319 | the loop returns the pieces with delimiters between them |
| Lists.JoinSplit | src/frontend_servers/req_handling.cc:298-319 | join(split(s)) = s for every string |
| Lists.SplitJoin | src/frontend_servers/req_handling.cc:298-319 | split(join(ps)) = ps for every nonempty list of delimiter-free pieces |
| Lists.CollapseCommas | src/frontend_servers/req_handling.cc:498-502 | the in-place loop ends, leaves no ",," and keeps the nonempty pieces |
| Lists.CleanUp | src/frontend_servers/req_handling.cc:496-510 | the clean-up yields the nonempty pieces of the list, joined |
| Lists.DeleteUid | src/frontend_servers/req_handling.cc:484-510 | the handler's deletion leaves the nonempty pieces of the list with the UID erased once, joined |
| Lists.DeleteUidExact | src/frontend_servers/req_handling.cc:484-510 | deleting by substring removes exactly the UID if and only if the first entry that contains it is the UID |
| Lists.SameLengthHitsExactly | src/frontend_servers/req_handling.cc:484-494 | for UIDs of equal length the first hit is the UID itself |
| Lists.RemoveFirstFilters | src/frontend_servers/req_handling.cc:484-510 | for distinct UIDs removing the first occurrence is filtering it out, order kept |
| Lists.InboxDeletion | src/frontend_servers/req_handling.cc:484-510 | for distinct, equal-length, nonempty, comma-free UIDs, erasing by substring and cleaning up gives the joined list without that UID |
| SmtpSession.RepliesFit | src/webmail/mailserver.cc:137-322 | no reply is long enough for snprintf to cut it at RSP_LEN |
| SmtpSession.RepliesAreLines | src/webmail/mailserver.cc:137-322 | each reply starts with its three-digit code and ends with CRLF; the cut-off message has no code |
| SmtpSession.ParsePrinted | src/webmail/mailserver.cc:212-216 | an address is recognised as itself exactly if both parts are nonempty words of letters, digits and dots |
| SmtpSession.SessionAlwaysOk | src/webmail/mailserver.cc:205-272 | in every reachable state data mode implies a recipient, a recipient implies a valid sender, and local recipients are known users |
| SmtpSession.MailboxHistory | src/webmail/mailserver.cc:139-187 | each known mailbox is its initial content followed by every completed transaction's text in order, once per occurrence; no other mailbox changes |
| SmtpSession.TransactionDelivers | src/webmail/mailserver.cc:260-272 | DATA, any lines not starting with ".", and "." give exactly those lines after the separator line to each local recipient, and the replies 354, a 550 per unknown user part, 250 |
| SmtpSession.RecipientsOutliveData | src/webmail/mailserver.cc:139-187 | after end of data the recipients stay: MAIL FROM is refused and DATA accepted until RSET |
| SmtpDialogue.RepliesAreDue | src/webmail/mailserver.cc:190-322 | every command, in upper or lower case, draws exactly one reply, determined by the commands accepted before it: HELO only between mails, MAIL FROM after a HELO and before any recipient, RCPT TO after a sender and not for unknown local users, DATA with a recipient, RSET and NOOP after a HELO, QUIT always |
| SmtpDialogue.AddressExactly | src/webmail/mailserver.cc:212-216 | an argument is taken for an address exactly if it is its printed form and both parts are valid |
| SmtpDialogue.DialogueDelivers | src/webmail/mailserver.cc:190-272 | from a fresh connection HELO, MAIL FROM, RCPT TOs, DATA, lines and "." draw 250, 250, a 250 each, 354, the complaints and 250, and put the text with the sender's line into exactly the local recipients' mailboxes |
| SmtpFraming.DrainAppend | src/webmail/mailserver.cc:131-330 | handling what is complete and then more is handling all at once |
| SmtpFraming.ChunkingIrrelevant | src/webmail/mailserver.cc:96-133 | a stream that cannot overflow is handled, however it is cut into reads, as if it had arrived at once, and is never cut off |
| SmtpFraming.NeverCutOffExactly | src/webmail/mailserver.cc:103-120 | no chunking of a stream is cut off for length if and only if at every line start the rest fits 8192 bytes or the line with its CRLF has at most 7169 |
| SmtpFraming.CutOffIsTold | src/webmail/mailserver.cc:103-119 | a client is told that it exceeded the limit exactly if it is cut off, and then last |
| SmtpFraming.StreamSplits | src/webmail/mailserver.cc:131-133 | every NUL-free stream is lines each with its CRLF and an incomplete one |
| SmtpFraming.SplitIsUnique | src/webmail/mailserver.cc:131-133 | and it is so in one way only |
| SmtpFraming.WorkerSplitsAtCrlf | src/webmail/mailserver.cc:96-133 | for any lines of at most 7169 bytes with their CRLF and any chunking, exactly those lines are handled in order up to the first that closes, and nothing is cut off |
| SmtpFraming.MailByAnyChunking | src/webmail/mailserver.cc:96-187 | from the bytes to the mailboxes: under any chunking each known mailbox grows by exactly the texts of the completed transactions, in order |
| SmtpFraming.NulStalls | src/webmail/mailserver.cc:329-329 | a NUL inside a line means nothing after it is ever handled, whatever arrives |
| SmtpWorker.Worker.FindCrlf | src/webmail/mailserver.cc:132-132 | the scan of the NUL-terminated buffer finds the first CRLF before any NUL |
| SmtpWorker.Worker.Append | src/webmail/mailserver.cc:126-129 | the pending bytes grow by the chunk, inside the buffer |
| SmtpWorker.Worker.MoveOut | src/webmail/mailserver.cc:326-327 | the pending bytes lose the handled line and its CRLF |
| SmtpWorker.Worker.Deliver | src/webmail/mailserver.cc:145-182 | the recipient loop delivers as specified |
| SmtpWorker.Worker.CommandMode | src/webmail/mailserver.cc:189-323 | each command changes session and replies as specified |
| SmtpWorker.Worker.Receive | src/webmail/mailserver.cc:101-331 | one read leaves the worker in the state the framing function gives, and no index leaves the 8193-byte buffer |
| Connections.TableConserved | src/webmail/mailserver.cc:64-85 | under every interleaving the occupied slots are the admitted workers' descriptors as a multiset, the counter equals the occupied slots exactly if no failed accept was let in, and below the limit a free slot is found |
| Connections.SlotsHoldLetIn | src/webmail/mailserver.cc:64-85 | by the events alone: the occupied slots are the connects let in less the disconnects, and a client is let in, into a free slot, exactly while there are fewer than 1500 |
| Connections.FailedAcceptsRefuseEveryone | src/webmail/mailserver.cc:64-85 | after 1500 failed accepts every client is refused although every slot is free |
| Connections.ActiveConnections.Enter | src/webmail/mailserver.cc:64-85 | admits into the first free slot, or refuses exactly at the limit |
| Connections.ActiveConnections.Exit | src/webmail/mailserver.cc:107-116 | frees the first slot with the descriptor and counts down |
| FileStore.Storage.CompareAndPut | src/kv/storage_client.h:213-267 | the store changes exactly on a commit, and the storage node goes down exactly on an abort |
| FileStore.Storage.UploadFile | src/frontend_servers/req_handling.cc:819-877 | the store afterwards is the specified upload; refused, and then unchanged, exactly if the bare name is listed; with the shipped compare-and-put an absent list takes the storage node down |
| FileStore.Storage.DownloadFile | src/frontend_servers/req_handling.cc:535-595 | the answer is the specified concatenation, up to the first missing chunk |
| FileStore.UploadDownloadExactly | src/frontend_servers/req_handling.cc:849-868 | for every body the segment loop can count and no prior entry, upload then download gives the body back exactly if the compare-and-put is the repaired one, or the list cell exists, or the body is empty |
| FileStore.UploadStores | src/frontend_servers/req_handling.cc:849-862 | at every offset that is a multiple of 2000000 the upload stores the body from there to the next one, under "k" and the offset in the row "user:untitled" |
| FileStore.UploadLists | src/frontend_servers/req_handling.cc:868-870 | the user's "storage" cell, if it can be written, then holds the old list, a comma unless it was empty, and the entry "untitled:" with the keys |
| FileStore.FetchExactly | src/frontend_servers/req_handling.cc:568-582 | a download gives the chunks one after the other up to the first missing one |
| FileStore.UploadFrame | src/frontend_servers/req_handling.cc:849-868 | an upload changes no other file's content and no cell outside its row and the list |
| FileStore.SecondUploadExactly | src/frontend_servers/req_handling.cc:846-848 | after a second upload the download is the second body only if both bodies are empty (or it is empty and nothing could be listed) |
| FileMoves.HandleMoveFile | src/frontend_servers/req_handling.cc:742-817 | the handler computes the specified move of one file; it takes the storage node down exactly when the shipped compare-and-put finds no list and the target is not empty; if a listed path starts with the target the store stays as it was |
| FileMoves.HandleMoveFolder | src/frontend_servers/req_handling.cc:659-740 | the handler computes the specified move of every entry under the path; it throws exactly when substr goes out of range, which takes an old path with a colon, and takes the storage node down exactly when the shipped compare-and-put finds no list, and leaves the store as it was if the target is listed |
| FileMoves.UnlistedFileStays | src/frontend_servers/req_handling.cc:764-807 | moving a file that is not listed changes nothing, but that the repaired compare-and-put creates an absent list, empty |
| FileMoves.ThrowsExactly | src/frontend_servers/req_handling.cc:704-731 | a folder move throws exactly if it comes, all entries before it movable, to a file whose path is shorter than the old path the entry starts with |
| FileMoves.TargetsNormalised | src/frontend_servers/req_handling.cc:665-760 | targets with and without a final '/' mean the same file, and the same folder |
| FileSystems.FileSystemServes | src/frontend_servers/req_handling.cc:559-582 | in a well-formed store every listed file is downloaded as its content and nothing else is |
| FileSystems.UploadKeepsFileSystem | src/frontend_servers/req_handling.cc:849-868 | an upload into a well-formed store with nothing listed as "untitled" leaves it well-formed with that one file more, whose content is the body |
| FileSystems.FirstUploadMakesFileSystem | src/frontend_servers/req_handling.cc:849-868 | with the repaired compare-and-put a user's first upload makes a well-formed store with that one file |
| FileSystems.MoveFolderPreserves | src/frontend_servers/req_handling.cc:704-731 | every entry under the old path is renamed by prefix, contents, order and all other cells stay, and no listed chunk remains under an old row |
| FileSystems.MoveFilePreservesExactly | src/frontend_servers/req_handling.cc:764-807 | a file with chunks is renamed with its content and nothing else changes; an empty file does not move at all |
| FileSystems.MissingChunkStops | src/frontend_servers/req_handling.cc:764-807 | a listed chunk that is missing stops a move half way: the chunks before it have moved, nothing else has, and the list is as it was |
| FlatJson.ParseJson | src/frontend_servers/req_handling.cc:1171-1222 | the loop computes the scanner function |
| FlatJson.ParsePrinted | src/frontend_servers/req_handling.cc:1171-1222 | for every object without quotes in its strings, the map of its members with structural characters dropped, last duplicate winning, less a last member with an empty part |
| FlatJson.PlainObjectsRoundTrip | src/frontend_servers/req_handling.cc:1171-1222 | the scanner inverts the printer on plain strings, values with ':' and ',' included |
| FlatJson.SpacingIgnored | src/frontend_servers/req_handling.cc:1171-1222 | braces, tabs and newlines anywhere, and outside quotes every character but ":", "," and quotes, change nothing |
| FlatJson.OneMemberExactly | src/frontend_servers/req_handling.cc:1215-1219 | for one member the round trip holds exactly if both strings are plain and not empty |
| LoadBalancer.Balancer.GetNextFrontendPort | src/loadbalancer/load_balancer.cc:65-89 | the lowest of the least loaded live ports is selected, or the first port when none is a candidate, and its count alone grows by one |
| LoadBalancer.CallsConserve | src/loadbalancer/load_balancer.cc:65-89 | n calls raise the total by n, and dead ports are not touched while a live one is below INT_MAX |
| LoadBalancer.Converges | src/loadbalancer/load_balancer.cc:65-89 | after exactly d calls, d being what the live counts are below m, all live counts are m, not before, and from then on they never differ by more than one |

## Left out

- gRPC stubs, deadlines, threads and mutex objects: calls are atomic steps and held row locks are part of the state; in `StorageNode` the sends of a multicast happen one after the other.
- Replication.StepKeepsInv: logging and applying a write at one node is one step, sends happen only while the sender is up and succeed at a live peer, a health round and a rejoin are single steps with accurate liveness; the window between src/kv_server.cc:138 and src/kv_server.cc:146, in which a returning node is synced but not yet reachable, is not modelled.
- Durability.CrashRecovery: a crash in the middle of rewriting the tablet file, and a write that fails, are not modelled; a log torn by a crash is treated on its own (`TornLogs.TornPutIsReplayed`), not as a step of the runs.
- StorageNode.KVNode.PutRequest: forwarding is an answer that names the peer, not a nested call; what gRPC makes of an exception that leaves a handler is not modelled; AdminShutdown and AdminStartup only appear as the serving flag, and the protocol runs have no shutdown.
- Status texts of RPC errors, and the counts of bytes written and lines taken beyond what the contracts name.
- MD5 in row_partition and the stub cache of the store client: one partition is modelled, and which rows it has does not matter.
- Agreement.CompareAndPutAtomic: is of runs without crashes, because a write that a crash abandons may or may not be in the cell the next compare-and-put finds; `SafeSwaps.NoAcknowledgedWriteOverlooked` states what holds of runs with crashes.
- CasClients.SwapsLinearize: the cell is one atomic cell, which `Agreement.CompareAndPutAtomic` justifies for runs without crashes; a crash of its primary under the clients, for which `SafeSwaps.NoAcknowledgedWriteOverlooked` says what the cell still guarantees, and a reply that is lost after the store has committed, are not modelled.
- SmtpSession.MailboxHistory: one worker at a time appends to the mailboxes, every fopen succeeds, and a peer that closes its socket (recv returning 0, on which the loop spins) sends nothing more.
- SmtpSession.ParsePrinted: regex_match is the predicate for its one pattern.
- Outbound mail, DNS lookup and mailbox retrieval of the web mail pages.
- FileStore.UploadDownloadExactly: bodies over 2147483647 - 2000000 bytes overflow the int offset, which is undefined in the source, and are excluded; a chunk under the empty key is excluded because no handler writes one.
- FileSystems.MoveFolderPreserves: requires a target that no listed path starts with and comma- and colon-free names, because otherwise entries collide or cannot be told apart; a listed chunk that is missing stops the handler half way, as `FileMoves` has it.
- handle_rename and handle_delete_folder: their offsets and row names do not match the stored format (a folder delete removes no entry and no chunk), so there is no clean intent to state without rewriting them.
- handle_delete_file: it drops every entry that starts with the given path, whether or not that is the file asked for, and deletes its chunks.
- LoadBalancer.Converges: counts stay below INT_MAX, beyond which the source's increment is undefined; liveness does not change during the calls.
- HTML and JavaScript pages, HTTP routing, the admin console, session ids, cookies, sockets, signals, clocks and logging; the date in a mailbox separator line is a parameter.
