# Saber in Dafny

Saber is a coordination service in the manner of Chubby and ZooKeeper. Servers agree on a log; every server
executes it against a tree of nodes and a table of sessions. This project models that replicated state machine
and the five smaller machines around it, and proves what they keep over whole runs.

## How the model is built

Every component is written twice. First as values: a datatype for the state and a total function for each
operation, with every branch the code has. Properties are lemmas about those functions and about runs of them.
Then, where the code updates objects in place, as a class whose methods go through the same steps as the code and
are proved to compute those functions.

| file | component |
|---|---|
| `Proto.dfy`, `Paths.dfy` | messages; splitting paths; generated suffixes |
| `TreeModel.dfy`, `TreeInvariant.dfy` | what each operation does to `nodes_`, `childrens_`, `ephemerals_`; the invariant tying them together |
| `KillSession.dfy` | deletion of a session's nodes, in any order |
| `Checkpoint.dfy`, `Recovery.dfy` | node and session lists; recovery |
| `ReplicatedLog.dfy`, `MasterRun.dfy` | sessions, `Execute`, logs; runs of the master with its checks |
| `CheckedMaster.dfy` | the checked master against its unchecked followers |
| `Outcomes.dfy` | the exact answers and effects of each command |
| `NodeHistory.dfy`, `NodeContents.dfy` | counters and contents of nodes over runs |
| `SequentialNames.dfy`, `Fencing.dfy` | generated names, session versions and ownership |
| `DataTree.dfy`, `SaberDb.dfy` | the server's objects |
| `Watches.dfy`, `Notification.dfy`, `Announcements.dfy` | one-shot watches; watches under interleaving; who is told of a whole command |
| `SessionPipeline.dfy`, `ClientQueues.dfy` | one session's messages on the server; outstanding requests on the client |
| `BucketWheel.dfy`, `TimerQueue.dfy`, `SessionIds.dfy` | idle connections; timers; session ids |

All lemmas switch Dafny's automatic induction off. Many small steps need no more than the definitions; the proofs that
need an argument spell it out.

## What the code does that its readers may not expect

- The check-only form of Create evaluates `childrens_[parent]` and so leaves an empty entry behind. Delete refuses a
  node that has an entry, empty or not. A checked master can therefore refuse a Delete that its followers carry out.
  `MasterSimulatesFollower` says exactly when replies agree, `ResidueIsReachable` gives runs in which they do not.
- Under a sequential parent the same check looks for the bare name and can refuse a Create that would succeed.
  `CheckCreateExact` says exactly when.
- GetData registers its watch after it has released the lock, and can miss a change made after its read.
  `GetDataHearsIff` says exactly when its watcher hears, `GetDataCanMiss` gives a run in which it does not.
- Exists and GetData return a node's child counters, and no data watch is triggered when these change.
  `UnannouncedChange` says that nothing else changes unannounced, `UnannouncedReachable` shows it with /a and /a/b.
- A request in flight when its client reconnects is answered on the new connection, and the copy that the client sends
  again there is answered too (`AnsweredTwice`). In a release build, without the asserts, the second answer takes a
  newer request of that kind off its queue, which then never gets its callback: `SecondAnswerForgets`, with the run
  `SecondAnswerReachable`. `ReplyFitsIff` says exactly which replies keep the client's queues in step.
- A timer that is set after the clock went back and before the next pass, such as one set by a function that the loop
  runs after the timers (saber/util/runloop.cc:30-33), is shifted with the others and can fire early. `EarlyIff` says
  exactly when, `SetAfterRollback` shows it on the list.
- `Execute` does not ask whether the session of an ephemeral Create is still live: `OwnersAreLiveIff` says exactly when
  every owner is, `DeadOwnerReachable` gives logs after which one is not.
- A Done that took its connection before a reconnect can close the session that the reconnect has just reopened.
  `StaleDoneCloses` says exactly when, `StaleDoneReachable` gives a run.
- An entry that something other than a bucket keeps alive, as the callback at saber/server/saber_server.cc:284 does, is
  not put back into the wheel by a message that comes a whole number of turns after the last one:
  `HeldEntryIsPutBackIff`, `HeldEntryIsLost`.

## Assumptions

- Consensus is given: all replicas of a group execute the same sequence of entries. Where versions are compared
  (`Fencing`), instance ids are positive and strictly increasing.
- An ephemeral Create carries a nonzero session id. `CreateInvIff` shows that the tree invariant needs exactly this.
- A close request is a list of (session, version) pairs; all its producers append to both repeated fields together.
- Counters in a stat are unbounded. In the code they are int32, whose overflow is undefined; lemmas about printed
  suffixes require the counter to be below the int32 maximum. Sizes are reduced modulo 2^32 as the code casts them.
- The clock, mastership, connection loss and allocation of timer addresses are inputs. Callbacks of timers are finite
  scripts of insertions of future timers and of removals.

## Model

| member | source | states |
|---|---|---|
| Paths.ParsePath | saber/server/data_tree.cc:47-59 | a path that is accepted is its parent, a slash and a nonempty child name without slash |
| Paths.BadPathExact | saber/server/data_tree.cc:47-59 | RC_ERRPATH exactly for paths without a slash or ending in one |
| Paths.ParseExact | saber/server/data_tree.cc:47-59 | splitting and joining are inverse, in both directions |
| Paths.SuffixOrder | saber/server/data_tree.cc:88-92 | the fixed-width suffixes of two counter values sort as the values do, and differ |
| Paths.SuffixReads | saber/server/data_tree.cc:88-92 | a suffix is an underscore and ten digits that read as the counter |
| TreeInvariant.CreateInv | saber/server/data_tree.cc:61-128 | Create keeps the cross-map invariant, and the absence of empty child entries |
| TreeInvariant.CreateInvIff | saber/server/data_tree.cc:119-124 | Create keeps the invariant if and only if it fails or does not make an ephemeral node for session 0 |
| TreeInvariant.CheckCreateInv | saber/server/data_tree.cc:95-100 | the check-only Create keeps the invariant, with its possibly empty new entry |
| TreeInvariant.DeleteInv | saber/server/data_tree.cc:137-198 | Delete keeps the invariant, and the absence of empty child entries |
| TreeInvariant.DeleteFindsParent | saber/server/data_tree.cc:165-197 | RC_NO_PARENT is unreachable in Delete, and the check-only form always answers the same code |
| TreeInvariant.SetDataInv | saber/server/data_tree.cc:262-295 | SetData keeps the invariant, and the absence of empty child entries |
| Outcomes.CreateAnswers | saber/server/data_tree.cc:61-100 | RC_ERRPATH, RC_NO_PARENT, RC_PARENT_EPHEMERAL, RC_NODE_EXISTS and RC_OK of Create and of its check, each if and only if its condition on the nodes holds |
| Outcomes.CreateStores | saber/server/data_tree.cc:101-127 | a Create answered RC_OK adds one node, at the path sent back, with the data and type of the request and the group, id, time and owner of the transaction; its parent is recounted and no other node changes |
| Outcomes.DeleteAnswers | saber/server/data_tree.cc:137-168 | RC_ERRPATH, RC_NO_NODE, RC_BAD_VERSION, RC_CHILDREN_EXISTS and RC_OK of Delete and of its check, each if and only if its condition holds |
| Outcomes.DeleteRemoves | saber/server/data_tree.cc:170-197 | a Delete answered RC_OK removes just that node; its parent is recounted and no other node changes |
| Outcomes.EntryMeansChildren | saber/server/data_tree.cc:160-163 | on a replica that runs no checks a node has a child entry if and only if some node is under it |
| Outcomes.SetDataAnswers | saber/server/data_tree.cc:262-295 | RC_ERRPATH, RC_NO_NODE, RC_BAD_VERSION and RC_OK of SetData, each if and only if its condition holds |
| Outcomes.SetDataStores | saber/server/data_tree.cc:283-291 | a SetData answered RC_OK stores the data with its length, id and time and counts the version; the stat sent back is the stored one and no other node changes |
| KillSession.KillIsExact | saber/server/data_tree.cc:341-361 | for every iteration order of the path set each inner Delete answers RC_OK and the final tree is one and the same closed form |
| KillSession.KillStep | saber/server/data_tree.cc:349-352 | with the session already off the index, one more Delete removes one more node and accounts for it in its parent |
| KillSession.KillEffect | saber/server/data_tree.cc:341-361 | precisely the session's nodes go; all others keep type, data, version and owner, and everything if their child set is unchanged |
| KillSession.KillInv | saber/server/data_tree.cc:341-361 | killing a session keeps the invariant, and the absence of empty child entries |
| Checkpoint.RecoverExact | saber/server/data_tree.cc:14-45 | a fresh tree recovered from any node list of a tree is that tree less its empty child entries |
| Checkpoint.SessionsExact | saber/server/session_manager.cc:9-23 | a fresh table recovered from any session list of a table is that table |
| Checkpoint.RecoverMerges | saber/server/data_tree.cc:14-29 | recovery into any tree keeps every node that the list does not name, and child and ephemeral sets only grow, by exactly what the list says |
| Checkpoint.LastRecordWins | saber/server/data_tree.cc:14-29 | a node that the list names takes the value of the last record for it |
| Checkpoint.SessionsMerge | saber/server/session_manager.cc:9-13 | recovery into any table keeps the sessions that the list does not name |
| Checkpoint.LastSessionWins | saber/server/session_manager.cc:9-13 | the last record for a session gives its version |
| Recovery.RestoreExact | saber/server/saber_db.cc:19-59 | a fresh group restored from a checkpoint is the group less empty child entries |
| Recovery.SnapshotPlusSuffix | saber/server/saber_db.cc:19-59 | for every log and split, checkpoint, restore and the rest of the log give the state and the replies of full replay |
| ReplicatedLog.ExecuteInv | saber/server/saber_db.cc:150-224 | every command keeps the invariant, and the absence of empty child entries |
| ReplicatedLog.LogInv | saber/server/saber_db.cc:150-224 | the invariant holds after every log, and without checks no child entry is empty |
| ReplicatedLog.ReplyAt | saber/server/saber_db.cc:150-224 | the k-th reply of a log is what its k-th entry answers in the state it finds |
| Outcomes.CreateEntry | saber/server/saber_db.cc:187-196 | a CREATE entry answers by the exact condition, stores what its request and its transaction say, and changes nothing when refused |
| Outcomes.DeleteEntry | saber/server/saber_db.cc:197-206 | a DELETE entry likewise |
| Outcomes.WriteEntry | saber/server/saber_db.cc:207-216 | a SETDATA entry likewise |
| Outcomes.ConnectEntry | saber/server/saber_db.cc:164-176 | a CONNECT entry answers RC_OK if and only if its version is 0 or the stored one, and then just sets that session to its instance id; otherwise it answers RC_UNKNOWN and changes nothing |
| Outcomes.CloseExactly | saber/server/session_manager.cc:62-73 | for every list of closings, precisely the sessions named with their stored version leave the table, and precisely the nodes of those and of absent sessions named leave the tree |
| Outcomes.CloseEntry | saber/server/saber_db.cc:177-186 | a CLOSE entry sends no reply and does exactly this |
| Outcomes.InvalidEntry | saber/server/saber_db.cc:217-224 | an invalid entry is refused and changes nothing |
| MasterRun.MasterInv | saber/server/saber_db.cc:100-113 | the invariant holds after every interleaving of executed entries and check-only calls |
| CheckedMaster.StripExecute | saber/server/saber_db.cc:150-224 | dropping empty child entries commutes with execution and leaves the reply alone, unless a Delete meets an empty entry |
| CheckedMaster.ResidueDiverges | saber/server/data_tree.cc:160-168 | where a Delete meets an empty entry the master answers RC_CHILDREN_EXISTS and the follower RC_OK |
| CheckedMaster.MasterSimulatesFollower | saber/server/data_tree.cc:95-168 | all replies agree if and only if no executed Delete meets an empty entry; until then the states differ by empty entries only |
| CheckedMaster.CheckedSnapshot | saber/server/saber_db.cc:38-59 | a checkpoint of a checked master restores the state of the unchecked follower |
| CheckedMaster.ResidueIsReachable | saber/server/data_tree.cc:95-168 | for any two names, a three-event run in which master and follower answer differently |
| NodeHistory.EventEvolves | saber/server/data_tree.cc:101-119 | across one event a surviving node keeps its type and creation id, counts its write, and counts each child that came or went |
| NodeHistory.CountersCount | saber/server/data_tree.cc:101-119 | in every run version, children_version, children_num and data_len are what the events since the node's creation say |
| NodeHistory.CountersGrow | saber/server/data_tree.cc:277-290 | within one incarnation the type is fixed and the version counters never go back |
| NodeHistory.VersionIsTicket | saber/server/data_tree.cc:277-290 | at most one SetData with a given explicit version succeeds per incarnation |
| NodeContents.EntrySpares | saber/server/saber_db.cc:150-224 | an entry that does not write a surviving node changes nothing of it but its child fields, which carry the id of the entry if and only if its children changed |
| NodeContents.NodesHoldRequests | saber/server/data_tree.cc:101-124 | in every run every node has the type, owner, group and creation of its Create, and the data and modification of the last successful SetData since, or of the Create |
| NodeContents.NodeIsItsHistory | saber/server/data_tree.cc:101-124 | in every run the whole node is computed from the events alone |
| NodeContents.LastWriteWins | saber/server/data_tree.cc:283-291 | in every run the data of a node is that of the last SetData on it that succeeded, with its id and time |
| NodeContents.FirstDataStays | saber/server/data_tree.cc:106-119 | without one it is that of its Create |
| SequentialNames.RunNumbered | saber/server/data_tree.cc:85-105 | in every run each child of a sequential node carries a suffix that was issued |
| SequentialNames.SequentialCreateSucceeds | saber/server/data_tree.cc:85-105 | a well-formed Create under a sequential node never answers RC_NODE_EXISTS |
| SequentialNames.NamesAreOrdered | saber/server/data_tree.cc:85-105 | under one incarnation of the parent later names sort later and none is issued twice, whatever was deleted |
| SequentialNames.CheckCreateExact | saber/server/data_tree.cc:85-99 | a passed check is sound; check and Create answer differently exactly when the bare name is taken under a sequential parent |
| SequentialNames.RefusedInVainReachable | saber/server/data_tree.cc:85-99 | for any two names, a run after which the check answers RC_NODE_EXISTS and the Create itself would answer RC_OK |
| Fencing.SessionStep | saber/server/session_manager.cc:45-73 | after any entry a stored version is the instance id of the CONNECT just accepted for that session, and otherwise the version stored before |
| Fencing.VersionsNeverReturn | saber/server/session_manager.cc:45-60 | in every log, after an accepted CONNECT the session, while it lives, carries that version or a later one |
| Fencing.StaleCloseIsHarmless | saber/server/saber_db.cc:177-186 | a CLOSE with only other versions of a live session keeps the session and every node it owns |
| Fencing.CloseIsFenced | saber/server/saber_server.cc:386-404 | a CLOSE built from a version read before an accepted CONNECT leaves the live session, its version and all its nodes alone |
| Fencing.OneConnectWins | saber/server/session_manager.cc:45-60 | in every log, once a CONNECT with some nonzero old version has answered RC_OK, each later one of the session with that version answers RC_UNKNOWN and changes nothing |
| Fencing.FreshConnectWins | saber/server/session_manager.cc:45-60 | in every log, a CONNECT with the version that the last CONNECT gave answers RC_OK if nothing touched the session in between |
| Fencing.OwnersAreLiveIff | saber/server/saber_db.cc:164-196 | along every log, each ephemeral node's owner is live after every entry if and only if each ephemeral create that succeeds comes from a live session |
| Fencing.DeadOwnerReachable | saber/server/saber_db.cc:177-196 | for any session and name, a log of a CONNECT, a CLOSE and an ephemeral CREATE after which a node has an owner that is not live |
| Fencing.ClosedOwnsNothing | saber/server/saber_db.cc:177-186 | once a CLOSE entry is processed no session whose close it accepted owns a node |
| Watches.OneShot | saber/server/server_watch_manager.cc:13-53 | in every sequence of calls, events delivered to a (path, watcher) pair, plus a pending registration, never exceed its registrations |
| Watches.RegisteredIff | saber/server/server_watch_manager.cc:13-53 | after any calls a pair is registered if and only if it was added and since then neither the watcher was removed nor the path triggered |
| Watches.ServerWatchManager.RegisteredByCalls | saber/server/server_watch_manager.cc:13-53 | the same of the object and the calls made on it |
| Watches.ServerWatchManager.ToldAtMostRegistered | saber/server/server_watch_manager.cc:13-53 | the same of the object: what it handed to a watcher for a path, counted, plus a pending registration, never exceeds the registrations among the calls made on it |
| Watches.ServerWatchManager.AddWatcher | saber/server/server_watch_manager.cc:13-17 | adds the pair and keeps the two maps inverse without empty sets |
| Watches.ServerWatchManager.RemoveWatcher | saber/server/server_watch_manager.cc:19-32 | removes exactly the watcher's pairs; the unchecked lookup always succeeds |
| Watches.ServerWatchManager.TriggerWatcher | saber/server/server_watch_manager.cc:34-53 | delivers once to exactly the registered watchers and removes exactly their pairs; the unchecked lookup always succeeds |
| Notification.DataChangeAnnounced | saber/server/data_tree.cc:129-134 | a write that creates or deletes a node, or changes its data, version or type, triggers the node's data watches |
| Notification.ChildChangeAnnounced | saber/server/data_tree.cc:200-203 | a write that changes the child set of a node other than the root triggers its child watches |
| Notification.DataAnnouncedIff | saber/server/data_tree.cc:129-134 | in a linked tree a write triggers the data watches of a path if and only if it creates, deletes or rewrites the node |
| Notification.ChildrenAnnouncedIff | saber/server/data_tree.cc:200-203 | in a linked tree a write triggers the child watches of a node other than the root if and only if it changes its child set |
| Notification.UnannouncedChange | saber/server/data_tree.cc:101-119 | a surviving node changes without a trigger of its data watches if and only if its child set changes, and then only in its three child fields |
| Notification.UnannouncedReachable | saber/server/data_tree.cc:101-134 | creating /a/b changes the stat of /a and triggers its child watches but no data watch of it, for any names |
| Notification.HeardIffFired | saber/server/server_watch_manager.cc:34-53 | while a watch is kept, its watcher hears of the path if and only if some trigger for it fires |
| Notification.OwedIsFired | saber/server/data_tree.cc:200-203 | a writer that is done has made every trigger it owed |
| Notification.ExistsMissesNothing | saber/server/data_tree.cc:206-229 | in every interleaving a creation, deletion or rewriting of the node after the read of Exists reaches the watcher by the time the writer is done |
| Notification.GetChildrenMissesNothing | saber/server/data_tree.cc:302-334 | in every interleaving a change of the child set made after the read of GetChildren reaches the watcher likewise |
| Notification.GetDataHearsLateTriggers | saber/server/data_tree.cc:231-260 | a change after the read of GetData reaches the watcher if it comes after the registration, or if its writer still owes the trigger at the registration |
| Notification.GetDataHearsIff | saber/server/data_tree.cc:242-259 | once nobody owes a trigger for the path, the watcher of a GetData has heard if and only if one was owed at its registration or a later write called for one; and never otherwise |
| Notification.GetDataCanMiss | saber/server/data_tree.cc:231-260 | a run in which a change made after the read of GetData goes by unheard |
| Announcements.WriteAnnounces | saber/server/data_tree.cc:129-134 | the triggers of a write are exactly for the nodes it creates, deletes or rewrites and for the child sets it changes |
| Announcements.ToldOfKill | saber/server/data_tree.cc:341-361 | over any number of kills the watchers of all that went, and of all child sets that shrank, are told once |
| DataTreeObject.DataTree.Create | saber/server/data_tree.cc:61-135 | both forms compute the value-level Create, whose answers and effects CreateAnswers and CreateStores state; each watcher of the node or of its parent hears the right event once and is registered no more, and nobody else hears anything |
| DataTreeObject.DataTree.Delete | saber/server/data_tree.cc:137-204 | computes the value-level Delete (DeleteAnswers, DeleteRemoves); the check changes nothing; watchers hear as for Create |
| DataTreeObject.DataTree.SetData | saber/server/data_tree.cc:262-300 | computes the value-level SetData (SetDataAnswers, SetDataStores); the check changes nothing; watchers of the node hear as for Create |
| DataTreeObject.DataTree.Exists | saber/server/data_tree.cc:206-229 | answers from the node and registers the watch whether or not the node is there |
| DataTreeObject.DataTree.GetData | saber/server/data_tree.cc:231-260 | answers the whole node and registers the watch only if it is there |
| DataTreeObject.DataTree.GetChildren | saber/server/data_tree.cc:302-334 | lists each child once and registers the watch only on a node that may have children |
| DataTreeObject.DataTree.RemoveWatcher | saber/server/data_tree.cc:336-339 | removes the watcher from both registries |
| DataTreeObject.DataTree.KillSession | saber/server/data_tree.cc:341-361 | deletes in some order of the path set; from a tree with the invariant the result is the closed form, and each watcher of a deleted node or of a parent hears once |
| DataTreeObject.DataTree.Recover | saber/server/data_tree.cc:14-29 | merges the list node by node |
| DataTreeObject.DataTree.GetDataNodeList | saber/server/data_tree.cc:31-45 | yields every node once with its children, in some order |
| SaberDbObject.SessionManager.Recover | saber/server/session_manager.cc:9-13 | merges the list session by session |
| SaberDbObject.SessionManager.GetSessionList | saber/server/session_manager.cc:15-23 | yields every session with its version |
| SaberDbObject.SessionManager.FindSession | saber/server/session_manager.cc:26-34 | finds a session's version exactly if it is in the table |
| SaberDbObject.SessionManager.CreateSession | saber/server/session_manager.cc:45-60 | compare-and-set on the old version, unconditional for old version 0 |
| SaberDbObject.SessionManager.CloseSession | saber/server/session_manager.cc:62-73 | refused only for a live session with another version |
| SaberDbObject.SaberDB.Execute | saber/server/saber_db.cc:150-224 | computes the step function for its group, whose replies and effects the lemmas of Outcomes state; exactly the watchers of what it changed are told, once each, of the right event; every other group stays as it was |
| SaberDbObject.SaberDB.CheckCreate | saber/server/saber_db.cc:100-103 | leaves the master in the state its check event leads to |
| SaberDbObject.SaberDB.CheckDelete | saber/server/saber_db.cc:105-108 | leaves the master as it was |
| SaberDbObject.SaberDB.CheckSetData | saber/server/saber_db.cc:110-113 | leaves the master as it was |
| SaberDbObject.SaberDB.MakeCheckpoint | saber/server/saber_db.cc:38-42 | yields a checkpoint of the group |
| SaberDbObject.SaberDB.RecoverGroup | saber/server/saber_db.cc:19-36 | merges both lists and leaves the group ready for use; into a new group it gives the restored database |
| SaberDbObject.SaberDB.constructor | saber/server/saber_db.cc:10-15 | makes the groups, each new, valid and empty, sharing nothing |
| SaberDbObject.SaberDB.Replay | saber/server/saber_db.cc:150-224 | executing a log entry by entry gives the state and the replies of the log, and leaves the other groups alone |
| SaberDbObject.CatchUp | saber/server/saber_db.cc:19-59 | for every log and split, a server made new from the checkpoint of another ends, after the rest of the log, in the same state with the same replies, which are those of the whole log |
| SessionPipeline.SaberSession.OnConnect | saber/server/saber_session.cc:43-48 | reopens the session on the new connection with an empty queue |
| SessionPipeline.SaberSession.OnMessage | saber/server/saber_session.cc:50-83 | refuses exactly when closed, ignores exactly a ping while others wait, and else hands the message back or puts it last, alone if it is MT_MASTER |
| SessionPipeline.SaberSession.Done | saber/server/saber_session.cc:204-235 | hands out the oldest waiting message; with no connection, or for MT_MASTER or MT_CLOSE, closes and empties the queue |
| SessionPipeline.PipelineSafe | saber/server/saber_session.cc:43-254 | in every interleaving one message at a time, starts in acceptance order, every accepted message started, waiting or dropped, and every message that came on its way, accepted, refused by a closed session, or a ping that came while another waited; exactly one of these each |
| SessionPipeline.DroppedExactly | saber/server/saber_session.cc:73-75 | a waiting message is dropped if and only if MT_MASTER is queued, the session closes, or it reconnects; otherwise it waits or, as the oldest, starts |
| SessionPipeline.StaleDoneCloses | saber/server/saber_session.cc:204-235 | in every run after a reconnect in which nothing else closes it, the session is closed if and only if a Done with no connection, or replying MT_MASTER or MT_CLOSE, was on its way at the reconnect and has ended |
| SessionPipeline.StaleDoneReachable | saber/server/saber_session.cc:204-235 | a run in which the session is open after a reconnect and then closed by such a Done |
| SessionPipeline.AnsweredTwice | saber/server/saber_session.cc:204-235 | a run in which a request in flight at a reconnect and its copy sent again are both started, in order, and both answered on the new connection |
| ClientQueues.SaberClient.Issue | saber/client/saber_client.cc:110-121 | a request takes the next 32-bit id and joins the queue of its kind and the outgoing queue, and is sent if possible |
| ClientQueues.SaberClient.OnConnect | saber/client/saber_client.cc:422-451 | an accepted connection carries all outgoing requests in order |
| ClientQueues.SaberClient.Pop | saber/client/saber_client.cc:453-476 | the loop of a reply handler: older requests get RC_UNKNOWN, a matching one its answer, a newer front is lost |
| ClientQueues.SaberClient.OnMessage | saber/client/saber_client.cc:323-401 | a reply runs the handler of its kind and pops the outgoing queue up to its id |
| ClientQueues.SaberClient.ClearMessage | saber/client/saber_client.cc:620-628 | empties all seven queues |
| ClientQueues.MergeIsUnique | saber/client/saber_client.h:96-103 | the typed queues determine the outgoing queue: merged by id they are it |
| ClientQueues.ReplyToFront | saber/client/saber_client.cc:392-399 | a reply to the front takes just it off both queues and calls back once |
| ClientQueues.AnsweredExact | saber/client/saber_client.cc:453-476 | a reply calls back all requests of its queue up to its id, in order, each once: the one it names with its answer, the older ones with RC_UNKNOWN |
| ClientQueues.ReplyFitsIff | saber/client/saber_client.cc:392-399 | after any reply the queues stay in step if and only if every outstanding request up to its id is of its kind, and either it answers an outstanding request or all outstanding ones of its kind are older |
| ClientQueues.ReplyKindMatters | saber/client/saber_client.cc:392-399 | in particular, among replies with the front's id the queues stay in step if and only if the kind is the front's |
| ClientQueues.SecondAnswerForgets | saber/client/saber_client.cc:453-476 | a reply to a request that is not outstanding leaves the oldest newer one of its kind outstanding and, whatever follows short of an id wrap, without a callback for ever |
| ClientQueues.SecondAnswerReachable | saber/client/saber_client.cc:422-451 | a run in which a request is sent on two connections and the second answer does this to the next request |
| ClientQueues.ClientIsOneFifo | saber/client/saber_client.cc:263-269 | in every run without id wrap: queues in step, ids increasing, callbacks in issue order at most once, one fate per request, each connection carries the outstanding requests once in order |
| BucketWheel.Buckets.Tick | saber/server/saber_server.cc:175-182 | advances the wheel and empties the new current bucket |
| BucketWheel.Buckets.Update | saber/server/saber_server.cc:184-192 | puts the entry into the current bucket unless its index says it is there |
| BucketWheel.WheelIsIdleClock | saber/server/saber_server.cc:175-192 | in every run an entry is alive if and only if it was refreshed fewer than N ticks ago; a bucket holds exactly the entries refreshed in its tick, none twice |
| BucketWheel.HeldEntryIsPutBackIff | saber/server/saber_server.cc:175-192 | in every run an entry unrefreshed for k ticks, at least a full turn, is in no bucket, and a message puts it back if and only if k is not a multiple of the number of buckets |
| BucketWheel.HeldEntryIsLost | saber/server/saber_server.cc:175-192 | for every wheel, a run after which a message leaves such an entry in no bucket |
| TimerQueue.RollbackPreserves | saber/util/timerlist.cc:125-134 | a rollback keeps the time that remained at the last pass; a clamped value belonged to a timer overdue then; due now if and only if due then |
| TimerQueue.EarlyIff | saber/util/timerlist.cc:125-134 | a timer fires before its value if and only if the value lies between the time of the pass and that of the pass before; a later one comes early by the whole jump |
| TimerQueue.SetAfterRollback | saber/util/timerlist.cc:93-134 | the same of the list: a timer set after the clock went back, at any three times |
| TimerQueue.RollbackKeepsOrder | saber/util/timerlist.cc:125-134 | a rollback does not reorder due times |
| TimerQueue.RollbackKeepsTimers | saber/util/timerlist.cc:125-134 | a rollback loses no timer and changes nothing of one but its value |
| TimerQueue.Begin | saber/util/timerlist.cc:139-140 | the first timer of the ordered set |
| TimerQueue.TimerList.InsertInLoop | saber/util/timerlist.cc:93-98 | adds one new timer and keeps both sets the same timers under their current values |
| TimerQueue.TimerList.Remove | saber/util/timerlist.cc:82-91 | removes just that timer, by its current value, and keeps both sets consistent |
| TimerQueue.TimerList.Rewind | saber/util/timerlist.cc:125-134 | the rebuild shifts every timer and keeps both sets consistent |
| TimerQueue.TimerList.RunScript | saber/util/timerlist.cc:82-98 | a callback removes just the timers it names and adds just those it inserts, each at an address not in use |
| TimerQueue.TimerList.RunTimerProcs | saber/util/timerlist.cc:117-157 | terminates; a timer due after the shift fires if and only if no timer before it in the order of the set removed it; firings come in that order, each timer once and never after its removal; periodic ones are set again; every insertion of a callback leaves a timer of its own unless a later operation removes it; all that is left is later, and is a timer of the start or one inserted |
| SessionIds.SequenceNumber.GetNext | saber/util/sequence_number.h:16-22 | returns the counter, starting over at the maximum |
| SessionIds.SequenceIsCyclic | saber/util/sequence_number.h:16-22 | the k-th call returns k modulo 1024 |
| SessionIds.PackedBits | saber/server/saber_server.cc:438-441 | on 64-bit words the shifts and ors are a sum, and the fields can be shifted back out |
| SessionIds.Unpack | saber/server/saber_server.cc:438-441 | milliseconds below 2^42, server id and sequence number can be read back |
| SessionIds.CollisionExact | saber/server/saber_server.cc:438-441 | on any clock two calls of one server give the same id if and only if they share the millisecond and lie a multiple of 1024 apart |
| SessionIds.IdsDistinctIff | saber/server/saber_server.cc:438-441 | on a clock that does not go back, a server's ids are all distinct if and only if no millisecond sees more than 1024 calls |
| SessionIds.ServersDisjoint | saber/server/server_options.h:16-17 | servers with different ids never give out the same session id |

## Left out

- Consensus, master election, membership, networking and hashing: libraries outside this repository.
- Serialisation and checkpoint files: messages and checkpoints are the values they carry.
- NodeHistory.CountersCount: the version counters do not wrap, because int32 overflow is undefined in the code.
- SaberDbObject.SaberDB.Execute: for a close, and about watchers, only from trees with the invariant, which every log keeps; from other trees the outcome depends on the iteration order.
- ClientQueues.SaberClient.OnConnect: the session id, the session state and the ping timer that it also sets are not modelled, because no queue depends on them.
- TimerQueue.TimerList.RunTimerProcs: callbacks insert only future timers; one that inserts a due timer each time it fires keeps the loop going for ever.
- ClientQueues.ClientIsOneFifo: replies are assumed to answer the oldest outstanding request, as the code asserts; a server that answers a request twice across a reconnect is outside this assumption, and SecondAnswerForgets says what then happens.
- BucketWheel.WheelIsIdleClock: buckets are assumed to be the only holders of an entry; HeldEntryIsPutBackIff says what happens otherwise.
- Lifetimes of objects (`weak_ptr`, captured `this`, `delete`): identities are numbers.
- The six typed client queues are one map from kinds to queues; their handlers differ only in response types and client-side watches.
- `SaberSession::DoIt`: which requests are answered locally and which are proposed; a message in flight may finish at any time.
- `SaberServer::OnConnectRequest`, `CreateSession`, `CloseSession`, `CleanSessions`: modelled only as producers of CONNECT and CLOSE entries.
- `ClientWatchManager`, `ServerManagerImpl`, retry delays, `GetRoot`, `Shard`, `NewServers`, `TimeoutMs`: they would only add easy members.
- Exactly-once effects across reconnects: the client resends and the server does not deduplicate, so there is no such property.
