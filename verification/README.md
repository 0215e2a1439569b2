# etcd: Raft, the multi-version store, the write-ahead log and the expiring tree

This project models the core of etcd 2.3.7 and proves what it promises. Each part has a specification on values (functions and
predicates), classes that do what the code does in place and are proved against that specification, and theorems over every run
of the part.

**Raft** (the modules whose names begin with `Raft`). `RaftNode` says what one node does with one message, panics included;
`RaftObject` is the node whose fields are updated in place; `RaftStorage` is its log split over stable storage and an unstable
tail, and `RaftPersistence` the cycle that moves entries from one to the other. `RaftCluster` lets any number of nodes exchange
messages over a network that loses, duplicates and reorders, restart from saved state, take snapshots and compact.
`RaftProtocol` and `RaftInvariant` hold the abstract protocol with its history and prove that each action keeps the invariant;
`RaftRefinement` and `RaftSteps` justify every step of a node by such actions; `RaftSafety` draws the theorems over runs.
Safety alone would also hold of nodes that do nothing, so `RaftCommit` proves that a leader commits all it may, and
`RaftRounds` what elections, appends, heartbeats, snapshots and proposals achieve when their messages arrive. `RaftProgress`
covers flow control and `RaftReady` the loop that delivers committed entries and hands out what has to be saved.

**The multi-version store** (`Mvcc...`). `MvccKeyIndex` relates the generations of a key to a flat history of writes;
`MvccStore` is the store with its index, its backend and its background compactions; `MvccInvariant` and `MvccSafety` relate it
to the history of all writes over every run, `MvccReadBack` to the bare list of operations the store was given, and
`MvccCompaction` says what a background compaction does. `MvccRestore` rebuilds the index from the backend, `MvccRestart` reads across a
restart, `MvccWatch` and `MvccWatchSafety` serve watchers, `MvccReplay` applies a replicated log twice, `MvccLease` attaches
keys to leases. The modules whose names end in `Object` are the same parts updated in place.

**The write-ahead log** (`Wal`; `WalReplay` for what a session wrote, `WalRefusal` for any records at all; `WalObject`), **the
append-message stream** (`MsgAppCodec`, `MsgAppWire`) and **the tree store with its expiration heap** (`TreeStore`, `TtlHeap`)
stand by themselves.

Modelling choices. Integers are unbounded. Go's panics and fatal exits are explicit outcomes, so that their absence can be
proved. The network is the set of all messages ever sent, from which any may be delivered at any time, any number of times. The
backend is a map from revisions to records; `MvccRevisionBytes` proves that the byte keys sort as the revisions do. Channels
that may be full, timers, cuts of log segments and the order in which maps are iterated are choices left open in the models. The
checksum of the write-ahead log and the marshalling of messages are arbitrary functions, the latter invertible.

Where code and documentation disagree, the model follows the code: the format comment in `rafthttp/msgappv2_codec.go` gives the
full append message the type byte 1, the code writes and reads 2.

One promise needed a sharper condition than one would expect. A snapshot record of the write-ahead log can be lost to `Open`
although no entry above it was ever saved: `WalReplay.SnapshotLost` gives such a session. `WalReplay.OpenExact` says for every
session exactly when the snapshot is found and when the entries are right, in terms of what the session saved and where it cut
segments; `WalReplay.ReplayExactly` puts both together. `WalReplay.LostBehindCut` names the sessions that lose it, and
`WalReplay.WalReplayed` a condition on what was saved alone, whatever the cuts, under which all is well.

## Model

| member | source | states |
|---|---|---|
| RaftSafety.StateMachineSafety | raft/raft.go:375-384 | Over every run of a cluster with fixed members, arbitrary loss, duplication and reordering of messages, restarts from saved state, snapshots and compaction: if one node has committed no more than another, at whatever two times of the run, their logs are the same up to the smaller commit index (section 5.4.3 of the Raft paper) |
| RaftSafety.LeaderCompleteness | raft/log.go:282-288 | Whatever a node has committed while in some term is in the log of every leader of every later term, at whatever time that leader leads (section 5.4 of the Raft paper) |
| RaftSafety.LogMatching | raft/log.go:76-127 | Two logs of a run with the same term at an index are equal up to that index, whichever nodes and times they come from (section 5.3 of the Raft paper) |
| RaftSafety.ElectionSafety | raft/raft.go:503-534 | Over every run, including restarts from saved term and vote, at most one node ever leads a given term (section 5.2 of the Raft paper) |
| RaftSafety.LeaderAppendOnly | raft/raft.go:406-416 | A leader's log only grows while it leads |
| RaftSafety.ProgressTruthful | raft/raft.go:631-651 | In every reachable state, a follower still in the leader's term agrees with the leader's log up to the index the leader has recorded as matched for it |
| RaftSafety.NoPanic | raft/log.go:190-198 | No message that can be delivered in a reachable state makes a node reach one of the panics: committing out of range, conflicting with a committed entry, needing a snapshot there is not |
| RaftSafety.StaleAppendHarmless | raft/raft.go:755-768 | A stale or duplicated append message of the current leader never removes an entry on which the follower agrees with the leader |
| RaftSafety.RunHistories | raft/raft.go:536-566 | Every run has a history of votes, campaigns, leaders' logs and acknowledgements, extended step by step, under which the cluster invariant holds throughout |
| RaftSafety.Bounds | raft/log.go:200-208 | In every reachable state compaction index, snapshot index, commit index and log length of a node are in this order |
| RaftSafety.TermPositive | raft/raft.go:545-556 | In every reachable state every node is in a term of at least one |
| RaftCommit.CommitRule | raft/raft.go:375-384 | In every reachable state a leader has committed every index of its own term that more than half of the members have acknowledged: the commit index is never behind what a majority allows, as it is never ahead (LeaderCompleteness) |
| RaftCommit.RunAttempted | raft/log.go:282-288 | After every step of every run the leader's last commit attempt took all acknowledgements into account |
| RaftInvariant.CampaignKeeps | raft/raft.go:462-473 | A campaign keeps the protocol invariant and only extends the history |
| RaftInvariant.CastVoteKeeps | raft/raft.go:741-746 | A vote for an up-to-date candidate keeps the protocol invariant: what the voter acknowledged is in the candidate's log or can no longer be chosen |
| RaftInvariant.ElectKeeps | raft/raft.go:475-501 | Becoming leader on a quorum of votes keeps the protocol invariant |
| RaftInvariant.ElectComplete | raft/raft.go:707-716 | A new leader's log holds every entry of an earlier term that may still be chosen, because the two quorums meet |
| RaftInvariant.LeaderAppendKeeps | raft/raft.go:406-416 | Appending entries of its own term keeps the protocol invariant |
| RaftInvariant.AcceptKeeps | raft/log.go:76-92 | Merging a prefix of the leader's log into a follower's keeps the protocol invariant; nothing committed or acknowledged is lost |
| RaftInvariant.SetCommitKeeps | raft/log.go:190-198 | Moving a commit index within what is chosen keeps the protocol invariant |
| RaftInvariant.UpToDateCovers | raft/log.go:270-272 | A candidate's log that passes the up-to-date test covers what the voter holds of any term that can still be chosen |
| RaftRefinement.MaybeAppendMerges | raft/log.go:76-127 | What a leader sent is accepted exactly if the two logs agree up to where it starts; then the follower's log becomes the merge of the two and commits to the smaller of the two bounds. The panic about committed entries is never reached |
| RaftRefinement.AdoptRefines | raft/raft.go:545-556 | Adopting a higher term is a protocol action of that node |
| RaftSteps.StepRefines | raft/raft.go:536-566 | Every step of a node on a message it can receive is justified by protocol actions of that node and sends only messages that are true of the history; it never panics |
| RaftSteps.StepLeaderRefines | raft/raft.go:570-687 | The same for a leader, case by case |
| RaftSteps.StepCandidateRefines | raft/raft.go:689-718 | The same for a candidate |
| RaftSteps.StepFollowerRefines | raft/raft.go:720-753 | The same for a follower |
| RaftSteps.AppendAckedRefines | raft/raft.go:631-651 | An acknowledgement moves progress truthfully, and a commit index found from a quorum of them is chosen |
| RaftSteps.AppendRejectedRefines | raft/raft.go:617-630 | A rejection only ever moves the next index, within the log |
| RaftSteps.HandleAppendRefines | raft/raft.go:755-768 | Handling an append message is accepting a prefix of the leader's log |
| RaftSteps.HandleHeartbeatRefines | raft/raft.go:770-773 | A heartbeat only commits what the follower holds and what is chosen |
| RaftSteps.HandleSnapshotRefines | raft/raft.go:775-817 | Restoring or skipping a snapshot is accepting a committed prefix of the leader's log |
| RaftSteps.VoteRefines | raft/raft.go:741-751 | Granting or refusing a vote is a protocol action |
| RaftSteps.StartCampaignRefines | raft/raft.go:503-517 | Campaigning is a protocol action; a single node elects itself at once |
| RaftSteps.RestartRefines | raft/raft.go:186-237 | A node restarted from its saved term, vote and log, with a commit index that may be older, is in order |
| RaftSteps.CompactedOk | raft/storage.go:199-217 | Snapshotting and compacting committed entries keeps a node in order |
| RaftNode.QuorumIndexUnique | raft/raft.go:375-384 | The index a quorum has acknowledged, and no larger one, is unique |
| RaftNode.QuorumIndexExists | raft/raft.go:375-384 | Such an index exists for every progress map |
| RaftNode.LimitSize | raft/util.go:103-116 | Limiting by size keeps a prefix, and at least the first entry |
| RaftImpl.QuorumMatched | raft/raft.go:377-383 | Sorting the acknowledged indices in descending order and taking the one at position quorum - 1 gives the largest index that a quorum has acknowledged |
| RaftImpl.SortDescending | raft/raft.go:382-383 | The result is a descending permutation of the input |
| RaftImpl.CollectMatched | raft/raft.go:378-381 | The collected values count, for every threshold, the members that reach it |
| RaftImpl.FindConflictIn | raft/log.go:116-127 | The loop returns the index of the first entry whose term does not match, or zero |
| RaftRefinement.ConflictFound | raft/log.go:116-127 | Against a leader's log the conflict found is the first index where the two logs differ, or there is none and they agree all the way |
| RaftImpl.LimitSizeLongest | raft/util.go:103-116 | What is kept is the longest prefix whose sizes add up to no more than the limit, except that one entry is always kept |
| RaftImpl.LimitSizeOf | raft/util.go:103-116 | The loop keeps what the specification of limiting keeps |
| RaftObject.Raft.Reset | raft/raft.go:386-404 | Resetting in place gives the reset node: vote cleared exactly on a change of term, fresh progress for all members |
| RaftObject.Raft.BecomeFollower | raft/raft.go:453-460 | The new state is that of a follower of the given leader in the given term |
| RaftObject.Raft.BecomeCandidate | raft/raft.go:462-473 | The new state is that of a candidate in the next term that voted for itself |
| RaftObject.Raft.BecomeLeader | raft/raft.go:475-501 | The new state is that of a leader with an empty entry of its term appended |
| RaftObject.Raft.MaybeCommit | raft/raft.go:375-384 | Sorting in place moves the commit index exactly to the largest index that more than half of the members have acknowledged, if that is ahead and its entry of the current term, and leaves it otherwise; RaftCommit.CommitRule says what that means for every run |
| RaftObject.Raft.AppendEntry | raft/raft.go:406-416 | Entries get consecutive indices and the leader's term; own progress and commit index follow |
| RaftObject.Raft.SendAppend | raft/raft.go:275-331 | What is sent and how progress changes, for entries, snapshots, pauses and the panic without a snapshot |
| RaftObject.Raft.BcastAppend | raft/raft.go:352-359 | Every other member is sent its append, and progress of all is as if each were sent alone |
| RaftObject.Raft.SendHeartbeat | raft/raft.go:334-348 | A heartbeat carries the smaller of matched and commit index and resumes sending |
| RaftObject.Raft.BcastHeartbeat | raft/raft.go:362-370 | Every other member is sent its heartbeat and resumed |
| RaftObject.Raft.Poll | raft/raft.go:519-534 | A voter counts once; the result is the number of votes granted |
| RaftObject.Raft.Campaign | raft/raft.go:503-517 | A candidate asks all others for votes, or leads at once if it is a quorum by itself |
| RaftObject.Raft.HandleAppendEntries | raft/raft.go:755-768 | The log, commit index and reply are those of the specification, panics included |
| RaftObject.Raft.MaybeAppendTo | raft/log.go:76-92 | The in-place append agrees with the specification on value and on refusal and panic |
| RaftObject.Raft.HandleHeartbeat | raft/raft.go:770-773 | Commit index and reply are those of the specification |
| RaftObject.Raft.HandleSnapshot | raft/raft.go:775-786 | Log, commit index, progress and reply are those of the specification |
| RaftObject.Raft.Restore | raft/raft.go:790-817 | A restored log is the snapshot alone, or only the commit index moves if the log already matches |
| RaftObject.Raft.StepAppendResp | raft/raft.go:612-651 | Progress, commit index and messages after a response are those of the specification |
| RaftObject.Raft.StepHeartbeatResp | raft/raft.go:652-661 | A full window loses its oldest message, and a follower that lags is sent an append |
| RaftObject.Raft.CheckQuorumActive | raft/raft.go:887-904 | True exactly if a quorum was active; the activity of others is cleared |
| RaftObject.Raft.StepLeader | raft/raft.go:570-687 | A leader's step in place agrees with the specification on state, messages and panics |
| RaftObject.Raft.StepCandidate | raft/raft.go:689-718 | The same for a candidate |
| RaftObject.Raft.StepVoteResp | raft/raft.go:707-716 | Counting a vote, winning and losing agree with the specification |
| RaftObject.Raft.StepFollower | raft/raft.go:720-753 | The same for a follower |
| RaftObject.Raft.Step | raft/raft.go:536-566 | A whole step in place agrees with the specification that the safety theorems are about |
| RaftRounds.VoteExact | raft/raft.go:741-751 | A vote is granted exactly if the voter is free in that term and the candidate's log is not behind its own; the answer says so and the vote is recorded |
| RaftRounds.NotBehindTotal | raft/log.go:270-272 | Of two logs at least one is not behind the other, and both are exactly if they end alike: a majority always has a member the others can vote for |
| RaftRounds.ElectionRound | raft/raft.go:503-534 | A node that campaigns, with a majority whose terms are not ahead and whose logs are not ahead of its own, asks each of them, is granted every vote and leads the next term with an empty entry of it behind its log |
| RaftRounds.Campaigning | raft/raft.go:462-517 | A campaign moves to the next term with a vote for oneself, no leader and no knowledge of the others, and asks all others with the end of the log; a node that is alone leads at once |
| RaftRounds.VotesCounted | raft/raft.go:519-534 | A candidate that hears grants one after the other keeps counting up to half of the members and leads from the first beyond it on, late answers included |
| RaftRounds.GrantCounted | raft/raft.go:707-716 | Whatever came in before, one more grant is counted, and makes a leader exactly if it makes a majority |
| RaftRounds.RejectionCounted | raft/raft.go:711-716 | One more rejection is counted, and ends the candidacy exactly if more than half rejected |
| RaftRounds.FirstAnswerCounts | raft/raft.go:525-527 | A second answer of the same voter changes nothing |
| RaftRounds.LeaderStarts | raft/raft.go:475-501 | A new leader has an empty entry of its term behind its log, which it sends to the others |
| RaftRounds.AppendRound | raft/raft.go:275-331 | In every reachable state: the leader sends entries from the follower's next index on, at least one if there is one; if the logs agree before them the follower ends up with the leader's log up to the last of them, commits what the leader has committed of it and the leader records it, otherwise the next index gets smaller and nothing else changes |
| RaftRounds.AppendTaken | raft/raft.go:755-768 | What a follower answers to entries of its leader in all cases, in terms of the two logs: already committed, not matching, or taken, where nothing on which the two agreed is lost |
| RaftRounds.SentAppend | raft/raft.go:313-330 | An append carries the log's entries from the next index on, as many as fit the size limit, with index, term and commit index; a replicating follower's next index and window move on, a probed one waits |
| RaftRounds.SentOther | raft/raft.go:275-312 | Nothing goes to a follower that is stopped; one whose next entries are compacted gets the latest snapshot if it was heard of lately, and nothing otherwise |
| RaftRounds.BcastIsEach | raft/raft.go:352-359 | A broadcast sends to each other member what it would be sent alone, and nothing else |
| RaftRounds.AckRecorded | raft/raft.go:631-641 | An acknowledgement is recorded, never lowers what is known of the follower and changes nothing for others |
| RaftRounds.AckProgress | raft/progress.go:76-121 | What an acknowledgement that is news makes of a follower's progress in each of the three states |
| RaftRounds.AckSendsOn | raft/raft.go:643-650 | An acknowledgement that does not move the commit index still gets sending to a follower that was stopped going again |
| RaftRounds.DecrTo | raft/progress.go:127-149 | When a rejection is out of date, and otherwise the index to try next: never above the rejected one |
| RaftRounds.RejectProgress | raft/raft.go:618-630 | A rejection of the append sent last makes the leader try again from the rejected index or from behind the end of the follower's log, whichever is smaller, and probe a replicating follower from what it acknowledged; one that is out of date changes nothing |
| RaftRounds.CommitAnnounced | raft/raft.go:643-645 | When an acknowledgement moves the commit index, every other member that may be sent to is told |
| RaftRounds.HeartbeatRound | raft/raft.go:334-370 | In every reachable state a heartbeat brings a follower's commit index up to what it is known to hold of the leader's, and gets sending to one that lags going again unless a snapshot is on its way |
| RaftRounds.BeatAnswered | raft/raft.go:652-661 | The answer to a heartbeat frees one place of a full window and makes the leader send to whoever lags |
| RaftRounds.SnapshotRound | raft/raft.go:775-817 | In every reachable state: a follower whose next entries the leader has compacted, and which was heard of lately, is sent the snapshot, ends up with the leader's log up to it, committed, and the leader records that |
| RaftRounds.SnapshotTaken | raft/raft.go:790-817 | What a follower makes of its leader's snapshot in all cases: nothing if it has committed as much, a faster commit if its log agrees, and otherwise the snapshot in place of its log with progress starting afresh |
| RaftRounds.ProposalTaken | raft/raft.go:580-602 | What is proposed to a leader becomes the end of its log, in order and with its data; proposing nothing panics; a follower passes on to the leader it knows of, and everybody else drops it |
| RaftRounds.ProposalSent | raft/raft.go:600-601 | After a proposal every other member that may be sent to is sent entries from its next index on |
| RaftRounds.NewerTermAdopted | raft/raft.go:545-556 | A message of a newer term makes a follower in that term, with no vote unless it casts one, and of its sender unless that asks for a vote |
| RaftRounds.StaleIgnored | raft/raft.go:558-562 | A message of an older term changes nothing and is not answered |
| RaftRounds.CandidateYields | raft/raft.go:697-705 | A candidate that hears from a leader of its term does as a follower would |
| RaftRounds.QuorumChecked | raft/raft.go:887-904 | A leader that checks its quorum stays exactly if more than half of the members, itself included, were active since the last check |
| RaftRounds.TransportReported | raft/raft.go:662-685 | An unreachable follower is probed from what it acknowledged; after a snapshot one is probed behind it, or as before if it failed, and waits |
| RaftProgress.WindowsBounded | raft/progress.go:199-209 | In every reachable state the window of unacknowledged messages is increasing and never longer than its size, so adding to a full window never happens |
| RaftProgress.StepKeepsWindows | raft/progress.go:110-149 | Every step keeps the windows in order |
| RaftProgress.FreeToSplits | raft/progress.go:212-232 | Freeing drops exactly the messages up to the given index and keeps all later ones |
| RaftProgress.FreeFirstIsOne | raft/progress.go:234-234 | Freeing the first message frees exactly one |
| RaftProgress.Inflights.Add | raft/progress.go:199-209 | The ring buffer appends at the end of the window; it refuses exactly when full |
| RaftProgress.Inflights.FreeUpTo | raft/progress.go:212-232 | The ring buffer's window becomes what freeing makes of it |
| RaftProgress.Inflights.FreeFirstOne | raft/progress.go:234-234 | The ring buffer loses exactly its oldest element |
| RaftProgress.Inflights.Clear | raft/progress.go:242-245 | The window is empty again |
| RaftStorage.LimitStableFirst | raft/log.go:305-321 | Limiting the stable part alone never changes what fits of the whole slice |
| RaftStorage.MemoryStorage.Append | raft/storage.go:222-252 | Entries are written at their own index, compacted ones dropped and everything behind them replaced; refused exactly when a gap would open |
| RaftStorage.MemoryStorage.Compact | raft/storage.go:199-217 | Entries up to the index are dropped, all others and all their terms stay; refused for indices already compacted or past the end |
| RaftStorage.RaftLog.Term | raft/log.go:222-242 | Stable and unstable part together answer as the one log they stand for |
| RaftStorage.RaftLog.IsUpToDate | raft/log.go:270-272 | The comparison is with the last entry of the one log |
| RaftStorage.RaftLog.Slice | raft/log.go:297-334 | Reading through both parts gives the size-limited slice of the one log, with its errors |
| RaftStorage.SliceMeans | raft/log.go:336-350 | That slice is refused exactly if it is out of order, reaches into what is compacted or beyond the end; otherwise it is the longest part of the log from its lower bound on that fits, and at least one entry |
| RaftStorage.RaftLog.Append | raft/log.go:94-103 | Everything from the first new index on is replaced in the one log; refused exactly below the commit index or past the end; the offset of the unstable part never grows |
| RaftStorage.RaftLog.TruncateAndAppend | raft/log_unstable.go:103-123 | In all three cases the one log is cut at the first new index and continued, and the offset of the unstable part never grows |
| RaftStorage.RaftLog.FindConflict | raft/log.go:116-127 | The search on the two-part log gives what it gives on the node's log |
| RaftStorage.RaftLog.MaybeAppend | raft/log.go:76-92 | The two-part log does to itself what the node model does to its log, refusals and panics included, and the offset of the unstable part never grows |
| RaftStorage.RaftLog.Persist | raft/storage.go:222-252 | Writing the entries of an earlier Ready to storage leaves the one log unchanged, even if the unstable tail was replaced since |
| RaftStorage.RaftLog.StableTo | raft/log_unstable.go:77-89 | Marking those entries stable leaves the one log unchanged and, if the last of them is still there, moves the offset behind it |
| RaftStorage.RaftLog.CommitTo | raft/log.go:190-198 | The commit index never decreases; refused exactly past the end of the log |
| RaftStorage.RaftLog.NextEnts | raft/log.go:139-149 | The entries to apply are the committed ones behind the applied index |
| RaftStorage.RaftLog.AppliedTo | raft/log.go:200-208 | The applied index stays between its old value and the commit index, or the call is refused |
| RaftPersistence.Cycle | raft/node.go:342-368 | A whole cycle of Ready, writing to storage and Advance, with any number of appends and overwrites before the write and any number after it: the log ends up exactly as those appends alone make it, given only log matching between the log at the Ready and at the Advance |
| RaftPersistence.RunLogsAgree | raft/log_unstable.go:77-89 | Log matching in that form holds between the logs a node has at any two times of any run of a cluster |
| RaftPersistence.StableLoop.TakeReady | raft/node.go:346-350 | A Ready hands out the whole unstable part and remembers index and term of its last entry |
| RaftPersistence.StableLoop.Append | raft/log.go:94-103 | Appending at any time of a cycle changes the one log as specified and leaves the outstanding Ready in order |
| RaftPersistence.StableLoop.MaybeAppend | raft/log.go:76-92 | Taking what a leader sent at any time of a cycle agrees with the node model and leaves the outstanding Ready in order |
| RaftPersistence.StableLoop.Persist | raft/storage.go:222-252 | What was handed out can always be written, and the one log does not change |
| RaftPersistence.StableLoop.Advance | raft/node.go:359-368 | Dropping the unstable copies does not change the one log; all that were handed out are dropped if the last of them is still there |
| RaftReady.DeliveredExactlyOnce | raft/node.go:260-376 | At every moment of every run, what Ready values have delivered to the application is precisely a committed prefix of the node's log, and advancing never meets the panic about the applied index |
| RaftReady.DeliveryOnlyExtends | raft/node.go:342-368 | Later deliveries only extend earlier ones: no gap, no repetition, nothing taken back |
| RaftReady.HardStateSaved | raft/node.go:472-488 | Whenever a Ready has been taken, in any run, the last hard state handed out is term, vote and commit index of the node at that time |
| RaftReady.RestartedAsSaved | raft/raft.go:186-237 | A node started from that hard state, its log and its latest snapshot is the restarted node of the election theorems: its vote is the one it cast, and starting it is a step of a run |
| RaftReady.StepKeepsCommit | raft/raft.go:536-566 | A step never lowers a node's commit index |
| RaftReady.ReadyLoop.Take | raft/node.go:472-488 | A Ready carries exactly what the application lacks of the committed log, and the node's term, vote and commit index whenever one of the three differs from what was handed out before, nothing otherwise; what was handed out is remembered field by field |
| RaftReady.ReadyLoop.Advanced | raft/node.go:359-362 | Advancing moves the applied index to the commit index of the last Ready |
| MvccKeyIndex.GetRefines | storage/key_index.go:125-147 | A lookup at or above the compaction revision is the last write up to there unless that is a tombstone, with the revision that created the key and the number of puts since |
| MvccKeyIndex.CompactRefines | storage/key_index.go:193-234 | Compaction drops exactly the writes that no lookup at or above it can see, leaves an empty index exactly if nothing is left, and reports exactly the revision live at it |
| MvccKeyIndex.NeverCompactPanics | storage/key_index.go:193-196 | An index that stands for a history never meets a panic of compaction |
| MvccKeyIndex.PutRefines | storage/key_index.go:77-94 | A put with a larger revision is accepted and appends one write to the history the generations stand for |
| MvccKeyIndex.WriteAnswers | storage/key_index.go:77-125 | When a put or a tombstone is refused: not after the last write, on an empty index, or on a key whose last generation has ended |
| MvccKeyIndex.TombstoneRefines | storage/key_index.go:110-121 | A tombstone on a live key appends one write; on a deleted key it is refused |
| MvccKeyIndex.NewKeyRefines | storage/index.go:47-60 | A key the index does not hold starts a new generation |
| MvccKeyIndex.FlatGetAppend | storage/key_index.go:125-147 | Later writes leave earlier lookups alone |
| MvccKeyIndex.RefinesUnique | storage/key_index.go:270-287 | The generations that stand for a history from a given write on are unique |
| MvccKeyIndex.FindCovers | storage/key_index.go:243-264 | Searching the generations backwards finds the one that holds the write sought, or there is none |
| MvccKeyIndexObject.KeyIndexObject.PutRev | storage/key_index.go:77-94 | The put in place agrees with the specification, its panic included |
| MvccKeyIndexObject.KeyIndexObject.TombstoneRev | storage/key_index.go:110-121 | The tombstone in place agrees with the specification |
| MvccKeyIndexObject.KeyIndexObject.GetAt | storage/key_index.go:125-147 | The lookup agrees with the specification |
| MvccKeyIndexObject.KeyIndexObject.GenerationAt | storage/key_index.go:243-264 | The backward loop finds the generation of the specification |
| MvccKeyIndexObject.KeyIndexObject.WalkRevs | storage/key_index.go:311-320 | The loop finds the last revision up to the given one |
| MvccKeyIndexObject.KeyIndexObject.CompactAt | storage/key_index.go:193-234 | Compaction in place agrees with the specification on generations and available revisions, and on when it panics |
| MvccKeys.AscendingUnique | storage/index.go:104-118 | A set of keys has one strictly ascending listing, so the result of a range read has one order |
| MvccKeys.LessTotal | storage/key_index.go:266-268 | Lexicographic order on keys is total and antisymmetric |
| MvccKeys.LessMeans | storage/key_index.go:266-268 | One key is before another exactly if it is a proper prefix of it or smaller in the first byte in which they differ |
| MvccKeys.RangeMeans | storage/index.go:91-121 | A range is the one key without an end, and otherwise all keys from the first on, up to the end unless that is empty |
| MvccRevisionBytes.KeyOrder | storage/revision.go:50-54 | The backend keys of two records, tombstones or not, sort exactly as their revisions |
| MvccRevisionBytes.KeyRoundTrip | storage/revision.go:50-61 | Reading back the byte key of a record gives its revision and whether it is a tombstone, with the underscore and the mark in their places |
| MvccHistory.RangeStable | storage/kvstore.go:374-416 | Writes after a revision do not change what a range read at it must return |
| MvccHistory.LookupIsLatest | storage/key_index.go:125-147 | The flat history of a key and the history of the store agree on what is live and since when |
| MvccInvariant.RangeIs | storage/kvstore.go:374-416 | A range read above the compaction revision returns exactly the live keys of the range in order, each with its last write, up to the limit, and never fails to find a record |
| MvccInvariant.PutKeeps | storage/kvstore.go:418-482 | A put keeps the invariant with one event more in the history, whose record is made of the put's key, value and lease and of the history before it alone |
| MvccInvariant.PutMeta | storage/kvstore.go:423-445 | The record a put writes is the one the history calls for: its value and lease, the revision of its key's creation, its own revision and a version one above the last |
| MvccInvariant.DeleteRangeKeeps | storage/kvstore.go:484-540 | Deleting a range never fails and appends one tombstone for exactly each live key of the range, in order |
| MvccInvariant.CompactKeeps | storage/kvstore.go:221-260 | A compaction request keeps the invariant |
| MvccInvariant.AvailableIsLive | storage/index.go:169-196 | The revisions reported as available are exactly those live at the compaction revision |
| MvccInvariant.BatchKeeps | storage/kvstore_compaction.go:22-65 | A batch of a background compaction deletes only records no read can see, and of each key the earliest first |
| MvccInvariant.EndTxnKeeps | storage/kvstore.go:175-189 | Ending a transaction keeps the invariant |
| MvccSafety.SnapshotReadsStable | storage/kvstore.go:374-416 | Over every run of puts, deletes, transactions, compactions and partly executed background compactions: once a revision is reached, every range read at it returns the same key-values until it is compacted |
| MvccReadBack.ReadBack | storage/kvstore.go:374-416 | Whatever is read after any sequence of puts, deletions, transaction ends and compactions, errors, limits and revision 0 included, is what the list of those operations says, with no reference to index or backend |
| MvccReadBack.LastWordRead | storage/kvstore.go:374-416 | In every run, reading a key gives the value and lease of the last put to it, or nothing if the last operation on it was a deletion of a range it is in or there was none; only a compaction of the current revision is answered by an error |
| MvccReadBack.CompactionAnswered | storage/kvstore.go:221-258 | In every run a compaction is refused as compacted or as in the future exactly by the revisions, and otherwise always begins |
| MvccReadBack.ReadsLastPut | storage/kvstore.go:418-482 | A key that was put and not written since reads back with the value and the lease of that put |
| MvccReadBack.RecordedWasPut | storage/kvstore.go:440-449 | Every record of a value in a store was put by some operation of the run with that key, value and lease |
| MvccReadBack.EveryRunPlays | storage/kvstore.go:159-246 | Every run of the store is the play of such a list of operations |
| MvccCompaction.BatchLooks | storage/kvstore_compaction.go:29-65 | A batch looks at the next ten thousand records, or at all that remain if there are fewer, removes exactly those not to be kept, and records the compaction as finished exactly in the second case; otherwise it goes on with the rest |
| MvccCompaction.CompactionRemembered | storage/kvstore_compaction.go:47-53 | In every run the store remembers the revision of the last compaction asked for, and the one finished last, at or below which nothing is left but what was live at it; unless a compaction was stopped, both are the same once none is under way |
| MvccSafety.NeverFatal | storage/kvstore.go:401-403 | In no reachable state does a put, a delete, a range read or a compaction end the process; in particular no record that is looked up is missing and no key that is compacted is empty |
| MvccRestart.RestartReadsStable | storage/kvstore.go:288-355 | Stopped at any moment of any run between transactions, also between two batches of a compaction, and read back from the backend, the store comes back to its revision and answers every range read above the compaction revision as before |
| MvccRestart.RevisionRestored | storage/kvstore.go:339-340 | The newest record left has the revision the store was at, unless everything was compacted |
| MvccRestart.CompactionResumed | storage/kvstore.go:340-349 | A restart comes back with the compaction revision that was finished last and resumes the one asked for last exactly if it was not finished; that is always accepted and leads to the compaction revision the stopped store had |
| MvccSafety.NextKeeps | storage/kvstore.go:221-260 | Every step keeps the invariant, only appends to the history, and moves no revision backwards |
| MvccObject.StoreObject.RangeIndex | storage/index.go:91-121 | Walking the tree lists the live keys of the range in order with their revisions |
| MvccObject.StoreObject.RangeKeys | storage/kvstore.go:374-416 | The range read in place agrees with the specification, its errors included |
| MvccObject.StoreObject.PutKey | storage/kvstore.go:418-482 | A put in place agrees with the specification, panics included, and adds exactly one record, with the key, value and lease given, under the next revision; MvccReadBack.ReadsLastPut says what is read after it |
| MvccObject.StoreObject.DeleteKey | storage/kvstore.go:501-540 | The delete in place agrees with the specification |
| MvccObject.StoreObject.DeleteRangeKeys | storage/kvstore.go:484-499 | The loop deletes what the specification deletes and returns how many |
| MvccObject.StoreObject.TxnEnd | storage/kvstore.go:175-189 | A transaction that wrote something becomes one revision |
| MvccObject.StoreObject.CompactIndex | storage/index.go:169-196 | Compacting key by key and then deleting the empty ones gives the compacted index and the available revisions; neither of the two panics is reached |
| MvccObject.StoreObject.CompactTo | storage/kvstore.go:221-260 | A compaction request in place agrees with the specification, its errors included |
| MvccObject.StoreObject.CompactBatch | storage/kvstore_compaction.go:32-63 | One batch in place is a batch of the specification: the next records in order, finished exactly when not full |
| MvccObject.StoreObject.RestoreRecords | storage/kvstore.go:303-343 | The loop over the records rebuilds the index of the specification |
| MvccObject.StoreObject.RestoreRecord | storage/index.go:62-75 | Taking in one record agrees with the specification |
| MvccRestore.RestoreRefinesLive | storage/kvstore.go:288-343 | In every state of every run, including between two batches of a compaction, rebuilding the index from the backend never panics and gives the same modification revision, creation revision and version, or not found, for every key and every revision at or above the compaction |
| MvccRestore.RestoreIgnores | storage/kvstore.go:312-319 | Read back, the tombstone of a key that is not there or has already ended changes nothing |
| MvccRestore.RestorePrefix | storage/kvstore.go:303-343 | After any part of the records the rebuilt index stands for the history of each key from its first surviving put on |
| MvccRestore.ListingIsSurviving | storage/kvstore.go:302-302 | The records of the backend in order are what is left of the history |
| MvccWatchSafety.ExactlyOnceWatch | storage/watchable_store.go:246-347 | A watcher registered on a range from a revision, or from now on, in any run of transactions, synchronisations, full channels and compactions: as long as it is not at or behind the compaction revision, what it has been sent is every event of its range from that revision to its position, each once and in order, and no revision is split over two batches |
| MvccWatchSafety.UnsyncedNotAhead | storage/watcher_group.go:232-234 | An unsynced watcher is never ahead of the store, so that panic is unreachable |
| MvccWatchSafety.NotifyOk | storage/watchable_store.go:331-347 | Notification delivers exactly what a synced watcher expects of the transaction, in a batch of one revision, or moves the watcher to unsynced at that revision |
| MvccWatchSafety.SyncOk | storage/watchable_store.go:271-300 | Catching up delivers exactly the next expected events and leaves the watcher where they end |
| MvccWatchSafety.CatchUpIsExpected | storage/watchable_store.go:307-327 | The events read from the backend are those the history holds for the watcher |
| MvccWatchSafety.TxnEventsAre | storage/watchable_store.go:126-158 | The events made from a transaction's changes are the same as those read back from the backend |
| MvccWatchSafety.BatchIsExpected | storage/watcher_group.go:40-65 | A full batch holds exactly the expected events before the revision it names as next |
| MvccWatchSafety.NewWatcherOk | storage/watchable_store.go:176-203 | A new watcher has its range, has received nothing and stands at the revision asked for, or at the next one if none was; it is synced exactly if that is still to come, and all it is due so far has been sent |
| MvccWatchSafety.PromisedFrom | storage/watchable_store.go:176-203 | The range and the revision a watcher is served from are the ones it asked for, 0 meaning the next revision |
| MvccWatchSafety.ExpectedTells | storage/watchable_store.go:307-327 | The events a watcher is due are one per write of the range in that span, in order, a deletion told as a deletion with its revision and a put with its record |
| MvccWatchSafety.SyncMovesOn | storage/watchable_store.go:271-300 | A synchronisation with room in the channel makes a watcher synced or moves it on by a batch |
| MvccWatchSafety.SyncStep | storage/watcher_group.go:229-250 | A synchronisation drops exactly the unsynced watchers behind the compaction that can be told so, keeps all others with their ranges, and reads from the least revision any other unsynced watcher is at |
| MvccWatchSafety.BatchHolds | storage/watcher_group.go:40-65 | A batch holds the events of the first thousand revisions, all of them and no others |
| MvccWatch.BatchSplits | storage/watcher_group.go:40-65 | A batch is a prefix of the events that ends between two revisions, and is everything unless the limit of revisions is exceeded |
| MvccWatch.OneRevision | storage/watcher_group.go:40-65 | Events of one revision always fit into one batch of one revision |
| MvccWatchObject.EventBatchObject.Add | storage/watcher_group.go:40-65 | Adding in place agrees with the specification |
| MvccWatchObject.WatcherBatch | storage/watcher_group.go:85-96 | The loop collects the matching events of a watcher into its batch |
| MvccWatchObject.WatcherGroups.NotifyAll | storage/watchable_store.go:331-347 | Every synced watcher is notified or becomes unsynced as specified; others are untouched |
| MvccWatchObject.WatcherGroups.ScanMinRev | storage/watcher_group.go:229-249 | The result is the least revision an unsynced watcher not behind the compaction waits for |
| MvccWatchObject.WatcherGroups.KvsToEvents | storage/watchable_store.go:307-327 | The loop turns the records from the least revision on into events for watched keys |
| MvccWatchObject.WatcherGroups.SyncWatchers | storage/watchable_store.go:271-300 | Every unsynced watcher is brought forward, dropped or left as specified; others are untouched |
| MvccReplay.IdempotentReplay | storage/consistent_watchable_store.go:87-141 | For every log of transactions with increasing indices, reopening the backend as it was after any k entries and applying again from any entry not after the k-th ends in the same store as applying each entry once |
| MvccReplay.ReopenedSame | storage/kvstore.go:288-343 | Reopening an uncompacted backend between transactions gives the same store but for the sub revision of creations, which nothing depends on |
| MvccReplay.ReplaySkips | storage/consistent_watchable_store.go:113-125 | Entries that are not new leave the store the same |
| MvccReplay.RunOpsAlike | storage/kvstore.go:418-540 | Stores that differ only in the sub revision of creations stay so under every transaction |
| MvccReplayObject.ConsistentObject.TxnBegin | storage/consistent_watchable_store.go:87-104 | The transaction is skipped exactly if its index is not above the stored one, which otherwise becomes it |
| MvccReplayObject.ConsistentObject.ApplyEntry | storage/consistent_watchable_store.go:63-131 | Applying an entry in place agrees with the specification |
| MvccLease.LeaseAttachmentExact | storage/kvstore.go:418-482 | In every run of grants, puts on existing leases, deletes, transactions, revocations and compactions, each lease's items are exactly the live keys whose current record names it |
| MvccLease.LessorNeverPanics | storage/kvstore.go:459-481 | In such a run no attachment or detachment is ever refused, neither in a put nor in a delete nor in a revocation |
| MvccLease.PutPanicsExactly | storage/kvstore.go:471-481 | A put ends the process exactly if it names a lease that is not there |
| MvccLease.GrantExact | lease/lessor.go:177-201 | Granting adds a lease with no keys, leaves all others as they were and keeps the attachment exact |
| MvccLease.GrantAnswers | lease/lessor.go:177-190 | A lease is refused exactly if its number is 0 or taken |
| MvccLease.RevokeDeletesExactly | lease/lessor.go:203-226 | Revoking a lease deletes exactly the keys whose record names it and leaves all other keys as they were |
| MvccLease.LeasedPutExact | storage/kvstore.go:459-481 | A put moves its key from the lease of the previous record to its own and keeps attachment exact |
| MvccLease.LeasedDeleteRangeExact | storage/kvstore.go:484-540 | Deleting a range detaches exactly the deleted keys |
| MvccLeaseObject.Lessor.GrantLease | lease/lessor.go:177-201 | A lease with a new identifier other than zero is created empty; anything else is refused |
| MvccLeaseObject.Lessor.AttachKey | lease/lessor.go:284-297 | The key is added to the lease; refused exactly if there is no such lease |
| MvccLeaseObject.Lessor.DetachKey | lease/lessor.go:301-314 | The key is removed from the lease; refused exactly if there is no such lease |
| MvccLeaseObject.LeasedStore.PutLeased | storage/kvstore.go:418-482 | The put with its lease bookkeeping agrees with the specification |
| MvccLeaseObject.LeasedStore.DeleteLeased | storage/kvstore.go:501-540 | The delete with its lease bookkeeping agrees with the specification |
| MvccLeaseObject.LeasedStore.DeleteRangeLeased | storage/kvstore.go:484-499 | The loop agrees with the specification |
| MvccLeaseObject.LeasedStore.RevokeLease | lease/lessor.go:203-226 | The loop deletes the items one by one, then the lease, as specified |
| WalReplay.WalReplayed | wal/wal.go:230-277 | For every session and every way of cutting segments: opening at a saved snapshot returns the metadata, the last non-empty state and exactly the log the session left above the snapshot, provided nothing below it is saved after the snapshot and nothing at or below it after an entry above it |
| WalReplay.ReplayedFromStart | wal/wal.go:230-277 | From the initial snapshot the whole log is returned, whatever the session rewrote |
| WalReplay.OpenExact | wal/wal.go:146-160 | For every session, every way of cutting segments and every snapshot, what opening at it returns: no checksum, metadata or file error ever arises; the snapshot is found exactly if it was saved and since then no segment was begun while the last index was below it; the entries are the session's log above it exactly if the session ended above it or saved nothing above it since the segment read first |
| WalReplay.ReplayExactly | wal/wal.go:230-277 | Opening succeeds with exactly the session's log above the snapshot if and only if both conditions hold, which a session can tell from what it saved and where it cut |
| WalReplay.MarkExactly | wal/util.go:40-52 | Reading begins at or before an item exactly if no segment was begun after it while the last index was below the one asked for |
| WalReplay.LostBehindCut | wal/util.go:40-52 | In every session, a snapshot is not found once a segment was begun while the last index was below it and it is not saved again |
| WalReplay.LostAtCut | wal/wal.go:320-336 | The same for a session whose last save ends below the snapshot and cuts, whatever it saved before, in order or not |
| WalRefusal.ReadExactly | wal/wal.go:230-277 | For any records at all, written by a session or not: reading succeeds exactly if each carries the checksum that follows from the one before, metadata agree, a snapshot record at the start's index has its term and no entry leaves a gap; then it gives the last state, each index as written last, the metadata and whether the snapshot was met |
| WalRefusal.FirstFaultReported | wal/wal.go:254-272 | Otherwise reading fails with the error of the first faulty record, whatever follows it |
| WalRefusal.DamageRefused | wal/decoder.go:72-77 | A readable log in which one record is damaged, so that data and checksum no longer fit, is refused for its checksum, whatever follows |
| WalRefusal.OpenDecides | wal/util.go:40-69 | Opening any segments at all finds files exactly if there is a last one named at or below the index and those from it on are numbered without a hole; then the records decide |
| WalReplay.SnapshotLost | wal/wal.go:320-336 | A concrete session in which a saved snapshot with no entry above it is not found |
| WalReplay.ReplayIsLog | wal/wal.go:239-244 | Rewritten entries: reading keeps for each index the entry saved last, exactly under the stated condition |
| WalReplay.ReadChain | wal/wal.go:230-277 | Reading a chain of records with valid checksums yields the last state, the replayed entries and whether the snapshot was seen |
| WalReplay.SessionWritten | wal/wal.go:497-547 | Whatever a session does, its segments begin exactly where its saves filled one, each with checksum, metadata and state and named after the last index of that time, and hold the saved entries and snapshots in order |
| WalObject.WAL.constructor | wal/wal.go:88-128 | A new log holds checksum, metadata and the empty snapshot |
| WalObject.WAL.Append | wal/encoder.go:47-76 | A record is written behind the others with the running checksum |
| WalObject.WAL.SaveHardState | wal/wal.go:487-495 | An empty state is ignored; any other is remembered and written |
| WalObject.WAL.SaveAll | wal/wal.go:497-530 | Entries, then state, then a cut if the segment is full |
| WalObject.WAL.SaveSnap | wal/wal.go:532-547 | The snapshot is written and the last index only moves forward |
| WalObject.WAL.CutSegment | wal/wal.go:320-394 | A new segment, named after the last index, begins with checksum, metadata and state |
| WalObject.FindSegment | wal/util.go:40-52 | The loop finds the last segment named at or below the index |
| WalObject.NumbersIncrease | wal/util.go:56-69 | The loop checks that segment numbers increase by one, apart from a predecessor numbered zero |
| WalObject.ReadAll | wal/wal.go:230-277 | The loop gathers what the specification of reading gathers, stopping at the first failure |
| MsgAppCodec.StreamRoundTrip | rafthttp/msgappv2_codec.go:85-248 | Decoding the concatenated encodings of any messages gives them back exactly if every message sent in compressed form names the two peers and uses no other field |
| MsgAppWire.StreamOnTheWire | rafthttp/msgappv2_codec.go:85-151 | The bytes of a stream, message by message: the short form exactly for an append that goes on where the append before it ended, in one term, and the full form with its length otherwise |
| MsgAppWire.CutShort | rafthttp/msgappv2_codec.go:174-248 | No part of a message is taken for a message: decoding fails until all of its bytes are there |
| MsgAppWire.UnknownType | rafthttp/msgappv2_codec.go:244-246 | Bytes of any other type are refused |
| MsgAppCodec.MessageRoundTrip | rafthttp/msgappv2_codec.go:85-248 | For every message and every position both ends share, the decoder consumes exactly its encoding and ends at the encoder's position |
| MsgAppCodec.EntriesRoundTrip | rafthttp/msgappv2_codec.go:94-130 | Length-prefixed entries are read back exactly |
| MsgAppCodec.Encoder.EncodeMessage | rafthttp/msgappv2_codec.go:85-161 | The encoder writes the specified bytes and moves its position |
| MsgAppCodec.Decoder.DecodeMessage | rafthttp/msgappv2_codec.go:174-248 | The decoder reads what is specified, moves its position, or fails on malformed input |
| MsgAppCodec.Decoder.ReadEntries | rafthttp/msgappv2_codec.go:199-229 | The loop reads the given number of entries and advances the index by it |
| TtlHeap.RootIsFirst | store/ttl_key_heap.go:69-74 | The top of a heap expires no later than any other node |
| TtlHeap.TimeChanged | store/node.go:320-324 | After one node's time has changed, the heap is in order everywhere else, which is all that removal needs |
| TtlHeap.Heap.Swap | store/ttl_key_heap.go:41-48 | Two elements change places and the recorded positions follow |
| TtlHeap.Heap.Push | store/ttl_key_heap.go:50-54 | The heap holds exactly one more node, in order |
| TtlHeap.Heap.Pop | store/ttl_key_heap.go:76-80 | The node taken out is an earliest one; the heap holds exactly the others, in order |
| TtlHeap.Heap.Remove | store/ttl_key_heap.go:94-99 | The heap holds exactly the other nodes, in order, also when the node's time had just changed |
| TtlHeap.Heap.Update | store/ttl_key_heap.go:86-92 | The heap holds the same nodes, in order of the new times |
| TtlHeap.Heap.RemoveAt | store/ttl_key_heap.go:94-99 | Removing an out-of-place element leaves a heap of exactly the others |
| TreeStore.Store.constructor | store/store.go:90-102 | A new store holds exactly the root and its namespaces, which from then on are there to stay as permanent directories, whatever is done to the store |
| TreeStore.Store.RemoveAll | store/node.go:205-255 | Exactly the node and everything below it is detached, and the heap forgets exactly those that expire |
| TreeStore.Store.UpdateTTL | store/node.go:310-336 | All transitions between permanent and expiring keep the heap exact, although the time changes before the heap is told |
| TreeStore.Store.Add | store/node.go:188-202 | One node is attached and put on the heap exactly if it expires |
| TreeStore.Store.CheckDirs | store/store.go:706-722 | Fails exactly if a file stands on the way, and then has created nothing; otherwise exactly the missing directories are new, empty and permanent |
| TreeStore.Store.Lookup | store/store.go:644-668 | Answers that a directory was expected exactly if a file stands above the path, and otherwise finds a node exactly if the path is attached |
| TreeStore.Store.InternalCreate | store/store.go:562-641 | Which error is answered when; on an error nothing at all has changed, also no directory on the way; otherwise one new node is at the path, missing directories above it are new, and every other node is as it was |
| TreeStore.Store.Create | store/store.go:161-187 | As internal creation, and only where nothing was |
| TreeStore.Store.Set | store/store.go:190-245 | As internal creation with replacement of a file, whose value stays on refresh; a refresh of a missing key is refused |
| TreeStore.Store.Write | store/node.go:119-128 | Only the value and index of a file change; nothing of a directory does |
| TreeStore.Store.Update | store/store.go:492-560 | Which error is answered when; otherwise one node changes, a directory only in its expiration, and the heap stays exact |
| TreeStore.Store.CompareAndSwap | store/store.go:259-332 | A file is overwritten exactly if its index is the one given or none was, and its value is the one given or none was; every other case has its error and changes nothing; the new node is given field by field |
| TreeStore.Store.Delete | store/store.go:334-393 | Which error is answered when; otherwise exactly the subtree is detached, which without the recursive flag is a single node |
| TreeStore.Store.CompareAndDelete | store/store.go:395-449 | A file is removed, and nothing else is, exactly if its index and value compare in the same way; every other case has its error and changes nothing |
| TreeStore.Store.DeleteExpiredKeys | store/store.go:671-700 | The loop terminates, and a node is gone afterwards exactly if it or an ancestor had expired |
| TreeStore.Store.Recover | store/node.go:384-396 | After the tree has been read back, the new heap holds exactly the attached nodes that expire, so the store is in order again |

## Left out

- Membership changes (`addNode`, `removeNode`, `pendingConf`): the member set is fixed; changing it relies on duties of the application.
- Timers, randomised election timeouts, `CheckQuorum` as a matter of time, and liveness over whole runs: any timer may fire at any moment. What single rounds achieve when their messages arrive is in RaftRounds.
- The leader writing to disk in parallel with sending: persistence is atomic with the step.
- Protobuf sizes: an entry's size is the length of its data, and the size limit of messages is a parameter.
- `ErrSnapshotTemporarilyUnavailable`: the latest snapshot is always at hand.
- 64-bit overflow of terms, indices and revisions.
- RaftStorage.RaftLog.Append: the two-part log has no unstable snapshot; snapshots are installed in the node model only, and storage is not compacted while a Ready is outstanding.
- RaftReady.ReadyLoop.Take: of a Ready only snapshot, committed entries and hard state, not soft state and messages; its unstable entries are in RaftPersistence. The application compacts only what it has applied.
- Reads `since` a revision, `Hash`, `Equal` and the metrics of the multi-version store.
- MvccSafety.SnapshotReadsStable: runs do not go on after a restart; MvccRestart.RestartReadsStable covers the restart itself. Until a scheduled compaction is resumed the code admits reads between the last finished and the scheduled one, of which nothing is said.
- MvccRestart.RestartReadsStable: restarts between transactions; if everything up to the current revision has been compacted, the code comes back to an older revision and there is no read to compare.
- MvccWatchSafety.ExactlyOnceWatch: says nothing of watchers at or behind the compaction revision, to which the code may deliver only part; and transactions are the only writers, not `watchableStore.Put` and `DeleteRange`.
- Watch streams, cancellation races, progress notifications and the interval tree, which is the predicate that a range covers a key.
- MvccReplay.IdempotentReplay: logs of puts, range deletions and transactions without compaction.
- MvccLease.LeaseAttachmentExact: without `restore`, after which the code does not keep item sets exact; expiry, renewal, promotion and persistence of leases are not modelled.
- WalReplay.WalReplayed: one session since `Create`; appending after reopening, torn records at the end of a file, the length framing with its decode limit, file locks and syncing are not modelled.
- WalObject.ReadAll: an entry beyond the end of what was read is an error here; the code may instead extend a slice within its capacity. The theorems show that it does not occur.
- MsgAppCodec.StreamRoundTrip: marshalling is any invertible function, and read or write errors of the connection are not modelled.
- TreeStore.Store.Create: unique names are chosen by the caller, and paths are given as components; events, watchers, statistics, `Get`, cloning and JSON are not modelled.
- HTTP and gRPC servers and clients, peers and pipelines, proxy, discovery, authentication, command-line tools and configuration.
