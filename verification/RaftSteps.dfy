/** Every outcome of Step is justified by protocol actions, and no step panics. */
module RaftSteps {
  import opened RaftTypes
  import opened RaftNode
  import opened RaftProtocol
  import opened RaftInvariant
  import opened RaftRefinement
  import opened RaftCluster

  // ----- Leaders -----

  /** A quorum index of the leader's own term is chosen. */
  lemma QuorumIndexChosen(p: Proto, n: Node, i: nat)
    requires NodeOk(p, n) && n.role == Leader && IsQuorumIndex(n.prs, i) && i > 0 && TermAt(n.log, n.base, i) == n.term
    ensures Chosen(p, n.term, i)
  {
    assert |n.prs.Keys| == |n.prs|;
    assert MatchedSet(n.prs, i) <= Ackers(p, n.term, i);
    QuorumGrows(p.members, MatchedSet(n.prs, i), Ackers(p, n.term, i));
  }

  lemma CommitRefines(p: Proto, n: Node) returns (q: Proto)
    requires Inv(p) && NodeOk(p, n) && n.role == Leader
    ensures Reaches(p, q, n.id) && NodeOk(q, n.(committed := CommitIndex(n)))
  {
    hide Inv, Extends, ActedBy;
    var k := CommitIndex(n);
    if k != n.committed {
      QuorumIndexChosen(p, n, k);
      assert Agree(n.log, LLog(p.llog, n.term), k);
      q := SetCommitReaches(p, n.id, k);
    } else {
      q := p;
      Stays(p, n.id);
    }
  }

  lemma AppendedOk(p: Proto, q: Proto, n: Node, es: Log)
    requires NodeOk(p, n) && n.role == Leader && LeaderAppend(p, q, n.id, es) && Extends(p, q)
    requires AckOf(q.ack, n.term, n.id) == |n.log + es|
    ensures NodeOk(q, n.(log := n.log + es, prs := n.prs[n.id := MaybeUpdate(n.prs[n.id], |n.log + es|)]))
  {
  }

  lemma AppendEntryRefines(p: Proto, n: Node, data: seq<string>) returns (q: Proto)
    requires Inv(p) && NodeOk(p, n) && n.role == Leader
    ensures Reaches(p, q, n.id) && NodeOk(q, AppendEntry(n, data))
  {
    hide Inv, Extends, ActedBy;
    var es := NewEntries(n, data);
    var q1 := LeaderAppendReaches(p, n.id, es);
    AckUpdate(p.ack, q1.ack, n.term, n.id, |n.log + es|);
    AppendedOk(p, q1, n, es);
    var a := n.(log := n.log + es, prs := n.prs[n.id := MaybeUpdate(n.prs[n.id], |n.log + es|)]);
    q := CommitRefines(q1, a);
    ReachesTransitive(p, q1, q, n.id);
  }

  // ----- Elections -----

  /** No other node can have won the term in which this candidate has a quorum. */
  lemma TermIsOpen(p: Proto, n: Node)
    requires Inv(p) && NodeOk(p, n) && n.role == Candidate
    requires IsQuorum(p.members, Voters(p, n.term, n.id))
    ensures n.term !in p.llog
  {
    assert IsCandidate(p.vote, n.term, n.id);
    if n.term in p.llog {
      assert ElectedAt(p, n.term);
      var v := QuorumsIntersect(p.members, Voters(p, n.term, n.id), Voters(p, n.term, LeaderOf(p.leader, n.term)));
      assert false;
    }
  }

  lemma GrantedAreVoters(p: Proto, n: Node)
    requires NodeOk(p, n) && n.role == Candidate && |Granted(n.votes)| == Quorum(n)
    ensures IsQuorum(p.members, Voters(p, n.term, n.id))
  {
    assert |n.prs.Keys| == |n.prs|;
    QuorumGrows(p.members, Granted(n.votes), Voters(p, n.term, n.id));
  }

  lemma ElectedOk(p: Proto, q: Proto, n: Node)
    requires NodeOk(p, n) && Elect(p, q, n.id) && AckOf(q.ack, n.term, n.id) == |n.log|
    ensures NodeOk(q, Reset(n, n.term).(lead := n.id, role := Leader))
  {
  }

  lemma BecomeLeaderRefines(p: Proto, n: Node) returns (q: Proto)
    requires Inv(p) && NodeOk(p, n) && n.role == Candidate && |Granted(n.votes)| == Quorum(n)
    ensures Reaches(p, q, n.id) && NodeOk(q, BecomeLeader(n))
  {
    hide Inv, Extends, ActedBy;
    GrantedAreVoters(p, n);
    TermIsOpen(p, n);
    var q1 := ElectReaches(p, n.id);
    AckUpdate(p.ack, q1.ack, n.term, n.id, |n.log|);
    ElectedOk(p, q1, n);
    q := AppendEntryRefines(q1, Reset(n, n.term).(lead := n.id, role := Leader), [""]);
    ReachesTransitive(p, q1, q, n.id);
  }

  lemma NextTermNotLed(p: Proto, n: Node)
    requires Inv(p) && NodeOk(p, n)
    ensures LeaderOf(p.leader, n.term + 1) != n.id
  {
  }

  lemma CampaignedOk(p: Proto, q: Proto, n: Node)
    requires NodeOk(p, n) && Campaign(p, q, n.id) && LeaderOf(p.leader, n.term + 1) != n.id
    requires VoteOf(q.vote, n.term + 1, n.id) == n.id && CLog(q.clog, n.term + 1, n.id) == n.log
    ensures NodeOk(q, BecomeCandidate(n).(votes := Poll(map[], n.id, true)))
  {
  }

  lemma StartCampaignRefines(p: Proto, n: Node) returns (q: Proto)
    requires Inv(p) && NodeOk(p, n)
    ensures Refined(p, q, n, StartCampaign(n))
  {
    hide Inv, Extends, ActedBy;
    var q1 := CampaignReaches(p, n.id);
    VoteUpdate(p.vote, q1.vote, n.term + 1, n.id, n.id);
    CLogUpdate(p.clog, q1.clog, n.term + 1, n.id, n.log);
    NextTermNotLed(p, n);
    CampaignedOk(p, q1, n);
    var c := BecomeCandidate(n).(votes := Poll(map[], n.id, true));
    if Quorum(c) == |Granted(c.votes)| {
      q := BecomeLeaderRefines(q1, c);
      ReachesTransitive(p, q1, q, n.id);
    } else {
      q := q1;
      assert NodeOk(q, c);
      assert LastTerm(n.log) == TermAt(n.log, n.base, |n.log|);
    }
  }

  lemma PolledOk(p: Proto, n: Node, m: Message)
    requires NodeOk(p, n) && n.role == Candidate && m.MsgVoteResp? && m.term == n.term && m.to == n.id && MsgOk(p, m)
    ensures NodeOk(p, n.(votes := Poll(n.votes, m.from, !m.reject)))
  {
  }

  lemma VoteRespRefines(p: Proto, n: Node, m: Message) returns (q: Proto)
    requires Inv(p) && NodeOk(p, n) && n.role == Candidate
    requires m.MsgVoteResp? && m.term == n.term && m.to == n.id && MsgOk(p, m)
    ensures Refined(p, q, n, StepCandidate(n, m))
  {
    hide Inv, Extends, ActedBy, NodeOk;
    PolledOk(p, n, m);
    var c := n.(votes := Poll(n.votes, m.from, !m.reject));
    if Quorum(c) == |Granted(c.votes)| {
      q := BecomeLeaderRefines(p, c);
      BcastAppendRefines(q, BecomeLeader(c));
      RefinedAfter(p, q, q, n, BecomeLeader(c), BcastAppend(BecomeLeader(c)));
    } else {
      q := p;
      Stays(p, n.id);
      FollowerOk(p, c, NONE);
    }
  }

  lemma VoteRefines(p: Proto, n: Node, m: Message) returns (q: Proto)
    requires Inv(p) && NodeOk(p, n) && n.role == Follower && m.MsgVote? && m.term == n.term && MsgOk(p, m)
    ensures Refined(p, q, n, StepFollower(n, m))
  {
    hide Inv, Extends, ActedBy;
    assert LastTerm(n.log) == TermAt(n.log, n.base, |n.log|);
    if n.vote == NONE && IsUpToDate(n.log, n.base, m.index, m.logTerm) {
      q := CastVoteReaches(p, n.id, m.from);
      VoteUpdate(p.vote, q.vote, n.term, n.id, m.from);
    } else {
      q := p;
      Stays(p, n.id);
    }
  }

  // ----- Followers -----

  lemma CommittedAgrees(p: Proto, n: Node)
    requires Inv(p) && NodeOk(p, n) && n.term in p.llog
    ensures Agree(n.log, LLog(p.llog, n.term), n.committed)
  {
    CommittedInLeader(p, n.log, n.committed, n.term);
  }

  lemma AcceptedOk(p: Proto, q: Proto, n: Node, k: nat)
    requires NodeOk(p, n) && n.role == Follower && Accept(p, q, n.id, k)
    requires Agree(n.log, LLog(p.llog, n.term), n.committed)
    ensures NodeOk(q, n.(log := Merged(n.log, LLog(p.llog, n.term), k)))
  {
  }

  /** Answering an old message with the commit index acknowledges only what the leader has. */
  lemma AckCommittedRefines(p: Proto, n: Node, m: Message) returns (q: Proto)
    requires Inv(p) && NodeOk(p, n) && n.role == Follower && (m.MsgApp? || m.MsgSnap?) && m.term == n.term && MsgOk(p, m)
    ensures Refined(p, q, n, Done(n, {MsgAppResp(n.id, m.from, n.term, n.committed, false, 0)}))
  {
    hide Inv, Extends, ActedBy;
    CommittedAgrees(p, n);
    q := AcceptReaches(p, n.id, n.committed);
    AcceptedOk(p, q, n, n.committed);
  }

  lemma NewCommitOk(p: Proto, n: Node, k: nat, commit: nat)
    requires Inv(p) && NodeOk(p, n) && Agree(n.log, LLog(p.llog, n.term), k) && KnownCommitted(p, n.term, commit)
    ensures CommittedPrefix(p, n.log, Max(n.committed, Min(commit, k)), n.term)
  {
    var j := Min(commit, k);
    if j <= n.committed {
      assert CommittedPrefix(p, LogOf(p.log, n.id), CommitOf(p.commit, n.id), TermOf(p.term, n.id));
    } else {
      ShorterCommitted(p, LLog(p.llog, n.term), commit, j, n.term);
      LongerLogCommitted(p, LLog(p.llog, n.term), n.log, j, n.term);
    }
  }

  lemma MergedAgrees(l: Log, leaderLog: Log, k: nat)
    requires k <= |leaderLog|
    ensures Agree(Merged(l, leaderLog, k), leaderLog, k)
  {
  }

  lemma CommitToRefines(p: Proto, n: Node, k: nat, commit: nat) returns (q: Proto)
    requires Inv(p) && NodeOk(p, n) && n.role == Follower
    requires Agree(n.log, LLog(p.llog, n.term), k) && KnownCommitted(p, n.term, commit)
    ensures Reaches(p, q, n.id) && NodeOk(q, n.(committed := Max(n.committed, Min(commit, k))))
    ensures q.ack == p.ack
  {
    hide Inv, Extends, ActedBy;
    NewCommitOk(p, n, k, commit);
    q := SetCommitReaches(p, n.id, Max(n.committed, Min(commit, k)));
  }

  /** Accepting the leader's first k entries and then its commit index. */
  lemma AcceptCommitRefines(p: Proto, n: Node, k: nat, commit: nat) returns (q: Proto)
    requires Inv(p) && NodeOk(p, n) && n.role == Follower && n.term in p.llog
    requires k <= |LLog(p.llog, n.term)| && KnownCommitted(p, n.term, commit)
    ensures Reaches(p, q, n.id) && AckOf(q.ack, n.term, n.id) >= k
    ensures NodeOk(q, n.(log := Merged(n.log, LLog(p.llog, n.term), k), committed := Max(n.committed, Min(commit, k))))
  {
    hide Inv, Extends, ActedBy;
    CommittedAgrees(p, n);
    var q1 := AcceptReaches(p, n.id, k);
    AcceptedOk(p, q1, n, k);
    var a := n.(log := Merged(n.log, LLog(p.llog, n.term), k));
    KnownCommittedGrows(p, q1, n.term, commit);
    MergedAgrees(n.log, LLog(p.llog, n.term), k);
    q := CommitToRefines(q1, a, k, commit);
    ReachesTransitive(p, q1, q, n.id);
  }

  lemma HandleAppendRefines(p: Proto, n: Node, m: Message) returns (q: Proto)
    requires Inv(p) && NodeOk(p, n) && n.role == Follower && m.MsgApp? && m.term == n.term && MsgOk(p, m)
    ensures Refined(p, q, n, HandleAppendEntries(n, m))
  {
    hide Inv, Extends, ActedBy, MaybeAppend, Merged, KnownCommitted, LeaderOk, CandidateOk;
    if m.index < n.committed {
      q := AckCommittedRefines(p, n, m);
    } else {
      var l := LLog(p.llog, n.term);
      var k := m.index + |m.entries|;
      CommittedAgrees(p, n);
      LogsMatchAt(p, n);
      MaybeAppendMerges(p, n.log, n.base, n.committed, l, m.index, k, m.commit);
      if MaybeAppend(n.log, n.base, n.committed, m.index, m.logTerm, m.commit, m.entries).Accepted? {
        q := AcceptCommitRefines(p, n, k, m.commit);
      } else {
        q := p;
        Stays(p, n.id);
      }
    }
  }

  lemma LogsMatchAt(p: Proto, n: Node)
    requires Inv(p) && NodeOk(p, n) && n.term in p.llog
    ensures Matches(p.llog, n.log) && Matches(p.llog, LLog(p.llog, n.term)) && Indexed(LLog(p.llog, n.term))
  {
    assert n.log == LogOf(p.log, n.id);
  }

  /** A member still in the term holds all it acknowledged in that term. */
  lemma AckedIsHeld(p: Proto, n: Node, i: nat)
    requires Inv(p) && NodeOk(p, n) && i <= AckOf(p.ack, n.term, n.id)
    ensures Agree(n.log, LLog(p.llog, n.term), i)
  {
    assert Held(p.llog, LogOf(p.log, n.id), TermOf(p.term, n.id), n.term, i);
  }

  lemma HandleHeartbeatRefines(p: Proto, n: Node, m: Message) returns (q: Proto)
    requires Inv(p) && NodeOk(p, n) && n.role == Follower
    requires m.MsgHeartbeat? && m.term == n.term && m.to == n.id && MsgOk(p, m)
    ensures Refined(p, q, n, HandleHeartbeat(n, m))
  {
    hide Inv, Extends, ActedBy;
    AckedIsHeld(p, n, m.commit);
    q := CommitToRefines(p, n, m.commit, m.commit);
  }

  /** A snapshot that does not match the log replaces it by a prefix of the leader's log. */
  lemma SnapshotMerges(p: Proto, n: Node, m: Message)
    requires Inv(p) && NodeOk(p, n) && m.MsgSnap? && m.term == n.term && MsgOk(p, m) && |m.snapshot| > n.committed
    ensures Merged(n.log, LLog(p.llog, n.term), |m.snapshot|) ==
            if MatchTerm(n.log, n.base, |m.snapshot|, TermAt(m.snapshot, 0, |m.snapshot|)) then n.log else m.snapshot
  {
    LogsMatchAt(p, n);
    var l := LLog(p.llog, n.term);
    var k := |m.snapshot|;
    assert TermAt(l, 0, k) == TermAt(m.snapshot, 0, k);
    if MatchTerm(n.log, n.base, k, TermAt(l, 0, k)) {
      SameTermAgree(p, n.log, n.base, l, k);
    }
  }

  lemma RestoredOk(p: Proto, n: Node, snapshot: Log)
    requires NodeOk(p, n.(log := snapshot, committed := |snapshot|)) && n.role == Follower && n.committed < |snapshot|
    ensures NodeOk(p, Restored(n, snapshot))
  {
  }

  lemma HandleSnapshotRefines(p: Proto, n: Node, m: Message) returns (q: Proto)
    requires Inv(p) && NodeOk(p, n) && n.role == Follower && m.MsgSnap? && m.term == n.term && MsgOk(p, m)
    ensures Refined(p, q, n, HandleSnapshot(n, m))
  {
    hide Inv, Extends, ActedBy, Merged, KnownCommitted, CandidateOk, LeaderOk;
    var k := |m.snapshot|;
    if k <= n.committed {
      q := AckCommittedRefines(p, n, m);
    } else {
      SnapshotMerges(p, n, m);
      q := AcceptCommitRefines(p, n, k, k);
      if !MatchTerm(n.log, n.base, k, TermAt(m.snapshot, 0, k)) {
        RestoredOk(q, n, m.snapshot);
      }
    }
  }

  // ----- Roles -----

  /** A local input, or a message sent to this node. */
  ghost predicate Receivable(p: Proto, id: Id, m: Message) {
    IsLocalInput(m) ||
    (MsgOk(p, m) && IsNetworkMessage(m) && m.to == id)
  }

  /** A message of the node's own term, or one without a term. */
  ghost predicate Current(p: Proto, n: Node, m: Message) {
    Receivable(p, n.id, m) && (MessageTerm(m) != 0 ==> MessageTerm(m) == n.term)
  }

  lemma CurrentHasTerm(p: Proto, n: Node, m: Message)
    requires Current(p, n, m) && !IsLocalInput(m) && !m.MsgProp?
    ensures MsgOk(p, m) && IsNetworkMessage(m) && m.to == n.id && m.term == n.term
  {
  }

  lemma StepFollowerRefines(p: Proto, n: Node, m: Message) returns (q: Proto)
    requires Inv(p) && NodeOk(p, n) && n.role == Follower
    requires Current(p, n, m)
    ensures Refined(p, q, n, StepFollower(n, m))
  {
    hide Inv, Reaches, HandleAppendEntries, HandleHeartbeat, HandleSnapshot, AppendOk, LeaderOk, CandidateOk;
    if !IsLocalInput(m) && !m.MsgProp? { CurrentHasTerm(p, n, m); }
    match m
    case MsgApp(from, _, _, _, _, _, _) =>
      q := HandleAppendRefines(p, n.(lead := from), m);
    case MsgHeartbeat(from, _, _, _) =>
      q := HandleHeartbeatRefines(p, n.(lead := from), m);
    case MsgSnap(_, _, _, _) =>
      q := HandleSnapshotRefines(p, n, m);
    case MsgVote(_, _, _, _, _) =>
      q := VoteRefines(p, n, m);
    case _ =>
      q := p;
      Stays(p, n.id);
  }

  lemma StepCandidateRefines(p: Proto, n: Node, m: Message) returns (q: Proto)
    requires Inv(p) && NodeOk(p, n) && n.role == Candidate
    requires Current(p, n, m)
    ensures Refined(p, q, n, StepCandidate(n, m))
  {
    hide Inv, Reaches, NodeOk, AppendOk, HandleAppendEntries, HandleHeartbeat, HandleSnapshot, BcastAppend, BecomeLeader, Granted;
    if !IsLocalInput(m) && !m.MsgProp? { CurrentHasTerm(p, n, m); }
    match m
    case MsgApp(from, _, _, _, _, _, _) =>
      FollowerOk(p, n, from);
      q := HandleAppendRefines(p, BecomeFollower(n, n.term, from), m);
    case MsgHeartbeat(from, _, _, _) =>
      FollowerOk(p, n, from);
      q := HandleHeartbeatRefines(p, BecomeFollower(n, n.term, from), m);
    case MsgSnap(from, _, _, _) =>
      FollowerOk(p, n, from);
      q := HandleSnapshotRefines(p, BecomeFollower(n, n.term, from), m);
    case MsgVoteResp(_, _, _, _) =>
      q := VoteRespRefines(p, n, m);
    case _ =>
      q := p;
      CandidateStays(p, n, m);
  }

  /** Messages that leave a candidate as it is; a vote request is refused. */
  lemma CandidateStays(p: Proto, n: Node, m: Message)
    requires Inv(p) && NodeOk(p, n) && !m.MsgApp? && !m.MsgHeartbeat? && !m.MsgSnap? && !m.MsgVoteResp?
    ensures Refined(p, p, n, StepCandidate(n, m))
  {
    hide Inv, Reaches, LeaderOk, CandidateOk;
    Stays(p, n.id);
  }

  lemma AckWithinLog(p: Proto, n: Node, v: Id)
    requires Inv(p) && NodeOk(p, n) && n.role == Leader
    ensures AckOf(p.ack, n.term, v) <= |n.log|
  {
  }

  /** Progress that claims no more than was acknowledged. */
  lemma TruthfulProgress(p: Proto, n: Node, v: Id, pr: Progress)
    requires NodeOk(p, n) && n.role == Leader && v in n.prs
    requires pr.matched <= AckOf(p.ack, n.term, v) && pr.next <= |n.log| + 1 && pr.pendingSnapshot <= |n.log|
    ensures NodeOk(p, SetProgress(n, v, pr)) && SetProgress(n, v, pr).role == Leader
  {
    assert n.prs[v := pr].Keys == n.prs.Keys;
  }

  lemma AppendRejectedRefines(p: Proto, n: Node, m: Message)
    requires Inv(p) && NodeOk(p, n) && n.role == Leader && m.MsgAppResp? && m.from in n.prs
    ensures Refined(p, p, n, StepAppendRejected(n, m))
  {
    hide Inv, Extends, ActedBy;
    Stays(p, n.id);
    AckWithinLog(p, n, m.from);
    var pr := n.prs[m.from].(recentActive := true);
    match MaybeDecrTo(pr, m.index, m.rejectHint)
    case None =>
      TruthfulProgress(p, n, m.from, pr);
    case Some(d) =>
      var e := if d.state == Replicate then BecomeProbe(d) else d;
      TruthfulProgress(p, n, m.from, e);
      SendAppendRefines(p, SetProgress(n, m.from, e), m.from);
  }

  lemma AppendAckedRefines(p: Proto, n: Node, m: Message) returns (q: Proto)
    requires Inv(p) && NodeOk(p, n) && n.role == Leader && m.MsgAppResp? && m.from in n.prs
    requires m.index <= AckOf(p.ack, n.term, m.from)
    ensures Refined(p, q, n, StepAppendAcked(n, m))
  {
    hide Inv, Extends, ActedBy;
    AckWithinLog(p, n, m.from);
    var pr := n.prs[m.from].(recentActive := true);
    if pr.matched >= m.index {
      q := p;
      Stays(p, n.id);
      TruthfulProgress(p, n, m.from, MaybeUpdate(pr, m.index));
    } else {
      TruthfulProgress(p, n, m.from, ProgressAfterAck(pr, m.index));
      q := AckCommitRefines(p, n, SetProgress(n, m.from, ProgressAfterAck(pr, m.index)), m.from, IsPaused(pr, n.maxInflight));
    }
  }

  ghost function AfterAck(a: Node, from: Id, wasPaused: bool): Outcome
    requires a.id in a.prs && from in a.prs
  {
    var b := a.(committed := CommitIndex(a));
    if b.committed != a.committed then BcastAppend(b)
    else if wasPaused then SendAppend(b, from)
    else Done(b, {})
  }

  lemma AckCommitRefines(p: Proto, n: Node, a: Node, from: Id, wasPaused: bool) returns (q: Proto)
    requires Inv(p) && NodeOk(p, a) && a.role == Leader && from in a.prs && a.id == n.id
    ensures Refined(p, q, n, AfterAck(a, from, wasPaused))
  {
    hide Inv, Extends, ActedBy, LeaderOk, MsgOk, BcastAppend, SendAppend, CommitIndex;
    q := CommitRefines(p, a);
    var b := a.(committed := CommitIndex(a));
    if b.committed != a.committed {
      BcastAppendRefines(q, b);
      RefinedAfter(p, q, q, n, b, BcastAppend(b));
    } else if wasPaused {
      SendAppendRefines(q, b, from);
      RefinedAfter(p, q, q, n, b, SendAppend(b, from));
    }
  }

  lemma HeartbeatRespRefines(p: Proto, n: Node, m: Message)
    requires Inv(p) && NodeOk(p, n) && n.role == Leader && m.MsgHeartbeatResp? && m.from in n.prs
    ensures Refined(p, p, n, StepHeartbeatResp(n, m))
  {
    hide Inv, Reaches, MsgOk, SendAppend, FreeTo, CandidateOk;
    Stays(p, n.id);
    var pr := n.prs[m.from].(recentActive := true);
    var f := if pr.state == Replicate && |pr.inflights| == n.maxInflight
             then pr.(inflights := FreeTo(pr.inflights, pr.inflights[0])) else pr;
    TruthfulProgress(p, n, m.from, f);
    SendAppendRefines(p, SetProgress(n, m.from, f), m.from);
  }

  lemma ProposeRefines(p: Proto, n: Node, data: seq<string>) returns (q: Proto)
    requires Inv(p) && NodeOk(p, n) && n.role == Leader
    ensures Refined(p, q, n, BcastAppend(AppendEntry(n, data)))
  {
    hide Inv, Extends, ActedBy, LeaderOk, MsgOk, BcastAppend;
    q := AppendEntryRefines(p, n, data);
    BcastAppendRefines(q, AppendEntry(n, data));
    RefinedAfter(p, q, q, n, AppendEntry(n, data), BcastAppend(AppendEntry(n, data)));
  }

  lemma CheckQuorumRefines(p: Proto, n: Node)
    requires Inv(p) && NodeOk(p, n) && n.role == Leader
    ensures Refined(p, p, n, StepLeader(n, MsgCheckQuorum))
  {
    hide Inv, Extends, ActedBy, MsgOk;
    Stays(p, n.id);
    FollowerOk(p, n, NONE);
    ProgressOk(p, n, map id | id in n.prs :: if id == n.id then n.prs[id] else n.prs[id].(recentActive := false));
  }

  lemma TransportReportRefines(p: Proto, n: Node, m: Message)
    requires Inv(p) && NodeOk(p, n) && n.role == Leader && (m.MsgUnreachable? || m.MsgSnapStatus?)
    ensures Refined(p, p, n, StepLeader(n, m))
  {
    hide Inv, Extends, ActedBy, MsgOk;
    Stays(p, n.id);
    if m.from in n.prs {
      AckWithinLog(p, n, m.from);
      var pr := if m.MsgSnapStatus? && m.reject then n.prs[m.from].(pendingSnapshot := 0) else n.prs[m.from];
      TruthfulProgress(p, n, m.from, BecomeProbe(pr));
      TruthfulProgress(p, n, m.from, BecomeProbe(pr).(paused := true));
    }
  }

  lemma StepLeaderRefines(p: Proto, n: Node, m: Message) returns (q: Proto)
    requires Inv(p) && NodeOk(p, n) && n.role == Leader
    requires Current(p, n, m)
    ensures Refined(p, q, n, StepLeader(n, m))
  {
    hide Inv, Reaches, LeaderOk, StepAppendRejected, StepAppendAcked, StepHeartbeatResp, BcastAppend, BcastHeartbeat;
    q := p;
    Stays(p, n.id);
    match m
    case MsgBeat => BcastHeartbeatRefines(p, n);
    case MsgCheckQuorum => CheckQuorumRefines(p, n);
    case MsgUnreachable(_) => TransportReportRefines(p, n, m);
    case MsgSnapStatus(_, _) => TransportReportRefines(p, n, m);
    case MsgProp(_, _, proposals) => q := ProposeRefines(p, n, proposals);
    case MsgAppResp(_, _, _, _, reject, _) =>
      if reject { AppendRejectedRefines(p, n, m); } else { q := AppendAckedRefines(p, n, m); }
    case MsgHeartbeatResp(_, _, _) => HeartbeatRespRefines(p, n, m);
    case _ =>
  }

  // ----- Step -----

  lemma StepRoleRefines(p: Proto, n: Node, m: Message) returns (q: Proto)
    requires Inv(p) && NodeOk(p, n)
    requires Current(p, n, m)
    ensures Refined(p, q, n, StepRole(n, m))
  {
    hide Inv, Extends, ActedBy, MsgOk, LeaderOk, CandidateOk, StepLeader, StepFollower, StepCandidate;
    match n.role
    case Leader => q := StepLeaderRefines(p, n, m);
    case Candidate => q := StepCandidateRefines(p, n, m);
    case Follower => q := StepFollowerRefines(p, n, m);
  }

  /** Step never panics, and everything it does is protocol actions of this node. */
  lemma StepRefines(p: Proto, n: Node, m: Message) returns (q: Proto)
    requires Inv(p) && NodeOk(p, n) && Receivable(p, n.id, m)
    ensures Refined(p, q, n, Step(n, m))
  {
    hide Inv, ActedBy, LeaderOk, CandidateOk, StepRole, StartCampaign, Extends;
    q := p;
    Stays(p, n.id);
    if m.MsgHup? {
      if n.role != Leader { q := StartCampaignRefines(p, n); }
    } else if MessageTerm(m) == 0 || MessageTerm(m) >= n.term {
      var q1 := AdoptRefines(p, n, m);
      if !IsLocalInput(m) { MsgOkGrows(p, q1, m); }
      q := StepRoleRefines(q1, Adopt(n, m), m);
      RefinedAfter(p, q1, q, n, Adopt(n, m), StepRole(Adopt(n, m), m));
    }
  }

  lemma RestartRefines(p: Proto, n: Node, savedCommit: nat) returns (q: Proto)
    requires Inv(p) && NodeOk(p, n) && n.snapped <= savedCommit <= n.committed
    ensures Reaches(p, q, n.id) && NodeOk(q, Restart(n, savedCommit)) && Restart(n, savedCommit).id == n.id
  {
    assert CommittedPrefix(p, LogOf(p.log, n.id), CommitOf(p.commit, n.id), TermOf(p.term, n.id));
    ShorterCommitted(p, n.log, n.committed, savedCommit, n.term);
    q := SetCommitReaches(p, n.id, savedCommit);
  }

  lemma CompactedOk(p: Proto, n: Node, s: nat, b: nat)
    requires NodeOk(p, n) && n.snapped <= s <= n.committed && n.base <= b <= s
    ensures NodeOk(p, Compacted(n, s, b)) && Compacted(n, s, b).id == n.id
  {
  }
}
