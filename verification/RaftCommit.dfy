/**
 * The commit rule from below: a leader never leaves behind what it may commit.
 * An entry of its own term that more than half of the members hold, as far as
 * the leader knows, is committed in every reachable state.
 */
module RaftCommit {
  import opened RaftTypes
  import opened RaftNode
  import opened RaftCluster
  import opened RaftProtocol
  import opened RaftRefinement
  import RaftSafety

  /** A leader has tried to commit what its progress map allows. */
  ghost predicate Attempted(n: Node) {
    n.role == Leader ==>
      forall i: nat | IsQuorumIndex(n.prs, i) :: i <= n.committed || TermAt(n.log, n.base, i) != n.term
  }

  /** The two maps record the same acknowledged indices. */
  ghost predicate SameMatched(a: map<Id, Progress>, b: map<Id, Progress>) {
    a.Keys == b.Keys && forall id | id in a :: a[id].matched == b[id].matched
  }

  lemma SameQuorumIndex(a: map<Id, Progress>, b: map<Id, Progress>, i: nat)
    requires SameMatched(a, b) && IsQuorumIndex(b, i)
    ensures IsQuorumIndex(a, i)
  {
    assert |a| == |a.Keys| == |b.Keys| == |b|;
    forall j: nat ensures MatchedSet(a, j) == MatchedSet(b, j) {}
  }

  /** What follows a commit attempt does not undo it. */
  lemma StillAttempted(a: Node, b: Node)
    requires Attempted(a) && SameMatched(a.prs, b.prs) && b.log == a.log && b.base == a.base && b.committed == a.committed
    requires b.term == a.term && (b.role == a.role || b.role != Leader)
    ensures Attempted(b)
  {
    hide IsQuorumIndex;
    if b.role == Leader {
      forall i: nat | IsQuorumIndex(b.prs, i) ensures i <= b.committed || TermAt(b.log, b.base, i) != b.term {
        SameQuorumIndex(a.prs, b.prs, i);
      }
    }
  }

  lemma CommitAttempts(n: Node)
    requires n.id in n.prs
    ensures Attempted(n.(committed := CommitIndex(n)))
  {
    hide IsQuorumIndex;
    var b := n.(committed := CommitIndex(n));
    forall i: nat | IsQuorumIndex(b.prs, i) ensures i <= b.committed || TermAt(b.log, b.base, i) != b.term {
      QuorumIndexUnique(n.prs, i, QuorumIndex(n.prs));
    }
  }

  lemma SendAttempted(n: Node, to: Id)
    requires Attempted(n) && to in n.prs
    ensures SendAppend(n, to).Done? ==> Attempted(SendAppend(n, to).node)
  {
    hide Attempted;
    if SendAppend(n, to).Done? { StillAttempted(n, SendAppend(n, to).node); }
  }

  lemma BcastAttempted(n: Node)
    requires Attempted(n)
    ensures BcastAppend(n).Done? ==> Attempted(BcastAppend(n).node)
  {
    hide Attempted;
    if BcastAppend(n).Done? { StillAttempted(n, BcastAppend(n).node); }
  }

  lemma AppendAttempted(n: Node, data: seq<string>)
    requires WellFormed(n)
    ensures Attempted(AppendEntry(n, data))
  {
    hide Attempted, CommitIndex;
    var log := n.log + NewEntries(n, data);
    CommitAttempts(n.(log := log, prs := n.prs[n.id := MaybeUpdate(n.prs[n.id], |log|)]));
  }

  lemma ElectedAttempted(n: Node)
    requires WellFormed(n)
    ensures Attempted(BecomeLeader(n))
  {
    hide Attempted, AppendEntry;
    AppendAttempted(Reset(n, n.term).(lead := n.id, role := Leader), [""]);
  }

  lemma AckedAttempted(n: Node, m: Message)
    requires Attempted(n) && m.MsgAppResp? && m.from in n.prs && n.id in n.prs
    ensures StepAppendAcked(n, m).Done? ==> Attempted(StepAppendAcked(n, m).node)
  {
    hide Attempted, CommitIndex, BcastAppend, SendAppend, ProgressAfterAck;
    var pr := n.prs[m.from].(recentActive := true);
    if pr.matched >= m.index {
      StillAttempted(n, SetProgress(n, m.from, MaybeUpdate(pr, m.index)));
    } else {
      var a := SetProgress(n, m.from, ProgressAfterAck(pr, m.index));
      CommitAttempts(a);
      var b := a.(committed := CommitIndex(a));
      BcastAttempted(b);
      SendAttempted(b, m.from);
    }
  }

  lemma RejectedAttempted(n: Node, m: Message)
    requires Attempted(n) && m.MsgAppResp? && m.from in n.prs
    ensures StepAppendRejected(n, m).Done? ==> Attempted(StepAppendRejected(n, m).node)
  {
    hide Attempted, SendAppend;
    var pr := n.prs[m.from].(recentActive := true);
    match MaybeDecrTo(pr, m.index, m.rejectHint)
    case None => StillAttempted(n, SetProgress(n, m.from, pr));
    case Some(d) =>
      var a := SetProgress(n, m.from, if d.state == Replicate then BecomeProbe(d) else d);
      StillAttempted(n, a);
      SendAttempted(a, m.from);
  }

  lemma HeartbeatRespAttempted(n: Node, m: Message)
    requires Attempted(n) && m.MsgHeartbeatResp? && m.from in n.prs && n.maxInflight >= 1
    ensures StepHeartbeatResp(n, m).Done? ==> Attempted(StepHeartbeatResp(n, m).node)
  {
    hide Attempted, SendAppend;
    var pr := n.prs[m.from].(recentActive := true);
    var f := if pr.state == Replicate && |pr.inflights| == n.maxInflight
             then pr.(inflights := FreeTo(pr.inflights, pr.inflights[0])) else pr;
    var a := SetProgress(n, m.from, f);
    StillAttempted(n, a);
    SendAttempted(a, m.from);
  }

  lemma LeaderAttempted(n: Node, m: Message)
    requires WellFormed(n) && Attempted(n) && StepLeader(n, m).Done?
    ensures Attempted(StepLeader(n, m).node)
  {
    hide Attempted, AppendEntry, BcastAppend, StepAppendAcked, StepAppendRejected, StepHeartbeatResp, QuorumActive;
    match m
    case MsgProp(_, _, proposals) =>
      AppendAttempted(n, proposals);
      BcastAttempted(AppendEntry(n, proposals));
    case MsgAppResp(from, _, _, _, reject, _) =>
      if from in n.prs { if reject { RejectedAttempted(n, m); } else { AckedAttempted(n, m); } }
    case MsgHeartbeatResp(from, _, _) =>
      if from in n.prs { HeartbeatRespAttempted(n, m); }
    case _ =>
      OtherAttempted(n, m);
  }

  lemma FollowerAttempted(n: Node)
    requires n.role != Leader
    ensures Attempted(n)
  {
  }

  lemma OtherAttempted(n: Node, m: Message)
    requires WellFormed(n) && Attempted(n) && StepLeader(n, m).Done?
    requires !m.MsgProp? && !m.MsgAppResp? && !m.MsgHeartbeatResp?
    ensures Attempted(StepLeader(n, m).node)
  {
    hide Attempted, QuorumActive;
    var d := StepLeader(n, m).node;
    if d.role == Leader { StillAttempted(n, d); } else { FollowerAttempted(d); }
  }

  lemma CandidateAttempted(n: Node, m: Message)
    requires WellFormed(n) && n.role == Candidate && StepCandidate(n, m).Done?
    ensures Attempted(StepCandidate(n, m).node)
  {
    hide Attempted, BecomeLeader, BcastAppend, MaybeAppend, Granted;
    var d := StepCandidate(n, m).node;
    if m.MsgVoteResp? {
      var p := n.(votes := Poll(n.votes, m.from, !m.reject));
      ElectedAttempted(p);
      BcastAttempted(BecomeLeader(p));
    }
    if d.role != Leader { FollowerAttempted(d); }
  }

  lemma StepAttempted(n: Node, m: Message)
    requires WellFormed(n) && Attempted(n) && Step(n, m).Done?
    ensures Attempted(Step(n, m).node)
  {
    hide Attempted, StepLeader, StepCandidate, StepFollower, BecomeLeader, Granted;
    if m.MsgHup? {
      var c := BecomeCandidate(n);
      ElectedAttempted(c.(votes := Poll(c.votes, c.id, true)));
      if Step(n, m).node.role != Leader { FollowerAttempted(Step(n, m).node); }
    } else if !(0 < MessageTerm(m) < n.term) {
      var a := Adopt(n, m);
      match a.role
      case Leader => LeaderAttempted(a, m);
      case Candidate => CandidateAttempted(a, m);
      case Follower =>
        StillFollower(a, m);
        FollowerAttempted(Step(n, m).node);
    }
  }

  lemma StillFollower(n: Node, m: Message)
    requires n.role == Follower && StepFollower(n, m).Done?
    ensures StepFollower(n, m).node.role == Follower
  {
    hide MaybeAppend;
  }

  lemma CompactedAttempted(n: Node, s: nat, b: nat)
    requires Attempted(n) && n.base <= b <= s <= n.committed
    ensures Attempted(Compacted(n, s, b))
  {
  }

  lemma NextAttempted(c: Cluster, d: Cluster, id: Id)
    requires Next(c, d) && id in c.nodes && Attempted(c.nodes[id])
    ensures id in d.nodes && Attempted(d.nodes[id])
  {
    hide Attempted, Step;
    if j, m :| Steps(c, d, j, m) {
      if j == id { StepAttempted(c.nodes[id], m); }
    } else if j, k :| Restarts(c, d, j, k) {
      if j == id { FollowerAttempted(d.nodes[id]); }
    } else {
      var j, s, b :| Compacts(c, d, j, s, b);
      if j == id { CompactedAttempted(c.nodes[id], s, b); }
    }
  }

  lemma {:induction false} RunAttempted(run: seq<Cluster>, boot: Log, i: nat, id: Id)
    requires IsRun(run, boot) && i < |run| && id in run[i].nodes
    ensures Attempted(run[i].nodes[id])
    decreases i
  {
    hide Next, Attempted;
    if i == 0 {
      FollowerAttempted(run[0].nodes[id]);
    } else {
      assert Next(run[i-1], run[i]);
      SameMembers(run[i-1], run[i]);
      RunAttempted(run, boot, i - 1, id);
      NextAttempted(run[i-1], run[i], id);
    }
  }

  lemma SameMembers(c: Cluster, d: Cluster)
    requires Next(c, d)
    ensures d.nodes.Keys == c.nodes.Keys
  {
    hide Step;
  }

  /** Between an entry of the leader's term and the end of its log all entries are of that term. */
  lemma OwnFromThere(p: Proto, n: Node, i: nat, j: nat)
    requires Inv(p) && NodeOk(p, n) && 0 < i <= j <= |n.log| && n.log[i-1].term == n.term
    ensures n.log[j-1].term == n.term
  {
    hide Elected, AcksKept, VotesCarry, Complete, CommitsChosen, LeaderOk, CandidateOk;
    assert Matches(p.llog, LogOf(p.log, n.id));
    assert MatchedAt(p.llog, n.log, j - 1);
    assert TermsUpTo(n.log, n.term);
  }

  /** What a leader has recorded lies within its log. */
  lemma MatchedWithin(p: Proto, n: Node, id: Id)
    requires Inv(p) && NodeOk(p, n) && n.role == Leader && id in n.prs
    ensures n.prs[id].matched <= |n.log|
  {
    hide Elected, LogsMatch, AcksKept, VotesCarry, Complete, CommitsChosen, CandidateOk;
  }

  lemma MajorityCommitted(p: Proto, n: Node, i: nat)
    requires Inv(p) && NodeOk(p, n) && Attempted(n) && n.role == Leader
    requires 0 < i <= |n.log| && n.log[i-1].term == n.term && 2 * |set v | v in n.prs && n.prs[v].matched >= i| > |n.prs|
    ensures i <= n.committed
  {
    hide Inv, NodeOk;
    assert n.prs.Keys != {} by { Member(p, n); }
    var q := QuorumIndex(n.prs);
    assert MatchedSet(n.prs, i) == set v | v in n.prs && n.prs[v].matched >= i;
    assert i <= q;
    assert |MatchedSet(n.prs, q)| > 0;
    var v :| v in MatchedSet(n.prs, q);
    MatchedWithin(p, n, v);
    OwnFromThere(p, n, i, q);
    Member(p, n);
  }

  lemma Member(p: Proto, n: Node)
    requires NodeOk(p, n)
    ensures n.id in n.prs && n.base <= n.committed
  {
  }

  /** In every reachable state a leader has committed every entry of its own term that, by what it
      has recorded, more than half of the members hold. */
  lemma CommitRule(run: seq<Cluster>, boot: Log, i: nat, a: Id, k: nat)
    requires IsRun(run, boot) && i < |run| && a in run[i].nodes && run[i].nodes[a].role == Leader
    requires 0 < k <= |run[i].nodes[a].log| && run[i].nodes[a].log[k-1].term == run[i].nodes[a].term
    requires var prs := run[i].nodes[a].prs; 2 * |set v | v in prs && prs[v].matched >= k| > |prs|
    ensures k <= run[i].nodes[a].committed
  {
    hide IsRun, Inv, NodeOk, Attempted, MsgOk;
    var hs := RaftSafety.RunHistories(run, boot);
    assert ClusterOk(run[i], hs[i]);
    RunAttempted(run, boot, i, a);
    MajorityCommitted(hs[i], run[i].nodes[a], k);
  }
}
