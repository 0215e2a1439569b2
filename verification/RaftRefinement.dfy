/** Every node step carries out protocol actions and keeps what messages and roles promise. */
module RaftRefinement {
  import opened Options
  import opened RaftTypes
  import opened RaftNode
  import opened RaftProtocol
  import opened RaftInvariant
  import opened RaftCluster

  // ----- How nodes and messages relate to the protocol's history -----

  ghost predicate LeaderOk(p: Proto, n: Node) {
    && LeaderOf(p.leader, n.term) == n.id && LLog(p.llog, n.term) == n.log
    && forall v | v in n.prs ::
         n.prs[v].matched <= AckOf(p.ack, n.term, v) && n.prs[v].next <= |n.log| + 1 && n.prs[v].pendingSnapshot <= |n.log|
  }

  ghost predicate CandidateOk(p: Proto, n: Node) {
    && n.vote == n.id && LeaderOf(p.leader, n.term) != n.id && CLog(p.clog, n.term, n.id) == n.log
    && n.votes.Keys <= p.members
    && forall v | v in n.votes && n.votes[v] :: VoteOf(p.vote, n.term, v) == n.id
  }

  ghost predicate NodeOk(p: Proto, n: Node) {
    && n.id != NONE && n.id in p.members && n.prs.Keys == p.members && n.maxInflight >= 1 && n.term >= 1
    && TermOf(p.term, n.id) == n.term && LogOf(p.log, n.id) == n.log && CommitOf(p.commit, n.id) == n.committed
    && VoteOf(p.vote, n.term, n.id) == n.vote
    && n.base <= n.snapped <= n.committed <= |n.log|
    && (n.role == Leader ==> LeaderOk(p, n))
    && (n.role == Candidate ==> CandidateOk(p, n))
  }

  /** The first k entries of leader t's log are committed. */
  ghost predicate KnownCommitted(p: Proto, t: nat, k: nat) {
    CommittedPrefix(p, LLog(p.llog, t), k, t)
  }

  ghost predicate AppendOk(p: Proto, m: Message)
    requires m.MsgApp?
  {
    var l := LLog(p.llog, m.term);
    && m.term in p.llog
    && m.index + |m.entries| <= |l|
    && m.entries == l[m.index..m.index + |m.entries|]
    && m.logTerm == TermAt(l, 0, m.index)
    && KnownCommitted(p, m.term, m.commit)
  }

  ghost predicate MsgOk(p: Proto, m: Message) {
    match m
    case MsgVote(from, to, term, index, logTerm) =>
      from in p.members && term >= 1 && IsCandidate(p.vote, term, from) &&
      index == |CLog(p.clog, term, from)| && logTerm == LastTerm(CLog(p.clog, term, from))
    case MsgVoteResp(from, to, term, reject) =>
      from in p.members && term >= 1 && (!reject ==> to != NONE && VoteOf(p.vote, term, from) == to)
    case MsgApp(from, to, term, _, _, _, _) =>
      from in p.members && term >= 1 && AppendOk(p, m)
    case MsgAppResp(from, to, term, index, reject, _) =>
      from in p.members && term >= 1 && (!reject ==> index <= AckOf(p.ack, term, from))
    case MsgSnap(from, to, term, snapshot) =>
      from in p.members && term >= 1 && term in p.llog && snapshot != [] && |snapshot| <= |LLog(p.llog, term)| &&
      snapshot == LLog(p.llog, term)[..|snapshot|] && KnownCommitted(p, term, |snapshot|)
    case MsgHeartbeat(from, to, term, commit) =>
      from in p.members && term >= 1 && term in p.llog && commit <= AckOf(p.ack, term, to) && KnownCommitted(p, term, commit)
    case MsgHeartbeatResp(from, to, term) => from in p.members && term >= 1
    case MsgProp(_, _, proposals) => proposals != []
    case _ => true
  }

  ghost predicate NodesOk(nodes: map<Id, Node>, p: Proto) {
    p.members == nodes.Keys && forall id | id in nodes :: nodes[id].id == id && NodeOk(p, nodes[id])
  }

  ghost predicate ClusterOk(c: Cluster, p: Proto) {
    Inv(p) && NodesOk(c.nodes, p) && forall m | m in c.net :: MsgOk(p, m)
  }

  /** Only member id acted between p and q. */
  ghost predicate ActedBy(p: Proto, q: Proto, id: Id) {
    && (forall v: Id | v != id ::
          TermOf(q.term, v) == TermOf(p.term, v) && LogOf(q.log, v) == LogOf(p.log, v) &&
          CommitOf(q.commit, v) == CommitOf(p.commit, v))
    && (forall t: nat, v: Id | v != id :: VoteOf(q.vote, t, v) == VoteOf(p.vote, t, v))
    && (forall t: nat :: LeaderOf(q.leader, t) == LeaderOf(p.leader, t) || (t !in p.llog && LeaderOf(q.leader, t) == id))
    && (forall t: nat | t in p.llog && LeaderOf(p.leader, t) != id :: LLog(q.llog, t) == LLog(p.llog, t))
  }

  /** q is reached from p by actions of member id. */
  ghost predicate Reaches(p: Proto, q: Proto, id: Id) {
    Inv(q) && Extends(p, q) && ActedBy(p, q, id)
  }

  lemma ExtendsTransitive(p: Proto, q: Proto, r: Proto)
    requires Extends(p, q) && Extends(q, r)
    ensures Extends(p, r)
  {
    forall t: nat ensures GrowsAt(p.llog, r.llog, t) {
      assert GrowsAt(p.llog, q.llog, t) && GrowsAt(q.llog, r.llog, t);
    }
    forall t: nat, c: Id | IsCandidate(p.vote, t, c) ensures CLog(r.clog, t, c) == CLog(p.clog, t, c) {
      assert IsCandidate(q.vote, t, c);
    }
  }

  lemma ActedByTransitive(p: Proto, q: Proto, r: Proto, id: Id)
    requires ActedBy(p, q, id) && ActedBy(q, r, id) && LogsGrow(p.llog, q.llog)
    ensures ActedBy(p, r, id)
  {
    forall t: nat ensures t in p.llog ==> t in q.llog {
      assert GrowsAt(p.llog, q.llog, t);
    }
  }

  lemma ReachesTransitive(p: Proto, q: Proto, r: Proto, id: Id)
    requires Reaches(p, q, id) && Reaches(q, r, id)
    ensures Reaches(p, r, id)
  {
    ExtendsTransitive(p, q, r);
    ActedByTransitive(p, q, r, id);
  }

  // ----- What other members' steps preserve -----

  lemma MsgOkGrows(p: Proto, q: Proto, m: Message)
    requires MsgOk(p, m) && Extends(p, q)
    ensures MsgOk(q, m)
  {
    hide KnownCommitted;
    match m
    case MsgVote(from, _, term, _, _) =>
      assert IsCandidate(q.vote, term, from);
    case MsgApp(_, _, term, _, _, _, commit) =>
      assert GrowsAt(p.llog, q.llog, term);
      KnownCommittedGrows(p, q, term, commit);
    case MsgSnap(_, _, term, snapshot) =>
      assert GrowsAt(p.llog, q.llog, term);
      KnownCommittedGrows(p, q, term, |snapshot|);
    case MsgHeartbeat(_, _, term, commit) =>
      assert GrowsAt(p.llog, q.llog, term);
      KnownCommittedGrows(p, q, term, commit);
    case _ =>
  }

  lemma KnownCommittedGrows(p: Proto, q: Proto, t: nat, k: nat)
    requires Extends(p, q) && KnownCommitted(p, t, k)
    ensures KnownCommitted(q, t, k)
  {
    assert GrowsAt(p.llog, q.llog, t);
    CommittedGrows(p, q, LLog(p.llog, t), k, t, t);
    LongerLogCommitted(q, LLog(p.llog, t), LLog(q.llog, t), k, t);
  }

  lemma NodeOkGrows(p: Proto, q: Proto, n: Node, id: Id)
    requires Elected(p) && NONE !in p.members && NodeOk(p, n) && Extends(p, q) && ActedBy(p, q, id) && n.id != id
    ensures NodeOk(q, n)
  {
    if n.role == Candidate {
      assert IsCandidate(p.vote, n.term, n.id);
    }
  }

  lemma NetStep(net: set<Message>, p: Proto, q: Proto, msgs: set<Message>)
    requires (forall m | m in net :: MsgOk(p, m)) && Extends(p, q) && (forall m | m in msgs :: MsgOk(q, m))
    ensures forall m | m in net + msgs :: MsgOk(q, m)
  {
    forall m | m in net + msgs ensures MsgOk(q, m) {
      if m in net { MsgOkGrows(p, q, m); }
    }
  }

  lemma OthersOk(p: Proto, q: Proto, id: Id)
    requires Elected(p) && NONE !in p.members && Extends(p, q) && ActedBy(p, q, id)
    ensures forall n: Node | n.id != id && NodeOk(p, n) :: NodeOk(q, n)
  {
    forall n: Node | n.id != id && NodeOk(p, n) ensures NodeOk(q, n) {
      NodeOkGrows(p, q, n, id);
    }
  }

  lemma NodesStep(nodes: map<Id, Node>, after: map<Id, Node>, p: Proto, q: Proto, id: Id, n: Node)
    requires NodesOk(nodes, p) && id in nodes && after == nodes[id := n] && p.members == q.members
    requires n.id == id && NodeOk(q, n) && forall m: Node | m.id != id && NodeOk(p, m) :: NodeOk(q, m)
    ensures NodesOk(after, q)
  {
    hide NodeOk;
    assert after.Keys == nodes.Keys;
  }

  /** One node's step, justified by protocol actions of that node, keeps the whole cluster in order. */
  lemma ClusterStep(c: Cluster, d: Cluster, p: Proto, q: Proto, id: Id, n: Node, msgs: set<Message>)
    requires ClusterOk(c, p) && id in c.nodes && d == Cluster(c.nodes[id := n], c.net + msgs)
    requires Reaches(p, q, id) && n.id == id && NodeOk(q, n) && forall m | m in msgs :: MsgOk(q, m)
    ensures ClusterOk(d, q)
  {
    NetStep(c.net, p, q, msgs);
    OthersOk(p, q, id);
    NodesStep(c.nodes, d.nodes, p, q, id, n);
  }

  // ----- Accepting a leader's entries -----

  /** Two matching logs that have the same term at an index agree up to it. */
  lemma SameTermAgree(p: Proto, a: Log, base: nat, b: Log, i: nat)
    requires Matches(p.llog, a) && Matches(p.llog, b) && Indexed(b)
    requires i <= |b| && TermAt(a, base, i) == TermAt(b, 0, i)
    ensures Agree(a, b, i)
  {
    if i > 0 {
      assert MatchedAt(p.llog, a, i - 1) && MatchedAt(p.llog, b, i - 1);
    }
  }

  lemma {:induction false} ConflictFound(p: Proto, log: Log, base: nat, l: Log, i: nat, k: nat) returns (j: nat)
    requires Matches(p.llog, log) && Matches(p.llog, l) && Indexed(l)
    requires base <= i <= k <= |l| && Agree(log, l, i)
    ensures FindConflict(log, base, l[i..k]) == 0 ==> Agree(log, l, k)
    ensures FindConflict(log, base, l[i..k]) != 0 ==>
              i <= j < k && FindConflict(log, base, l[i..k]) == j + 1 && Agree(log, l, j) && !Agree(log, l, j + 1)
    decreases k - i
  {
    j := i;
    if i < k {
      assert l[i..k][0] == l[i];
      if MatchTerm(log, base, i + 1, l[i].term) {
        SameTermAgree(p, log, base, l, i + 1);
        assert l[i..k][1..] == l[i+1..k];
        j := ConflictFound(p, log, base, l, i + 1, k);
      }
    }
  }

  /** What the leader sent is accepted exactly if the logs agree up to where it starts. It makes the
      follower's log the merge of the two, and nothing committed is ever overwritten. */
  lemma MaybeAppendMerges(p: Proto, log: Log, base: nat, committed: nat, l: Log, index: nat, k: nat, commit: nat)
    requires Matches(p.llog, log) && Matches(p.llog, l) && Indexed(l)
    requires base <= committed <= index <= k <= |l| && Agree(log, l, committed)
    ensures var r := MaybeAppend(log, base, committed, index, TermAt(l, 0, index), commit, l[index..k]);
            && !r.AppendPanic? && (r.Accepted? <==> Agree(log, l, index))
            && (r.Accepted? ==>
                  && r.lastNew == k && r.log == Merged(log, l, k)
                  && r.committed == Max(committed, Min(commit, k)))
  {
    hide FindConflict, Matches;
    if MatchTerm(log, base, index, TermAt(l, 0, index)) {
      SameTermAgree(p, log, base, l, index);
      var j := ConflictFound(p, log, base, l, index, k);
      var ents := l[index..k];
      if FindConflict(log, base, ents) != 0 {
        assert ents[j - index..] == l[j..k];
        assert log[..j] + l[j..k] == l[..k];
        assert Append(log, committed, ents[j - index..]) == Some(l[..k]);
      }
    }
  }

  // ----- Protocol actions as steps of one member -----

  lemma Stays(p: Proto, id: Id)
    requires Inv(p)
    ensures Reaches(p, p, id)
  {
    forall t: nat ensures GrowsAt(p.llog, p.llog, t) {}
  }

  lemma BumpTermReaches(p: Proto, id: Id, t: nat) returns (q: Proto)
    requires Inv(p) && id in p.members && t > TermOf(p.term, id)
    ensures Reaches(p, q, id) && BumpTerm(p, q, id, t)
  {
    q := p.(term := p.term[id := t]);
    BumpTermKeeps(p, q, id, t);
  }

  lemma CampaignReaches(p: Proto, id: Id) returns (q: Proto)
    requires Inv(p) && id in p.members && TermOf(p.term, id) >= 1
    ensures Reaches(p, q, id) && Campaign(p, q, id)
  {
    var t := TermOf(p.term, id) + 1;
    q := p.(term := p.term[id := t], vote := p.vote[(t, id) := id], clog := p.clog[(t, id) := LogOf(p.log, id)]);
    CampaignKeeps(p, q, id);
    VoteUpdate(p.vote, q.vote, t, id, id);
  }

  lemma CastVoteReaches(p: Proto, id: Id, c: Id) returns (q: Proto)
    requires Inv(p) && id in p.members
    requires var t := TermOf(p.term, id);
             VoteOf(p.vote, t, id) == NONE && IsCandidate(p.vote, t, c) &&
             UpToDate(LogOf(p.log, id), |CLog(p.clog, t, c)|, LastTerm(CLog(p.clog, t, c)))
    ensures Reaches(p, q, id) && CastVote(p, q, id, c)
  {
    var t := TermOf(p.term, id);
    q := p.(vote := p.vote[(t, id) := c]);
    CastVoteKeeps(p, q, id, c);
    VoteUpdate(p.vote, q.vote, t, id, c);
  }

  lemma ElectReaches(p: Proto, id: Id) returns (q: Proto)
    requires Inv(p) && id in p.members
    requires var t := TermOf(p.term, id);
             t !in p.llog && IsCandidate(p.vote, t, id) && LogOf(p.log, id) == CLog(p.clog, t, id) &&
             IsQuorum(p.members, Voters(p, t, id))
    ensures Reaches(p, q, id) && Elect(p, q, id)
  {
    hide Inv, Extends;
    var t := TermOf(p.term, id);
    var l := LogOf(p.log, id);
    q := p.(leader := p.leader[t := id], llog := p.llog[t := l], ack := p.ack[(t, id) := |l|]);
    ElectKeeps(p, q, id);
    LLogUpdate(p.llog, q.llog, t, l);
  }

  lemma LeaderAppendReaches(p: Proto, id: Id, es: Log) returns (q: Proto)
    requires Inv(p) && id in p.members
    requires var t := TermOf(p.term, id);
             LeaderOf(p.leader, t) == id && LLog(p.llog, t) == LogOf(p.log, id) &&
             forall k | 0 <= k < |es| :: es[k].term == t && es[k].index == |LogOf(p.log, id)| + k + 1
    ensures Reaches(p, q, id) && LeaderAppend(p, q, id, es)
  {
    hide Inv, Extends;
    var t := TermOf(p.term, id);
    var l := LogOf(p.log, id) + es;
    q := p.(log := p.log[id := l], llog := p.llog[t := l], ack := p.ack[(t, id) := |l|]);
    LeaderAppendKeeps(p, q, id, es);
    LLogUpdate(p.llog, q.llog, t, l);
  }

  lemma AcceptReaches(p: Proto, id: Id, k: nat) returns (q: Proto)
    requires Inv(p) && id in p.members
    requires TermOf(p.term, id) in p.llog && k <= |LLog(p.llog, TermOf(p.term, id))|
    ensures Reaches(p, q, id) && Accept(p, q, id, k) && AckOf(q.ack, TermOf(p.term, id), id) >= k
  {
    var t := TermOf(p.term, id);
    q := p.(log := p.log[id := Merged(LogOf(p.log, id), LLog(p.llog, t), k)],
            ack := p.ack[(t, id) := Max(AckOf(p.ack, t, id), k)]);
    AcceptKeeps(p, q, id, k);
  }

  lemma SetCommitReaches(p: Proto, id: Id, k: nat) returns (q: Proto)
    requires Inv(p) && id in p.members && CommittedPrefix(p, LogOf(p.log, id), k, TermOf(p.term, id))
    ensures Reaches(p, q, id) && SetCommit(p, q, id, k)
  {
    q := p.(commit := p.commit[id := k]);
    SetCommitKeeps(p, q, id, k);
  }

  // ----- Parts of a step -----

  /** Outcome o of node n is justified by protocol actions from p to q. */
  ghost predicate Refined(p: Proto, q: Proto, n: Node, o: Outcome) {
    && o.Done? && o.node.id == n.id && Reaches(p, q, n.id) && NodeOk(q, o.node)
    && forall m | m in o.msgs :: MsgOk(q, m)
  }

  lemma RefinedAfter(p: Proto, q: Proto, r: Proto, n: Node, k: Node, o: Outcome)
    requires Reaches(p, q, n.id) && Refined(q, r, k, o) && k.id == n.id
    ensures Refined(p, r, n, o)
  {
    ReachesTransitive(p, q, r, n.id);
  }

  lemma FollowerOk(p: Proto, n: Node, lead: Id)
    requires NodeOk(p, n)
    ensures NodeOk(p, BecomeFollower(n, n.term, lead))
  {
  }

  lemma AdoptRefines(p: Proto, n: Node, m: Message) returns (q: Proto)
    requires Inv(p) && NodeOk(p, n)
    ensures Reaches(p, q, n.id) && NodeOk(q, Adopt(n, m))
  {
    var t := MessageTerm(m);
    if t > n.term {
      q := BumpTermReaches(p, n.id, t);
      assert VoteOf(p.vote, t, n.id) == NONE;
    } else {
      q := p;
      Stays(p, n.id);
    }
  }

  /** Progress that keeps what was acknowledged and stays within the log. */
  ghost predicate SameMatched(n: Node, prs: map<Id, Progress>) {
    prs.Keys == n.prs.Keys &&
    forall v | v in prs ::
      && prs[v].matched == n.prs[v].matched
      && (n.prs[v].next <= |n.log| + 1 && n.prs[v].pendingSnapshot <= |n.log| && n.snapped <= |n.log| ==>
            prs[v].next <= |n.log| + 1 && prs[v].pendingSnapshot <= |n.log|)
  }

  /** A leader whose commit index is committed in its own log. */
  ghost predicate Leading(p: Proto, n: Node) {
    NodeOk(p, n) && n.role == Leader && n.term in p.llog && KnownCommitted(p, n.term, n.committed)
  }

  lemma LeaderIsLeading(p: Proto, n: Node)
    requires Inv(p) && NodeOk(p, n) && n.role == Leader
    ensures Leading(p, n)
  {
    assert LeaderOf(p.leader, n.term) != NONE;
    assert CommittedPrefix(p, LogOf(p.log, n.id), CommitOf(p.commit, n.id), TermOf(p.term, n.id));
  }

  lemma ProgressOk(p: Proto, n: Node, prs: map<Id, Progress>)
    requires NodeOk(p, n) && n.role == Leader && SameMatched(n, prs)
    ensures NodeOk(p, n.(prs := prs))
  {
  }

  lemma AppendMessageOk(p: Proto, n: Node, to: Id)
    requires Leading(p, n) && to in n.prs && !NeedsSnapshot(n, to)
    ensures MsgOk(p, AppendMessage(n, to))
  {
    var next := n.prs[to].next;
    var ents := EntriesFrom(n.log, next, n.maxMsgSize);
    if next <= |n.log| {
      assert ents <= n.log[next-1..];
    }
    assert ents == n.log[next-1..next-1+|ents|];
  }

  lemma SnapMessageOk(p: Proto, n: Node, to: Id)
    requires Leading(p, n) && n.snapped > 0
    ensures MsgOk(p, SnapMessage(n, to))
  {
    ShorterCommitted(p, n.log, n.committed, n.snapped, n.term);
  }

  /** A leader that must send a snapshot has one. */
  lemma AppendMessagesOk(p: Proto, n: Node, to: Id)
    requires Leading(p, n) && to in n.prs
    ensures !LacksSnapshot(n, to) && forall m | m in AppendMessages(n, to) :: MsgOk(p, m)
  {
    if NeedsSnapshot(n, to) { SnapMessageOk(p, n, to); } else { AppendMessageOk(p, n, to); }
  }

  lemma SendAppendOk(p: Proto, n: Node, to: Id)
    requires Leading(p, n) && to in n.prs
    ensures SendAppend(n, to).Done? && NodeOk(p, SendAppend(n, to).node)
    ensures forall m | m in SendAppend(n, to).msgs :: MsgOk(p, m)
  {
    AppendMessagesOk(p, n, to);
    ProgressOk(p, n, n.prs[to := ProgressAfterAppend(n, to)]);
  }

  lemma BcastAppendOk(p: Proto, n: Node)
    requires Leading(p, n)
    ensures BcastAppend(n).Done? && NodeOk(p, BcastAppend(n).node)
    ensures forall m | m in BcastAppend(n).msgs :: MsgOk(p, m)
  {
    hide MsgOk, AppendMessages;
    forall id | id in n.prs ensures !LacksSnapshot(n, id) && forall m | m in AppendMessages(n, id) :: MsgOk(p, m) {
      AppendMessagesOk(p, n, id);
    }
    ProgressOk(p, n, BcastAppend(n).node.prs);
  }

  lemma HeartbeatOk(p: Proto, n: Node, to: Id)
    requires Leading(p, n) && to in n.prs
    ensures MsgOk(p, HeartbeatMessage(n, to))
  {
    ShorterCommitted(p, n.log, n.committed, Min(n.prs[to].matched, n.committed), n.term);
  }

  lemma BcastHeartbeatOk(p: Proto, n: Node)
    requires Leading(p, n)
    ensures NodeOk(p, BcastHeartbeat(n).node) && forall m | m in BcastHeartbeat(n).msgs :: MsgOk(p, m)
  {
    var o := BcastHeartbeat(n);
    ProgressOk(p, n, o.node.prs);
    forall m | m in o.msgs ensures MsgOk(p, m) {
      var id :| id in n.prs && m == HeartbeatMessage(n, id);
      HeartbeatOk(p, n, id);
    }
  }

  lemma ShorterCommitted(p: Proto, l: Log, k: nat, j: nat, u: nat)
    requires CommittedPrefix(p, l, k, u) && j <= k
    ensures CommittedPrefix(p, l, j, u)
  {
    if j > 0 {
      var t: nat, i: nat :| Chosen(p, t, i) && t <= u && k <= i && Agree(l, LLog(p.llog, t), k);
      assert Agree(l, LLog(p.llog, t), j);
    }
  }

  lemma SendAppendRefines(p: Proto, n: Node, to: Id)
    requires Inv(p) && NodeOk(p, n) && n.role == Leader && to in n.prs
    ensures Refined(p, p, n, SendAppend(n, to))
  {
    Stays(p, n.id);
    LeaderIsLeading(p, n);
    SendAppendOk(p, n, to);
  }

  lemma BcastAppendRefines(p: Proto, n: Node)
    requires Inv(p) && NodeOk(p, n) && n.role == Leader
    ensures Refined(p, p, n, BcastAppend(n))
  {
    Stays(p, n.id);
    LeaderIsLeading(p, n);
    BcastAppendOk(p, n);
  }

  lemma BcastHeartbeatRefines(p: Proto, n: Node)
    requires Inv(p) && NodeOk(p, n) && n.role == Leader
    ensures Refined(p, p, n, BcastHeartbeat(n))
  {
    Stays(p, n.id);
    LeaderIsLeading(p, n);
    BcastHeartbeatOk(p, n);
  }
}
