/**
 * What a round of messages achieves. Safety alone would also hold of nodes that
 * never vote, send or accept; these theorems say that an election, an append, a
 * heartbeat and a snapshot do what they are for when nothing is lost.
 */
module RaftRounds {
  import opened Options
  import opened RaftTypes
  import opened RaftNode
  import opened RaftCluster
  import opened RaftProtocol
  import opened RaftRefinement
  import opened RaftSteps
  import RaftSafety
  import RaftImpl

  // ----- Votes -----

  function LastTermOf(log: Log): nat { if log == [] then 0 else log[|log|-1].term }

  /** The candidate's log is at least as up to date: a later last term, or the same and no shorter. */
  predicate NotBehind(lastTerm: nat, lastIndex: nat, voter: Log) {
    lastTerm > LastTermOf(voter) || (lastTerm == LastTermOf(voter) && lastIndex >= |voter|)
  }

  /** A vote request is granted exactly if the voter is free in that term and the candidate's log is
      not behind; the vote is recorded and the answer says so. */
  lemma VoteExact(n: Node, m: Message)
    requires WellFormed(n) && n.base <= |n.log| && m.MsgVote? && m.term >= n.term >= 1
    ensures var free := m.term > n.term || (n.role == Follower && (n.vote == NONE || n.vote == m.from));
            var granted := free && NotBehind(m.logTerm, m.index, n.log);
            && Step(n, m).Done? && Step(n, m).msgs == {MsgVoteResp(n.id, m.from, m.term, !granted)}
            && Step(n, m).node.term == m.term && Step(n, m).node.log == n.log
            && Step(n, m).node.vote == (if granted then m.from else if m.term > n.term then NONE else n.vote)
  {
  }

  /** Of two logs at least one is not behind the other, and both are exactly if they end alike. */
  lemma NotBehindTotal(a: Log, b: Log)
    ensures NotBehind(LastTermOf(a), |a|, b) || NotBehind(LastTermOf(b), |b|, a)
    ensures NotBehind(LastTermOf(a), |a|, b) && NotBehind(LastTermOf(b), |b|, a) <==>
            LastTermOf(a) == LastTermOf(b) && |a| == |b|
  {
  }

  // ----- Elections -----

  /** A node that is handed messages one after the other. */
  ghost function Heard(n: Node, ms: seq<Message>): Option<Node> {
    if ms == [] then Some(n)
    else match Heard(n, ms[..|ms|-1])
      case None => None
      case Some(x) =>
        if !WellFormed(x) then None
        else match Step(x, ms[|ms|-1])
          case Panic => None
          case Done(y, _) => Some(y)
  }

  /** The votes of these voters and of the candidate itself, all granted. */
  function AllGranted(c: Id, vs: seq<Node>): map<Id, bool> { map v | v in {c} + Ids(vs) :: true }

  function Ids(vs: seq<Node>): set<Id> { set i | 0 <= i < |vs| :: vs[i].id }

  ghost predicate Distinct(vs: seq<Node>) { forall i, j | 0 <= i < j < |vs| :: vs[i].id != vs[j].id }

  /** Different nodes, and none of them c. */
  ghost predicate Voters(c: Id, vs: seq<Node>) { Distinct(vs) && forall i | 0 <= i < |vs| :: vs[i].id != c }

  lemma {:induction false} IdsCount(vs: seq<Node>)
    requires Distinct(vs)
    ensures |Ids(vs)| == |vs|
  {
    if vs != [] {
      var p := vs[..|vs|-1];
      IdsCount(p);
      assert vs[|vs|-1].id !in Ids(p);
      assert Ids(vs) == Ids(p) + {vs[|vs|-1].id};
    }
  }

  lemma GrantedAll(votes: map<Id, bool>)
    requires forall v | v in votes :: votes[v]
    ensures Granted(votes) == votes.Keys && |Granted(votes)| == |votes|
  {
    assert Granted(votes) == votes.Keys;
    assert |votes.Keys| == |votes|;
  }

  lemma LeaderNode(n: Node)
    requires WellFormed(n)
    ensures var d := BecomeLeader(n);
            && d.role == Leader && d.term == n.term && d.id == n.id && d.lead == n.id && WellFormed(d)
            && d.log == n.log + [Entry(|n.log| + 1, n.term, "")] && d.base == n.base && d.snapped == n.snapped
            && forall v | v in d.prs ::
                 d.prs[v] == Progress(if v == n.id then |n.log| + 1 else 0, if v == n.id then |n.log| + 2 else |n.log| + 1,
                                      Probe, false, 0, false, [])
  {
    hide CommitIndex;
  }

  /** A leader starts with an empty entry of its term behind its log, and tells all others. */
  lemma LeaderStarts(n: Node)
    requires WellFormed(n)
    ensures BcastAppend(BecomeLeader(n)).Done?
    ensures var d := BcastAppend(BecomeLeader(n)).node;
            && d.role == Leader && d.term == n.term && d.id == n.id && d.lead == n.id
            && d.log == n.log + [Entry(|n.log| + 1, n.term, "")] && WellFormed(d)
  {
    hide BecomeLeader, BcastAppend, SendAppend;
    LeaderNode(n);
    var b := BecomeLeader(n);
    forall id | id in b.prs ensures !LacksSnapshot(b, id) {}
    BcastKeepsNode(b);
  }

  lemma BcastKeepsNode(n: Node)
    requires forall id | id in n.prs :: !LacksSnapshot(n, id)
    ensures BcastAppend(n).Done? && BcastAppend(n).node == n.(prs := BcastAppend(n).node.prs)
    ensures BcastAppend(n).node.prs.Keys == n.prs.Keys
  {
    hide LacksSnapshot, ProgressAfterAppend, AppendMessages;
  }

  /** Neither enough grants nor enough rejections have come in yet. */
  predicate Undecided(n: Node) {
    2 * |Granted(n.votes)| <= |n.prs| && 2 * (|n.votes| - |Granted(n.votes)|) <= |n.prs|
  }

  lemma VotesNext(votes: map<Id, bool>, v: Id, grant: bool)
    requires v !in votes
    ensures Poll(votes, v, grant) == votes[v := grant] && |votes[v := grant]| == |votes| + 1
    ensures |Granted(votes[v := grant])| == |Granted(votes)| + if grant then 1 else 0
  {
    var next := votes[v := grant];
    assert next.Keys == votes.Keys + {v};
    assert |next| == |next.Keys|;
    assert |votes| == |votes.Keys|;
    if grant {
      assert Granted(next) == Granted(votes) + {v};
    } else {
      assert Granted(next) == Granted(votes);
    }
  }

  /** A grant of a voter not yet heard is counted: a majority of grants makes a leader that tells all others. */
  lemma GrantCounted(n: Node, v: Id)
    requires WellFormed(n) && n.role == Candidate && n.term >= 1 && v !in n.votes && Undecided(n)
    ensures var m, next := MsgVoteResp(v, n.id, n.term, false), n.(votes := n.votes[v := true]);
            Step(n, m) == if 2 * (|Granted(n.votes)| + 1) > |n.prs| then BcastAppend(BecomeLeader(next)) else Done(next, {})
  {
    hide BcastAppend, BecomeLeader, BecomeFollower, Granted, Poll;
    VotesNext(n.votes, v, true);
  }

  /** A leader hears late votes without effect. */
  lemma LateVote(n: Node, v: Id)
    requires WellFormed(n) && n.role == Leader && n.term >= 1
    ensures Step(n, MsgVoteResp(v, n.id, n.term, false)) == Done(n, {})
  {
  }

  function Answers(c: Node, vs: seq<Node>): seq<Message> {
    seq(|vs|, i requires 0 <= i < |vs| => MsgVoteResp(vs[i].id, c.id, c.term, false))
  }

  /** What has become of candidate c when it has heard the grants of vs: it is still counting, or it leads. */
  ghost predicate CountedTo(c: Node, vs: seq<Node>, r: Option<Node>) {
    && r.Some?
    && (2 * (|vs| + 1) <= |c.prs| ==> r.value == c.(votes := AllGranted(c.id, vs)))
    && (2 * (|vs| + 1) > |c.prs| ==> Leads(r.value, c))
  }

  /** d leads the term in which c was a candidate, with an empty entry of that term behind the log of c. */
  ghost predicate Leads(d: Node, c: Node) {
    && WellFormed(d) && d.role == Leader && d.id == c.id && d.term == c.term
    && d.log == c.log + [Entry(|c.log| + 1, c.term, "")]
  }

  ghost predicate Campaigns(c: Node) {
    WellFormed(c) && c.role == Candidate && c.term >= 1 && c.votes == map[c.id := true] && |c.prs| > 1
  }

  /** The candidate counting grants one after the other. */
  lemma {:induction false} VotesCounted(c: Node, vs: seq<Node>)
    requires Campaigns(c) && Voters(c.id, vs)
    ensures CountedTo(c, vs, Heard(c, Answers(c, vs)))
  {
    if vs == [] {
      assert AllGranted(c.id, vs) == map[c.id := true];
    } else {
      hide Step, WellFormed, Voters, CountedTo, Campaigns, Heard, Answers, Ids;
      var p, v := vs[..|vs|-1], vs[|vs|-1];
      assert vs == p + [v];
      VotersNext(c, p, v);
      VotesCounted(c, p);
      VoteHeard(c, p, v, Heard(c, Answers(c, p)));
      HeardNext(c, Answers(c, p), MsgVoteResp(v.id, c.id, c.term, false));
    }
  }

  lemma VotersNext(c: Node, p: seq<Node>, v: Node)
    requires Voters(c.id, p + [v])
    ensures Voters(c.id, p) && v.id !in Ids(p) && v.id != c.id && c.id !in Ids(p)
    ensures Answers(c, p + [v]) == Answers(c, p) + [MsgVoteResp(v.id, c.id, c.term, false)]
  {
    var vs := p + [v];
    assert vs[|p|] == v && forall i | 0 <= i < |p| :: vs[i] == p[i];
  }

  lemma HeardNext(n: Node, ms: seq<Message>, m: Message)
    requires Heard(n, ms).Some? && WellFormed(Heard(n, ms).value) && Step(Heard(n, ms).value, m).Done?
    ensures Heard(n, ms + [m]) == Some(Step(Heard(n, ms).value, m).node)
  {
    hide Step;
    assert (ms + [m])[..|ms|] == ms;
  }

  lemma VoteHeard(c: Node, p: seq<Node>, v: Node, r: Option<Node>)
    requires Campaigns(c) && Voters(c.id, p) && v.id !in Ids(p) && v.id != c.id && c.id !in Ids(p) && CountedTo(c, p, r)
    ensures r.Some? && WellFormed(r.value) && Step(r.value, MsgVoteResp(v.id, c.id, c.term, false)).Done?
    ensures CountedTo(c, p + [v], Some(Step(r.value, MsgVoteResp(v.id, c.id, c.term, false)).node))
  {
    hide Step, BcastAppend, BecomeLeader, Distinct, AllGranted;
    var x := r.value;
    if 2 * (|p| + 1) <= |c.prs| {
      AllGrantedNext(c.id, p, v);
      GrantedAll(x.votes);
      GrantCounted(x, v.id);
      LeaderStarts(x.(votes := x.votes[v.id := true]));
    } else {
      LateVote(x, v.id);
    }
  }

  lemma IdsNext(p: seq<Node>, v: Node)
    ensures Ids(p + [v]) == Ids(p) + {v.id}
  {
    var q := p + [v];
    forall i | 0 <= i < |p| ensures q[i].id == p[i].id {}
    assert q[|p|] == v;
    assert Ids(p) <= Ids(q) by {
      forall x | x in Ids(p) ensures x in Ids(q) { var i :| 0 <= i < |p| && p[i].id == x; assert q[i].id == x; }
    }
    assert v.id in Ids(q);
  }

  lemma AllGrantedNext(c: Id, p: seq<Node>, v: Node)
    requires Distinct(p) && v.id !in Ids(p) && v.id != c && c !in Ids(p)
    ensures AllGranted(c, p)[v.id := true] == AllGranted(c, p + [v]) && v.id !in AllGranted(c, p)
    ensures |AllGranted(c, p)| == |p| + 1 && forall x | x in AllGranted(c, p) :: AllGranted(c, p)[x]
  {
    IdsNext(p, v);
    IdsCount(p);
    assert AllGranted(c, p).Keys == {c} + Ids(p);
    assert |AllGranted(c, p)| == |AllGranted(c, p).Keys|;
  }

  /** An election round: a node that campaigns, with a majority whose terms are not ahead of its own
      and whose logs are not ahead of its log, asks each of them, is granted each vote and leads. */
  lemma ElectionRound(c: Node, vs: seq<Node>)
    requires WellFormed(c) && c.role != Leader && c.term >= 1 && c.base <= |c.log|
    requires Distinct(vs) && 2 * (|vs| + 1) > |c.prs|
    requires forall i | 0 <= i < |vs| ::
               && WellFormed(vs[i]) && vs[i].base <= |vs[i].log| && vs[i].id in c.prs && vs[i].id != c.id
               && 1 <= vs[i].term <= c.term && NotBehind(LastTermOf(c.log), |c.log|, vs[i].log)
    ensures var o := Step(c, MsgHup);
            && o.Done?
            && (forall i | 0 <= i < |vs| ::
                  var m := MsgVote(c.id, vs[i].id, c.term + 1, |c.log|, LastTermOf(c.log));
                  m in o.msgs && Step(vs[i], m).Done? && Step(vs[i], m).msgs == {MsgVoteResp(vs[i].id, c.id, c.term + 1, false)})
            && var r := Heard(o.node, Answers(o.node, vs));
            && r.Some? && r.value.role == Leader && r.value.id == c.id && r.value.term == c.term + 1
            && r.value.log == c.log + [Entry(|c.log| + 1, c.term + 1, "")]
  {
    hide Heard, BecomeLeader, StepRole;
    var p := AsCandidate(c);
    Campaigning(c);
    if |c.prs| > 1 {
      VotesCounted(p, vs);
      forall i | 0 <= i < |vs| ensures
          var m := MsgVote(c.id, vs[i].id, c.term + 1, |c.log|, LastTermOf(c.log));
          m in Step(c, MsgHup).msgs && Step(vs[i], m).Done? && Step(vs[i], m).msgs == {MsgVoteResp(vs[i].id, c.id, c.term + 1, false)}
      {
        VoteExact(vs[i], MsgVote(c.id, vs[i].id, c.term + 1, |c.log|, LastTermOf(c.log)));
      }
    } else {
      Alone(c, vs);
      assert Answers(Step(c, MsgHup).node, vs) == [];
      LeaderStarts(p);
      HeardNothing(Step(c, MsgHup).node);
    }
  }

  lemma HeardNothing(n: Node)
    ensures Heard(n, []) == Some(n)
  {
  }

  lemma Alone(c: Node, vs: seq<Node>)
    requires WellFormed(c) && |c.prs| <= 1 && forall i | 0 <= i < |vs| :: vs[i].id in c.prs && vs[i].id != c.id
    ensures vs == [] && |c.prs| == 1
  {
    assert |c.prs.Keys| == |c.prs| && c.id in c.prs.Keys;
    if vs != [] {
      SubsetCardinality({c.id, vs[0].id}, c.prs.Keys);
      assert false;
    }
  }

  /** Node c as a candidate in the next term: it knows no leader, has voted for itself and knows
      nothing yet of what the others hold. */
  function AsCandidate(c: Node): Node {
    c.(term := c.term + 1, vote := c.id, lead := NONE, role := Candidate, votes := map[c.id := true],
       prs := map id | id in c.prs :: Progress(if id == c.id then |c.log| else 0, |c.log| + 1, Probe, false, 0, false, []))
  }

  /** A campaign starts by asking all others for their votes; a node that is alone leads at once. */
  lemma Campaigning(c: Node)
    requires WellFormed(c) && c.role != Leader && c.base <= |c.log|
    ensures |AsCandidate(c).prs| == |c.prs| && Step(c, MsgHup).Done?
    ensures |c.prs| == 1 ==> Step(c, MsgHup).node == BecomeLeader(AsCandidate(c))
    ensures |c.prs| > 1 ==>
              Step(c, MsgHup) ==
              Done(AsCandidate(c), set id | id in c.prs && id != c.id :: MsgVote(c.id, id, c.term + 1, |c.log|, LastTermOf(c.log)))
  {
    hide BecomeLeader, BecomeCandidate, Poll, AsCandidate;
    CandidateIs(c);
    GrantedAll(AsCandidate(c).votes);
  }

  lemma CandidateIs(c: Node)
    ensures AsCandidate(c) == BecomeCandidate(c).(votes := Poll(BecomeCandidate(c).votes, c.id, true))
    ensures var p := AsCandidate(c);
            && p.prs.Keys == c.prs.Keys && |p.prs| == |c.prs| && p.votes == map[c.id := true] && p.log == c.log && p.base == c.base
            && p.id == c.id && p.term == c.term + 1 && p == BecomeCandidate(c).(votes := p.votes) && BecomeCandidate(c).id == c.id
  {
    var p := AsCandidate(c);
    assert p.prs.Keys == c.prs.Keys;
    assert |p.prs.Keys| == |p.prs|;
    assert |c.prs.Keys| == |c.prs|;
  }

  // ----- Sending -----

  predicate Stopped(pr: Progress, maxInflight: nat) {
    (pr.state == Probe && pr.paused) || (pr.state == Replicate && |pr.inflights| == maxInflight) || pr.state == Snapshotting
  }

  /** The entries a follower needs next are still there, or there are none. */
  predicate HasEntries(n: Node, to: Id)
    requires to in n.prs
  {
    n.prs[to].next > n.base || n.prs[to].next == |n.log| + 1
  }

  lemma {:induction false} Fitting(log: Log, k: nat, maxSize: nat) returns (j: nat)
    requires k <= |log|
    ensures k <= j <= |log| && EntriesFrom(log, k + 1, maxSize) == log[k..j] && (k < |log| ==> k < j)
    ensures j > k + 1 ==> RaftImpl.TotalSize(log[k..j]) <= maxSize
    ensures k < j < |log| ==> RaftImpl.TotalSize(log[k..j+1]) > maxSize
  {
    hide LimitSize, RaftImpl.TotalSize;
    j := k;
    if k < |log| {
      var rest := log[k..];
      RaftImpl.LimitSizeLongest(rest, maxSize);
      var r := LimitSize(rest, maxSize);
      j := k + |r|;
      assert rest[..|r|] == log[k..j];
      if j < |log| { assert rest[..|r|+1] == log[k..j+1]; }
    }
  }

  /** An append carries the entries from the follower's next index on, as many as fit; a replicating
      follower's window takes it in, a probed one waits for the answer. */
  lemma SentAppend(n: Node, to: Id) returns (j: nat)
    requires to in n.prs && n.base <= n.snapped <= |n.log| && n.prs[to].next <= |n.log| + 1
    requires !Stopped(n.prs[to], n.maxInflight) && HasEntries(n, to)
    ensures var pr := n.prs[to];
            var k := pr.next - 1;
            && k <= j <= |n.log| && (k < |n.log| ==> k < j)
            && (j > k + 1 ==> RaftImpl.TotalSize(n.log[k..j]) <= n.maxMsgSize)
            && (k < j < |n.log| ==> RaftImpl.TotalSize(n.log[k..j+1]) > n.maxMsgSize)
            && var sent := if j == k then pr
                           else if pr.state == Replicate then pr.(next := j + 1, inflights := pr.inflights + [j])
                           else pr.(paused := true);
               SendAppend(n, to) == Done(n.(prs := n.prs[to := sent]),
                                         {MsgApp(n.id, to, n.term, k, LastTermOf(n.log[..k]), n.log[k..j], n.committed)})
  {
    hide EntriesFrom, RaftImpl.TotalSize;
    j := Fitting(n.log, n.prs[to].next - 1, n.maxMsgSize);
    assert !LacksSnapshot(n, to);
  }

  /** Nothing is sent to a follower that is stopped; one whose next entries are compacted gets the
      latest snapshot if it has been heard of lately, and nothing otherwise. */
  lemma SentOther(n: Node, to: Id)
    requires to in n.prs && n.base <= n.snapped <= |n.log| && n.prs[to].next <= |n.log| + 1
    ensures var pr := n.prs[to];
            && (Stopped(pr, n.maxInflight) ==> SendAppend(n, to) == Done(n, {}))
            && (!Stopped(pr, n.maxInflight) && !HasEntries(n, to) ==>
                  SendAppend(n, to) ==
                  if pr.recentActive
                  then Done(n.(prs := n.prs[to := Progress(pr.matched, pr.next, Snapshotting, false, n.snapped, false, [])]),
                            {MsgSnap(n.id, to, n.term, n.log[..n.snapped])})
                  else Done(n, {}))
  {
    assert n.prs[to := n.prs[to]] == n.prs;
  }

  /** A broadcast sends to each other member what it would be sent alone, and to nobody else. */
  lemma BcastIsEach(n: Node)
    requires n.base <= n.snapped
    ensures BcastAppend(n).Done? && BcastAppend(n).node == n.(prs := BcastAppend(n).node.prs)
    ensures BcastAppend(n).node.prs.Keys == n.prs.Keys && (n.id in n.prs ==> BcastAppend(n).node.prs[n.id] == n.prs[n.id])
    ensures forall to | to in n.prs && to != n.id ::
              SendAppend(n, to).Done? && SendAppend(n, to).msgs <= BcastAppend(n).msgs &&
              BcastAppend(n).node.prs[to] == SendAppend(n, to).node.prs[to]
    ensures forall m | m in BcastAppend(n).msgs :: exists to | to in n.prs && to != n.id :: m in SendAppend(n, to).msgs
  {
    forall to | to in n.prs && to != n.id ensures SendAppend(n, to).Done? && SendAppend(n, to).msgs <= BcastAppend(n).msgs {
      forall m | m in SendAppend(n, to).msgs ensures m in BcastAppend(n).msgs {}
    }
  }

  // ----- Answers to appends -----

  /** The leader records what is acknowledged, and never less than before. */
  lemma AckRecorded(n: Node, from: Id, i: nat)
    requires WellFormed(n) && n.role == Leader && n.term >= 1 && n.base <= n.snapped && from in n.prs && from != n.id
    ensures var o := Step(n, MsgAppResp(from, n.id, n.term, i, false, 0));
            && o.Done? && o.node.role == Leader && o.node.term == n.term && o.node.log == n.log
            && o.node.prs.Keys == n.prs.Keys && o.node.committed >= n.committed
            && o.node.prs[from].matched == Max(n.prs[from].matched, i) && o.node.prs[from].next > i
            && forall v | v in n.prs && v != from :: o.node.prs[v].matched == n.prs[v].matched
  {
    hide StepAppendAcked;
    var m := MsgAppResp(from, n.id, n.term, i, false, 0);
    assert Step(n, m) == StepAppendAcked(n, m);
    AckedRecorded(n, m);
  }

  lemma AfterAck(pr: Progress, i: nat)
    requires pr.matched < i
    ensures ProgressAfterAck(pr, i).matched == i && ProgressAfterAck(pr, i).next > i
  {
    hide FreeTo;
  }

  lemma AckedRecorded(n: Node, m: Message)
    requires n.id in n.prs && n.base <= n.snapped && m.MsgAppResp? && m.from in n.prs && m.from != n.id
    ensures var o := StepAppendAcked(n, m);
            && o.Done? && o.node.role == n.role && o.node.term == n.term && o.node.log == n.log
            && o.node.prs.Keys == n.prs.Keys && o.node.committed >= n.committed
            && o.node.prs[m.from].matched == Max(n.prs[m.from].matched, m.index) && o.node.prs[m.from].next > m.index
            && forall v | v in n.prs && v != m.from :: o.node.prs[v].matched == n.prs[v].matched
  {
    hide CommitIndex, ProgressAfterAck, BcastAppend, SendAppend, Forwarded;
    var pr := n.prs[m.from].(recentActive := true);
    if pr.matched < m.index {
      AfterAck(pr, m.index);
      var a := SetProgress(n, m.from, ProgressAfterAck(pr, m.index));
      CommitNotLess(a);
      var b := a.(committed := CommitIndex(a));
      BcastForwards(b);
      SendForwards(b, m.from);
      SelfForwards(b);
      ForwardedRecorded(n, b, StepAppendAcked(n, m).node, m.from, m.index);
    }
  }

  lemma CommitNotLess(n: Node)
    requires n.id in n.prs
    ensures CommitIndex(n) >= n.committed
  {
    hide QuorumIndex;
  }

  /** Sending changes nothing but the progress of followers, of which no index goes back. */
  ghost predicate Forwarded(b: Node, d: Node) {
    && d == b.(prs := d.prs) && d.prs.Keys == b.prs.Keys
    && forall v | v in b.prs :: d.prs[v].matched == b.prs[v].matched && d.prs[v].next >= b.prs[v].next
  }

  lemma SelfForwards(n: Node)
    ensures Forwarded(n, n)
  {
  }

  lemma SendForwards(n: Node, to: Id)
    requires to in n.prs && n.base <= n.snapped
    ensures SendAppend(n, to).Done? && Forwarded(n, SendAppend(n, to).node)
  {
  }

  lemma BcastForwards(n: Node)
    requires n.base <= n.snapped
    ensures BcastAppend(n).Done? && Forwarded(n, BcastAppend(n).node)
  {
  }

  lemma ForwardedRecorded(n: Node, b: Node, d: Node, from: Id, i: nat)
    requires from in n.prs && from in b.prs && Forwarded(b, d)
    requires b == n.(prs := b.prs, committed := b.committed) && b.prs == n.prs[from := b.prs[from]]
    requires b.prs[from].matched == i && b.prs[from].next > i && b.committed >= n.committed
    ensures && d.role == n.role && d.term == n.term && d.log == n.log && d.prs.Keys == n.prs.Keys && d.committed >= n.committed
            && d.prs[from].matched == i && d.prs[from].next > i
            && forall v | v in n.prs && v != from :: d.prs[v].matched == n.prs[v].matched
  {
  }

  /** What an acknowledgement of index i, which is news, makes of a follower's progress: a probed
      follower replicates from there, a replicating one gets its window freed up to there, and one
      that was sent a snapshot is probed behind it once it has the snapshot. */
  lemma AckProgress(pr: Progress, i: nat)
    requires pr.matched < i
    ensures ProgressAfterAck(pr, i) ==
            if pr.state == Probe then Progress(i, i + 1, Replicate, false, 0, false, [])
            else if pr.state == Replicate then
              Progress(i, Max(pr.next, i + 1), Replicate, false, pr.pendingSnapshot, pr.recentActive, FreeTo(pr.inflights, i))
            else if i >= pr.pendingSnapshot then Progress(i, i + 1, Probe, false, 0, false, [])
            else Progress(i, Max(pr.next, i + 1), Snapshotting, false, pr.pendingSnapshot, pr.recentActive, pr.inflights)
  {
  }

  /** The next index after a rejection: what is acknowledged counts for a replicating follower; otherwise the rejected
      index or the one behind the follower's log, whichever is smaller, but at least 1. */
  lemma DecrTo(pr: Progress, rejected: nat, last: nat)
    ensures MaybeDecrTo(pr, rejected, last).None? <==> if pr.state == Replicate then rejected <= pr.matched else rejected + 1 != pr.next
    ensures MaybeDecrTo(pr, rejected, last).Some? ==>
              var d := MaybeDecrTo(pr, rejected, last).value;
              && d == pr.(next := d.next, paused := d.paused) && d.paused == (pr.state == Replicate && pr.paused)
              && d.next == (if pr.state == Replicate then pr.matched + 1 else Max(1, Min(rejected, last + 1))) <= Max(1, rejected)
  {
  }

  /** A rejection of the append that starts behind index k. A probed follower is tried again from
      that index or from behind the end of its log, whichever is smaller; a replicating one is probed
      from what it has acknowledged; a rejection that is out of date changes nothing. */
  lemma RejectProgress(n: Node, from: Id, k: nat, hint: nat)
    requires WellFormed(n) && n.role == Leader && n.term >= 1 && n.base <= n.snapped && from in n.prs
    ensures var pr := n.prs[from].(recentActive := true);
            var o := Step(n, MsgAppResp(from, n.id, n.term, k, true, hint));
            var stale := if pr.state == Replicate then k <= pr.matched else k != pr.next - 1;
            var tried := if pr.state == Replicate then Progress(pr.matched, pr.matched + 1, Probe, false, 0, false, [])
                         else pr.(next := Max(1, Min(k, hint + 1)), paused := false);
            && o.Done? && o.node == n.(prs := o.node.prs)
            && (stale ==> o == Done(n.(prs := n.prs[from := pr]), {}))
            && (!stale ==> o == SendAppend(n.(prs := n.prs[from := tried]), from) && o.node.prs[from].next == tried.next)
            && (!stale && k > 0 ==> tried.next <= k)
  {
    var pr := n.prs[from].(recentActive := true);
    var m := MsgAppResp(from, n.id, n.term, k, true, hint);
    assert Step(n, m) == StepAppendRejected(n, m);
    hide Step, SendAppend;
    var stale := if pr.state == Replicate then k <= pr.matched else k != pr.next - 1;
    if !stale {
      var tried := if pr.state == Replicate then Progress(pr.matched, pr.matched + 1, Probe, false, 0, false, [])
                   else pr.(next := Max(1, Min(k, hint + 1)), paused := false);
      ProbedNext(n.(prs := n.prs[from := tried]), from);
    }
  }

  lemma ProbedNext(n: Node, to: Id)
    requires to in n.prs && n.base <= n.snapped && n.prs[to].state != Replicate
    ensures SendAppend(n, to).Done? && SendAppend(n, to).node.prs[to].next == n.prs[to].next
    ensures SendAppend(n, to).node == n.(prs := SendAppend(n, to).node.prs)
  {
  }

  // ----- The follower's side -----

  /** What a follower does with the leader's entries k to j, in the terms of both logs. */
  lemma AppendTaken(p: Proto, n: Node, f: Node, k: nat, j: nat)
    requires Inv(p) && NodeOk(p, n) && n.role == Leader && NodeOk(p, f) && f.role == Follower && f.term == n.term
    requires k <= j <= |n.log|
    ensures var m := MsgApp(n.id, f.id, n.term, k, LastTermOf(n.log[..k]), n.log[k..j], n.committed);
            var o := Step(f, m);
            && WellFormed(f) && o.Done? && o.node == f.(lead := n.id, log := o.node.log, committed := o.node.committed)
            && (k < f.committed ==>
                  o == Done(f.(lead := n.id), {MsgAppResp(f.id, n.id, n.term, f.committed, false, 0)}))
            && (k >= f.committed && !Agree(f.log, n.log, k) ==>
                  o == Done(f.(lead := n.id), {MsgAppResp(f.id, n.id, n.term, k, true, |f.log|)}))
            && (k >= f.committed && Agree(f.log, n.log, k) ==>
                  && o.msgs == {MsgAppResp(f.id, n.id, n.term, j, false, 0)}
                  && Agree(o.node.log, n.log, j) && o.node.committed == Max(f.committed, Min(n.committed, j))
                  && (forall i: nat | Agree(f.log, n.log, i) :: Agree(o.node.log, n.log, i)))
  {
    hide Inv, NodeOk, MaybeAppend, Merged;
    LeaderLog(p, n, f);
    CommittedAgrees(p, f);
    LogsMatchAt(p, f);
    InOrder(p, f);
    InOrder(p, n);
    var l := n.log;
    assert TermAt(l, 0, k) == LastTermOf(l[..k]);
    if k >= f.committed {
      MaybeAppendMerges(p, f.log, f.base, f.committed, l, k, j, n.committed);
      MergedAgrees(f.log, l, j);
    }
  }

  lemma LeaderLog(p: Proto, n: Node, f: Node)
    requires Inv(p) && NodeOk(p, n) && n.role == Leader && f.term == n.term
    ensures f.term in p.llog && LLog(p.llog, f.term) == n.log && n.term >= 1
  {
    hide LogsMatch, AcksKept, VotesCarry, Complete, CommitsChosen, Shape;
    assert LeaderOf(p.leader, n.term) != NONE;
  }

  lemma InOrder(p: Proto, n: Node)
    requires NodeOk(p, n)
    ensures WellFormed(n) && n.term >= 1 && n.base <= n.snapped <= n.committed <= |n.log|
    ensures n.role == Leader ==> forall v | v in n.prs :: n.prs[v].next <= |n.log| + 1
  {
  }

  lemma MergedAgrees(l: Log, m: Log, k: nat)
    requires k <= |m|
    ensures Agree(Merged(l, m, k), m, k) && forall i: nat | Agree(l, m, i) :: Agree(Merged(l, m, k), m, i)
  {
  }

  // ----- Rounds between a leader and a follower of a run -----

  /** A leader and a follower of the same term in one state of a run. */
  ghost predicate Pair(run: seq<Cluster>, boot: Log, i: nat, a: Id, b: Id) {
    && IsRun(run, boot) && i < |run| && a in run[i].nodes && b in run[i].nodes
    && run[i].nodes[a].role == Leader && run[i].nodes[b].role == Follower && run[i].nodes[a].term == run[i].nodes[b].term
  }

  lemma PairOk(run: seq<Cluster>, boot: Log, i: nat, a: Id, b: Id) returns (p: Proto)
    requires Pair(run, boot, i, a, b)
    ensures Inv(p) && NodeOk(p, run[i].nodes[a]) && NodeOk(p, run[i].nodes[b]) && a != b
    ensures b in run[i].nodes[a].prs && run[i].nodes[a].id == a && run[i].nodes[b].id == b
  {
    hide IsRun, Inv, MsgOk;
    var hs := RaftSafety.RunHistories(run, boot);
    p := hs[i];
    assert ClusterOk(run[i], p);
  }

  /** The append message with the leader's entries k to j. */
  function AppendOf(n: Node, to: Id, k: nat, j: nat): Message
    requires k <= j <= |n.log|
  {
    MsgApp(n.id, to, n.term, k, LastTermOf(n.log[..k]), n.log[k..j], n.committed)
  }

  /** A node handed m answers r and becomes g. */
  ghost predicate Answers1(n: Node, m: Message, r: Message, g: Node) { WellFormed(n) && Step(n, m) == Done(g, {r}) }

  ghost predicate Becomes(n: Node, m: Message, g: Node) { WellFormed(n) && Step(n, m).Done? && Step(n, m).node == g }

  /** What the follower answers, and what it then holds. */
  ghost predicate Taken(n: Node, f: Node, k: nat, j: nat, r: Message, g: Node) {
    if k < f.committed then r == MsgAppResp(f.id, n.id, n.term, f.committed, false, 0) && g == f.(lead := n.id)
    else if Agree(f.log, n.log, k) then
      && r == MsgAppResp(f.id, n.id, n.term, j, false, 0)
      && Agree(g.log, n.log, j) && g.committed == Max(f.committed, Min(n.committed, j))
    else r == MsgAppResp(f.id, n.id, n.term, k, true, |f.log|) && g == f.(lead := n.id) && k > 0
  }

  /** How a round ends for both: the leader records what is acknowledged, or tries a smaller index. */
  ghost predicate RoundEnds(n: Node, f: Node, k: nat, j: nat, r: Message, g: Node, d: Node)
    requires f.id in n.prs && f.id in d.prs
  {
    var pr, dr := n.prs[f.id], d.prs[f.id];
    && Taken(n, f, k, j, r, g)
    && if r.reject then dr.matched == pr.matched && (k > pr.matched ==> dr.next <= k) else dr.matched == Max(pr.matched, r.index)
  }

  lemma RoundAcked(n: Node, f: Node, n': Node, i: nat) returns (d: Node)
    requires WellFormed(n') && n'.role == Leader && n'.term >= 1 && n'.base <= n'.snapped && f.id in n'.prs && f.id != n'.id
    requires n' == n.(prs := n'.prs) && f.id in n.prs && n'.prs[f.id].matched == n.prs[f.id].matched
    ensures Becomes(n', MsgAppResp(f.id, n.id, n.term, i, false, 0), d) && f.id in d.prs && d.log == n.log
    ensures d.prs[f.id].matched == Max(n.prs[f.id].matched, i)
  {
    hide Step;
    AckRecorded(n', f.id, i);
    d := Step(n', MsgAppResp(f.id, n.id, n.term, i, false, 0)).node;
  }

  lemma RoundRejected(n: Node, f: Node, n': Node, k: nat) returns (d: Node)
    requires WellFormed(n') && n'.role == Leader && n'.term >= 1 && n'.base <= n'.snapped <= |n'.log| && f.id in n'.prs && f.id != n'.id
    requires n' == n.(prs := n'.prs) && f.id in n.prs && n'.prs[f.id].matched == n.prs[f.id].matched <= |n.log|
    requires n'.prs[f.id].next <= |n.log| + 1 && k > 0 && (n'.prs[f.id].state == Probe ==> n'.prs[f.id].next - 1 == k)
    requires n'.prs[f.id].state != Snapshotting
    ensures Becomes(n', MsgAppResp(f.id, n.id, n.term, k, true, |f.log|), d) && f.id in d.prs && d.log == n.log
    ensures d.prs[f.id].matched == n.prs[f.id].matched && (k > n.prs[f.id].matched ==> d.prs[f.id].next <= k)
  {
    hide Step, SendAppend;
    RejectProgress(n', f.id, k, |f.log|);
    RejectKeeps(n', f.id, k, |f.log|);
    d := Step(n', MsgAppResp(f.id, n.id, n.term, k, true, |f.log|)).node;
  }

  /** Follower b may be sent to, and the entries it needs next are there. */
  predicate Sendable(n: Node, b: Id) { b in n.prs && !Stopped(n.prs[b], n.maxInflight) && HasEntries(n, b) }

  /** Leader n sends entries k to j behind the next index of f, at least one if there is one, and
      becomes n'; f answers r and becomes g; n' hears that and becomes d. */
  ghost predicate IsAppendRound(n: Node, f: Node, j: nat, n': Node, r: Message, g: Node, d: Node)
    requires f.id in n.prs
  {
    var k := n.prs[f.id].next - 1;
    && k <= j <= |n.log| && (k < |n.log| ==> j > k)
    && SendAppend(n, f.id) == Done(n', {AppendOf(n, f.id, k, j)})
    && Answers1(f, AppendOf(n, f.id, k, j), r, g) && Becomes(n', r, d)
    && f.id in d.prs && d.log == n.log && RoundEnds(n, f, k, j, r, g, d)
  }

  lemma RoundOf(p: Proto, n: Node, f: Node) returns (j: nat, n': Node, r: Message, g: Node, d: Node)
    requires Inv(p) && NodeOk(p, n) && n.role == Leader && NodeOk(p, f) && f.role == Follower && f.term == n.term
    requires f.id != n.id && Sendable(n, f.id)
    ensures IsAppendRound(n, f, j, n', r, g, d)
  {
    hide Inv, NodeOk, Step, SendAppend, Stopped, HasEntries, RoundEnds, AppendOf, Waiting, Answers1, Becomes, Taken;
    var k := n.prs[f.id].next - 1;
    j, n' := SentRound(p, n, f.id);
    r, g := TakenRound(p, n, f, k, j);
    d := EndedRound(n, f, n', k, j, r, g);
  }

  /** n' is leader n after it sent an append that starts behind k. */
  ghost predicate Waiting(n: Node, n': Node, to: Id, k: nat) {
    && WellFormed(n') && n'.role == Leader && n'.term >= 1 && n'.base <= n'.snapped <= |n'.log| && n' == n.(prs := n'.prs)
    && to in n.prs && to in n'.prs && to != n'.id && n'.prs[to].matched == n.prs[to].matched <= |n.log|
    && n'.prs[to].next <= |n.log| + 1 && n'.prs[to].state != Snapshotting && (n'.prs[to].state == Probe ==> n'.prs[to].next - 1 == k)
  }

  lemma SentRound(p: Proto, n: Node, to: Id) returns (j: nat, n': Node)
    requires Inv(p) && NodeOk(p, n) && n.role == Leader
    requires to in n.prs && to != n.id && !Stopped(n.prs[to], n.maxInflight) && HasEntries(n, to)
    ensures n.prs[to].next - 1 <= j <= |n.log| && (n.prs[to].next <= |n.log| ==> j >= n.prs[to].next)
    ensures SendAppend(n, to) == Done(n', {AppendOf(n, to, n.prs[to].next - 1, j)}) && Waiting(n, n', to, n.prs[to].next - 1)
  {
    hide Inv, NodeOk, SendAppend;
    InOrder(p, n);
    MatchedInLog(p, n, to);
    j := SentAppend(n, to);
    n' := SendAppend(n, to).node;
  }

  lemma TakenRound(p: Proto, n: Node, f: Node, k: nat, j: nat) returns (r: Message, g: Node)
    requires Inv(p) && NodeOk(p, n) && n.role == Leader && NodeOk(p, f) && f.role == Follower && f.term == n.term
    requires k <= j <= |n.log|
    ensures Answers1(f, AppendOf(n, f.id, k, j), r, g) && Taken(n, f, k, j, r, g)
  {
    hide Inv, NodeOk, Step;
    AppendTaken(p, n, f, k, j);
    g := Step(f, AppendOf(n, f.id, k, j)).node;
    r := if k < f.committed then MsgAppResp(f.id, n.id, n.term, f.committed, false, 0)
         else if Agree(f.log, n.log, k) then MsgAppResp(f.id, n.id, n.term, j, false, 0)
         else MsgAppResp(f.id, n.id, n.term, k, true, |f.log|);
  }

  lemma EndedRound(n: Node, f: Node, n': Node, k: nat, j: nat, r: Message, g: Node) returns (d: Node)
    requires Waiting(n, n', f.id, k) && Taken(n, f, k, j, r, g)
    ensures Becomes(n', r, d) && f.id in d.prs && d.log == n.log && RoundEnds(n, f, k, j, r, g, d)
  {
    hide Becomes;
    if r.reject { d := RoundRejected(n, f, n', k); } else { d := RoundAcked(n, f, n', r.index); }
  }

  /** An append round. The leader sends entries k to j behind the follower's next index, at least one
      if there is one. If the logs agree up to k, the follower ends up with the leader's log up to j,
      commits what the leader has committed of it and the leader records j. If they do not, nothing
      but the next index changes, and that gets smaller. */
  lemma AppendRound(run: seq<Cluster>, boot: Log, i: nat, a: Id, b: Id) returns (j: nat, n': Node, r: Message, g: Node, d: Node)
    requires Pair(run, boot, i, a, b) && Sendable(run[i].nodes[a], b)
    ensures run[i].nodes[b].id == b && IsAppendRound(run[i].nodes[a], run[i].nodes[b], j, n', r, g, d)
  {
    hide Inv, NodeOk, IsRun, IsAppendRound, Stopped, HasEntries;
    var p := PairOk(run, boot, i, a, b);
    j, n', r, g, d := RoundOf(p, run[i].nodes[a], run[i].nodes[b]);
  }

  lemma MatchedInLog(p: Proto, n: Node, b: Id)
    requires Inv(p) && NodeOk(p, n) && n.role == Leader && b in n.prs
    ensures n.prs[b].matched <= |n.log|
  {
    hide Elected, LogsMatch, AcksKept, VotesCarry, Complete, CommitsChosen, CandidateOk;
  }

  lemma RejectKeeps(n: Node, from: Id, k: nat, hint: nat)
    requires WellFormed(n) && n.role == Leader && n.term >= 1 && n.base <= n.snapped && from in n.prs
    ensures var o := Step(n, MsgAppResp(from, n.id, n.term, k, true, hint));
            o.Done? ==> from in o.node.prs && o.node.prs[from].matched == n.prs[from].matched
  {
    hide SendAppend;
    var m := MsgAppResp(from, n.id, n.term, k, true, hint);
    assert Step(n, m) == StepAppendRejected(n, m);
    var pr := n.prs[from].(recentActive := true);
    match MaybeDecrTo(pr, k, hint)
    case None =>
    case Some(d) => SendForwards(SetProgress(n, from, if d.state == Replicate then BecomeProbe(d) else d), from);
  }

  // ----- Heartbeats -----

  /** A beat goes to every other member, with as much of the commit index as that member is known to
      hold, and lets sending to it go on. */
  lemma BeatSent(n: Node)
    requires WellFormed(n) && n.role == Leader
    ensures var o := Step(n, MsgBeat);
            && o.Done? && o.node == n.(prs := o.node.prs) && o.node.prs.Keys == n.prs.Keys
            && (forall v | v in n.prs :: o.node.prs[v] == if v == n.id then n.prs[v] else n.prs[v].(paused := false))
            && o.msgs == set v | v in n.prs && v != n.id :: MsgHeartbeat(n.id, v, n.term, Min(n.prs[v].matched, n.committed))
  {
  }

  lemma BeatTaken(p: Proto, n: Node, f: Node)
    requires Inv(p) && NodeOk(p, n) && n.role == Leader && NodeOk(p, f) && f.role == Follower && f.term == n.term && f.id in n.prs
    ensures var c := Min(n.prs[f.id].matched, n.committed);
            Answers1(f, MsgHeartbeat(n.id, f.id, n.term, c), MsgHeartbeatResp(f.id, n.id, n.term),
                     f.(lead := n.id, committed := Max(f.committed, c)))
  {
    hide Inv, NodeOk;
    var c := Min(n.prs[f.id].matched, n.committed);
    InOrder(p, f);
    LeaderLog(p, n, f);
    MatchedHeld(p, n, f);
  }

  /** A follower in the leader's term holds what the leader has recorded for it. */
  lemma MatchedHeld(p: Proto, n: Node, f: Node)
    requires Inv(p) && NodeOk(p, n) && n.role == Leader && NodeOk(p, f) && f.term == n.term && f.id in n.prs
    ensures n.prs[f.id].matched <= |f.log|
  {
    hide Inv;
    AckedIsHeld(p, f, n.prs[f.id].matched);
  }

  /** The answer to a heartbeat frees one place in a full window and sends on to whoever lags. */
  lemma BeatAnswered(n: Node, from: Id)
    requires WellFormed(n) && n.role == Leader && n.term >= 1 && from in n.prs && from != n.id
    requires n.base <= n.snapped <= |n.log| && n.prs[from].next <= |n.log| + 1
    ensures var pr := n.prs[from].(recentActive := true);
            var freed := if pr.state == Replicate && |pr.inflights| == n.maxInflight
                         then pr.(inflights := FreeTo(pr.inflights, pr.inflights[0])) else pr;
            var a := n.(prs := n.prs[from := freed]);
            Step(n, MsgHeartbeatResp(from, n.id, n.term)) == if pr.matched < |n.log| then SendAppend(a, from) else Done(a, {})
  {
    hide SendAppend;
  }

  lemma {:induction false} FreedShorter(w: seq<nat>, to: nat)
    ensures |FreeTo(w, to)| <= |w| && (w != [] && to >= w[0] ==> |FreeTo(w, to)| < |w|)
  {
    if w != [] && to >= w[0] { FreedShorter(w[1..], to); }
  }

  ghost predicate BeatEnds(n: Node, f: Node, n': Node, g: Node) {
    && WellFormed(n) && f.id in n.prs && WellFormed(n')
    && var c := Min(n.prs[f.id].matched, n.committed);
    && var m, r := MsgHeartbeat(n.id, f.id, n.term, c), MsgHeartbeatResp(f.id, n.id, n.term);
    && Step(n, MsgBeat).Done? && m in Step(n, MsgBeat).msgs
    && Answers1(f, m, r, g) && g.log == f.log && g.committed == Max(f.committed, c)
    && Step(n', r).Done?
    && (n.prs[f.id].state != Snapshotting && n.prs[f.id].matched < |n.log| ==> SendsOn(Step(n', r).msgs, f.id))
  }

  ghost predicate SendsOn(msgs: set<Message>, to: Id) { exists m | m in msgs :: (m.MsgApp? || m.MsgSnap?) && m.to == to }

  /** A heartbeat round brings the follower's commit index up to what it is known to hold of the
      leader's, and gets sending to a follower that lags going again, unless a snapshot is on its way. */
  lemma HeartbeatRound(run: seq<Cluster>, boot: Log, i: nat, a: Id, b: Id) returns (n': Node, g: Node)
    requires Pair(run, boot, i, a, b) && b in run[i].nodes[a].prs
    ensures Becomes(run[i].nodes[a], MsgBeat, n') && BeatEnds(run[i].nodes[a], run[i].nodes[b], n', g)
  {
    var p := PairOk(run, boot, i, a, b);
    var n, f := run[i].nodes[a], run[i].nodes[b];
    hide Pair, Inv, NodeOk, Step, SendAppend;
    InOrder(p, n);
    BeatSent(n);
    BeatTaken(p, n, f);
    n' := Step(n, MsgBeat).node;
    g := f.(lead := n.id, committed := Max(f.committed, Min(n.prs[b].matched, n.committed)));
    BeatAnswered(n', b);
    GoesOn(n', b);
    assert MsgHeartbeat(a, b, n.term, Min(n.prs[b].matched, n.committed)) in Step(n, MsgBeat).msgs;
  }

  lemma GoesOn(n: Node, b: Id)
    requires WellFormed(n) && n.role == Leader && n.term >= 1 && b in n.prs && b != n.id
    requires n.base <= n.snapped <= |n.log| && n.prs[b].next <= |n.log| + 1 && !n.prs[b].paused
    ensures var pr := n.prs[b].(recentActive := true);
            var freed := if pr.state == Replicate && |pr.inflights| == n.maxInflight
                         then pr.(inflights := FreeTo(pr.inflights, pr.inflights[0])) else pr;
            var x := SendAppend(n.(prs := n.prs[b := freed]), b);
            x.Done? && (pr.state != Snapshotting ==> SendsOn(x.msgs, b))
  {
    var pr := n.prs[b].(recentActive := true);
    if pr.inflights != [] { FreedShorter(pr.inflights, pr.inflights[0]); }
    var freed := if pr.state == Replicate && |pr.inflights| == n.maxInflight
                 then pr.(inflights := FreeTo(pr.inflights, pr.inflights[0])) else pr;
    var c := n.(prs := n.prs[b := freed]);
    hide SendAppend, FreeTo;
    SentOther(c, b);
    if !Stopped(freed, n.maxInflight) && HasEntries(c, b) {
      var j := SentAppend(c, b);
      var m := MsgApp(c.id, b, c.term, freed.next - 1, LastTermOf(c.log[..freed.next - 1]), c.log[freed.next - 1..j], c.committed);
      assert m in SendAppend(c, b).msgs;
    } else if pr.state != Snapshotting {
      assert MsgSnap(c.id, b, c.term, c.log[..c.snapped]) in SendAppend(c, b).msgs;
    }
  }

  // ----- Snapshots -----

  /** Node f with a snapshot in place of its log; what it would know of others as a leader starts afresh. */
  function OnlySnapshot(f: Node, snapshot: Log): Node {
    var k := |snapshot|;
    f.(log := snapshot, committed := k, base := k, snapped := k,
       prs := map v | v in f.prs :: Progress(if v == f.id then k else 0, k + 1, Probe, false, 0, false, []))
  }

  /** What a follower does with the leader's latest snapshot. */
  lemma SnapshotTaken(p: Proto, n: Node, f: Node)
    requires Inv(p) && NodeOk(p, n) && n.role == Leader && NodeOk(p, f) && f.role == Follower && f.term == n.term && n.snapped > 0
    ensures var m := MsgSnap(n.id, f.id, n.term, n.log[..n.snapped]);
            var o := Step(f, m);
            && WellFormed(f) && o.Done?
            && (n.snapped <= f.committed ==> o == Done(f, {MsgAppResp(f.id, n.id, n.term, f.committed, false, 0)}))
            && (n.snapped > f.committed ==>
                  && o.msgs == {MsgAppResp(f.id, n.id, n.term, n.snapped, false, 0)}
                  && o.node.committed == n.snapped && Agree(o.node.log, n.log, n.snapped)
                  && o.node == if Agree(f.log, n.log, n.snapped) then f.(committed := n.snapped) else OnlySnapshot(f, n.log[..n.snapped]))
  {
    hide Inv, NodeOk;
    InOrder(p, n);
    InOrder(p, f);
    LeaderLog(p, n, f);
    LogsMatchAt(p, f);
    var m := MsgSnap(n.id, f.id, n.term, n.log[..n.snapped]);
    var k := n.snapped;
    assert TermAt(m.snapshot, 0, k) == TermAt(n.log, 0, k);
    if f.committed < k {
      assert f.base <= k;
      if MatchTerm(f.log, f.base, k, TermAt(n.log, 0, k)) {
        SameTermAgree(p, f.log, f.base, n.log, k);
        TermAtPositive(n.log, k);
      } else {
        assert !Agree(f.log, n.log, k);
      }
    }
  }

  lemma TermAtPositive(l: Log, k: nat)
    requires Indexed(l) && 0 < k <= |l|
    ensures TermAt(l, 0, k) >= 1
  {
  }

  /** Follower b may be sent to and was heard of lately, and the entries it needs next have been compacted. */
  predicate NeedsIt(n: Node, b: Id) {
    b in n.prs && n.prs[b].recentActive && !Stopped(n.prs[b], n.maxInflight) && !HasEntries(n, b)
  }

  /** The message with the latest snapshot of n. */
  function SnapshotOf(n: Node, to: Id): Message
    requires n.snapped <= |n.log|
  {
    MsgSnap(n.id, to, n.term, n.log[..n.snapped])
  }

  /** Leader n sends its snapshot to f and becomes n'; f answers r and becomes g; n' hears that and
      becomes d. Then f holds the leader's log up to the snapshot, committed, and the leader knows. */
  ghost predicate IsSnapshotRound(n: Node, f: Node, n': Node, r: Message, g: Node, d: Node)
    requires f.id in n.prs
  {
    && n.snapped <= |n.log| && SendAppend(n, f.id) == Done(n', {SnapshotOf(n, f.id)})
    && Answers1(f, SnapshotOf(n, f.id), r, g) && Becomes(n', r, d)
    && g.committed == Max(f.committed, n.snapped) && Agree(g.log, n.log, g.committed)
    && f.id in d.prs && d.prs[f.id].matched == Max(n.prs[f.id].matched, g.committed)
    && n.prs[f.id].next <= n.base <= g.committed
  }

  /** A snapshot round: a follower whose next entries the leader has compacted ends up with the
      leader's log up to the snapshot, committed, and the leader goes on behind it. */
  lemma SnapshotRound(run: seq<Cluster>, boot: Log, i: nat, a: Id, b: Id) returns (n': Node, r: Message, g: Node, d: Node)
    requires Pair(run, boot, i, a, b) && NeedsIt(run[i].nodes[a], b)
    ensures run[i].nodes[b].id == b && IsSnapshotRound(run[i].nodes[a], run[i].nodes[b], n', r, g, d)
  {
    hide Inv, NodeOk, IsRun, IsSnapshotRound, Stopped, HasEntries;
    var p := PairOk(run, boot, i, a, b);
    n', r, g, d := SnapshotRoundOf(p, run[i].nodes[a], run[i].nodes[b]);
  }

  lemma SnapshotRoundOf(p: Proto, n: Node, f: Node) returns (n': Node, r: Message, g: Node, d: Node)
    requires Inv(p) && NodeOk(p, n) && n.role == Leader && NodeOk(p, f) && f.role == Follower && f.term == n.term
    requires f.id != n.id && NeedsIt(n, f.id)
    ensures IsSnapshotRound(n, f, n', r, g, d)
  {
    hide Inv, NodeOk, Step, SendAppend, NeedsIt, Answers1, Becomes;
    n' := SnapshotSent(p, n, f.id);
    r, g := SnapshotAnswered(p, n, f);
    d := RoundAcked(n, f, n', r.index);
  }

  lemma SnapshotSent(p: Proto, n: Node, to: Id) returns (n': Node)
    requires Inv(p) && NodeOk(p, n) && n.role == Leader && to != n.id && NeedsIt(n, to)
    ensures WellFormed(n') && n'.role == Leader && n'.term >= 1 && n'.base <= n'.snapped && n' == n.(prs := n'.prs)
    ensures to in n.prs && to in n'.prs && n'.prs[to].matched == n.prs[to].matched && n.prs[to].next <= n.base <= n.snapped <= |n.log|
    ensures SendAppend(n, to) == Done(n', {SnapshotOf(n, to)})
  {
    hide Inv, NodeOk, SendAppend;
    InOrder(p, n);
    SentOther(n, to);
    n' := SendAppend(n, to).node;
  }

  lemma SnapshotAnswered(p: Proto, n: Node, f: Node) returns (r: Message, g: Node)
    requires Inv(p) && NodeOk(p, n) && n.role == Leader && NodeOk(p, f) && f.role == Follower && f.term == n.term
    requires 0 < n.snapped <= |n.log|
    ensures r == MsgAppResp(f.id, n.id, n.term, g.committed, false, 0) && Answers1(f, SnapshotOf(n, f.id), r, g)
    ensures g.committed == Max(f.committed, n.snapped) && Agree(g.log, n.log, g.committed)
  {
    hide Inv, NodeOk, Step;
    SnapshotTaken(p, n, f);
    CommittedWithLeader(p, n, f);
    g := Step(f, SnapshotOf(n, f.id)).node;
    r := MsgAppResp(f.id, n.id, n.term, g.committed, false, 0);
  }

  lemma CommittedWithLeader(p: Proto, n: Node, f: Node)
    requires Inv(p) && NodeOk(p, n) && n.role == Leader && NodeOk(p, f) && f.term == n.term
    ensures Agree(f.log, n.log, f.committed)
  {
    hide Inv, NodeOk;
    LeaderLog(p, n, f);
    CommittedAgrees(p, f);
  }

  // ----- Proposals and commits -----

  lemma Appended(n: Node, data: seq<string>)
    requires WellFormed(n)
    ensures var a := AppendEntry(n, data);
            && a == n.(log := a.log, prs := a.prs, committed := a.committed) && a.prs.Keys == n.prs.Keys
            && n.log <= a.log && |a.log| == |n.log| + |data| && a.prs[n.id].matched == Max(n.prs[n.id].matched, |a.log|)
            && (forall i | 0 <= i < |data| :: a.log[|n.log| + i] == Entry(|n.log| + i + 1, n.term, data[i]))
            && forall v | v in n.prs && v != n.id :: a.prs[v] == n.prs[v]
  {
    hide CommitIndex;
  }

  /** What is proposed to a leader becomes the end of its log, in order and with its data; a leader
      that is proposed nothing at all panics, a follower passes on to the leader it knows of, and
      everybody else drops it. */
  lemma ProposalTaken(n: Node, from: Id, to: Id, data: seq<string>)
    requires WellFormed(n) && n.base <= n.snapped
    ensures var o := Step(n, MsgProp(from, to, data));
            && (o.Panic? <==> n.role == Leader && data == [])
            && (n.role == Leader && data != [] ==>
                  && n.log <= o.node.log && |o.node.log| == |n.log| + |data| && o.node.role == Leader && o.node.term == n.term
                  && (forall i | 0 <= i < |data| :: o.node.log[|n.log| + i] == Entry(|n.log| + i + 1, n.term, data[i]))
                  && n.id in o.node.prs && o.node.prs[n.id].matched == Max(n.prs[n.id].matched, |o.node.log|))
            && (n.role == Follower ==> o == Done(n, if n.lead == NONE then {} else {MsgProp(n.id, n.lead, data)}))
            && (n.role == Candidate ==> o == Done(n, {}))
  {
    hide AppendEntry, BcastAppend, SendAppend;
    if n.role == Leader && data != [] {
      Appended(n, data);
      var a := AppendEntry(n, data);
      assert Step(n, MsgProp(from, to, data)) == BcastAppend(a);
      BcastIsEach(a);
    }
  }

  /** After a proposal every other member that may be sent to is sent an append. */
  lemma ProposalSent(n: Node, from: Id, to: Id, data: seq<string>, v: Id)
    requires WellFormed(n) && n.role == Leader && n.base <= n.snapped <= |n.log| && data != [] && v in n.prs && v != n.id
    requires !Stopped(n.prs[v], n.maxInflight) && n.base < n.prs[v].next <= |n.log| + 1
    ensures exists m | m in Step(n, MsgProp(from, to, data)).msgs ::
              m.MsgApp? && m.to == v && m.index == n.prs[v].next - 1 && m.entries != []
  {
    hide AppendEntry, BcastAppend, SendAppend;
    Appended(n, data);
    var a := AppendEntry(n, data);
    assert Step(n, MsgProp(from, to, data)) == BcastAppend(a);
    BcastIsEach(a);
    var j := SentAppend(a, v);
    var k := n.prs[v].next - 1;
    assert MsgApp(a.id, v, a.term, k, LastTermOf(a.log[..k]), a.log[k..j], a.committed) in SendAppend(a, v).msgs;
  }

  /** When an acknowledgement moves the commit index, every other member that may be sent to is told. */
  lemma CommitAnnounced(n: Node, from: Id, i: nat, v: Id)
    requires WellFormed(n) && n.role == Leader && n.term >= 1 && n.base <= n.snapped <= |n.log| && from in n.prs && from != n.id
    requires v in n.prs && v != n.id && v != from && !Stopped(n.prs[v], n.maxInflight) && n.base < n.prs[v].next <= |n.log| + 1
    ensures var o := Step(n, MsgAppResp(from, n.id, n.term, i, false, 0));
            o.Done? && o.node.committed > n.committed ==>
              exists m | m in o.msgs :: m.MsgApp? && m.to == v && m.commit == o.node.committed
  {
    hide CommitIndex, BcastAppend, SendAppend, ProgressAfterAck;
    var m := MsgAppResp(from, n.id, n.term, i, false, 0);
    assert Step(n, m) == StepAppendAcked(n, m);
    var pr := n.prs[from].(recentActive := true);
    if pr.matched < i {
      var a := SetProgress(n, from, ProgressAfterAck(pr, i));
      var b := a.(committed := CommitIndex(a));
      BcastForwards(b);
      SendForwards(b, from);
      if b.committed != a.committed {
        BcastIsEach(b);
        var j := SentAppend(b, v);
        var k := n.prs[v].next - 1;
        assert MsgApp(b.id, v, b.term, k, LastTermOf(b.log[..k]), b.log[k..j], b.committed) in SendAppend(b, v).msgs;
      }
    }
  }

  /** When it does not, an acknowledgement that is news still gets sending to a follower that was stopped going again. */
  lemma AckSendsOn(n: Node, from: Id, i: nat)
    requires WellFormed(n) && n.role == Leader && n.term >= 1 && n.base <= n.snapped && from in n.prs && from != n.id
    requires n.prs[from].matched < i
    ensures var o := Step(n, MsgAppResp(from, n.id, n.term, i, false, 0));
            var next := n.(prs := n.prs[from := ProgressAfterAck(n.prs[from].(recentActive := true), i)]);
            && o.Done?
            && (o.node.committed == n.committed ==>
                  o == if Stopped(n.prs[from], n.maxInflight) then SendAppend(next, from) else Done(next, {}))
  {
    hide CommitIndex, BcastAppend, SendAppend, ProgressAfterAck;
    var m := MsgAppResp(from, n.id, n.term, i, false, 0);
    assert Step(n, m) == StepAppendAcked(n, m);
    var next := n.(prs := n.prs[from := ProgressAfterAck(n.prs[from].(recentActive := true), i)]);
    var b := next.(committed := CommitIndex(next));
    BcastForwards(b);
    SendForwards(b, from);
    if b.committed == n.committed { assert b == next; }
  }

  // ----- Terms and counts -----

  /** A message of an older term changes nothing. */
  lemma StaleIgnored(n: Node, m: Message)
    requires WellFormed(n) && 0 < MessageTerm(m) < n.term && !m.MsgHup?
    ensures Step(n, m) == Done(n, {})
  {
  }

  /** Any message of a newer term makes a follower in that term, of its sender unless it asks for a vote. */
  lemma NewerTermAdopted(n: Node, m: Message)
    requires WellFormed(n) && MessageTerm(m) > n.term && Step(n, m).Done?
    ensures Step(n, m).node.term == MessageTerm(m) && Step(n, m).node.role == Follower
    ensures !m.MsgVote? ==> Step(n, m).node.vote == NONE && Step(n, m).node.lead == m.from
    ensures m.MsgVote? ==> Step(n, m).node.lead == NONE
    ensures m.MsgAppResp? || m.MsgVoteResp? || m.MsgHeartbeatResp? ==> Step(n, m).node.log == n.log && Step(n, m).msgs == {}
  {
    hide MaybeAppend;
  }

  /** A candidate that hears from a leader of its term does as a follower would. */
  lemma CandidateYields(n: Node, m: Message)
    requires WellFormed(n) && n.role == Candidate && n.term >= 1 && (m.MsgApp? || m.MsgHeartbeat? || m.MsgSnap?) && m.term == n.term
    ensures var f := BecomeFollower(n, n.term, m.from);
            && f.role == Follower && f.lead == m.from && f.vote == n.vote && f.log == n.log && f.term == n.term && WellFormed(f)
            && Step(n, m) == Step(f, m)
  {
  }

  /** Only the first answer of a voter counts. */
  lemma FirstAnswerCounts(n: Node, v: Id, reject: bool)
    requires WellFormed(n) && n.role == Candidate && n.term >= 1 && Undecided(n) && v in n.votes
    ensures Step(n, MsgVoteResp(v, n.id, n.term, reject)) == Done(n, {})
  {
    hide BcastAppend, BecomeLeader, BecomeFollower, Granted;
    assert Poll(n.votes, v, !reject) == n.votes;
  }

  /** A rejection is counted, and a majority of them ends the candidacy. */
  lemma RejectionCounted(n: Node, v: Id)
    requires WellFormed(n) && n.role == Candidate && n.term >= 1 && Undecided(n) && v !in n.votes
    ensures var o := Step(n, MsgVoteResp(v, n.id, n.term, true));
            if 2 * (|n.votes| + 1 - |Granted(n.votes)|) > |n.prs|
            then o.Done? && o.msgs == {} && o.node.role == Follower && o.node.term == n.term && o.node.lead == NONE && o.node.vote == n.vote
            else o == Done(n.(votes := n.votes[v := false]), {})
  {
    hide BcastAppend, BecomeLeader, Granted, Poll;
    VotesNext(n.votes, v, false);
  }

  /** A leader checking its quorum stays exactly if more than half of the members, itself included,
      were active, and then asks anew. */
  lemma QuorumChecked(n: Node)
    requires WellFormed(n) && n.role == Leader
    ensures var active := set v | v in n.prs && (v == n.id || n.prs[v].recentActive);
            var o := Step(n, MsgCheckQuorum);
            && o.Done? && o.msgs == {} && o.node.term == n.term && o.node.log == n.log
            && (o.node.role == Leader <==> 2 * |active| > |n.prs|)
            && (o.node.role == Leader ==>
                  o.node == n.(prs := o.node.prs) && o.node.prs.Keys == n.prs.Keys &&
                  forall v | v in n.prs :: o.node.prs[v] == if v == n.id then n.prs[v] else n.prs[v].(recentActive := false))
            && (o.node.role != Leader ==> o.node.role == Follower && o.node.lead == NONE && o.node.vote == n.vote)
  {
    assert QuorumActive(n) == set v | v in n.prs && (v == n.id || n.prs[v].recentActive);
  }

  /** Reports of the transport: an unreachable follower is probed from what it has acknowledged, and
      after a snapshot it is probed behind the snapshot, or as before if that failed. */
  lemma TransportReported(n: Node, from: Id, reject: bool)
    requires WellFormed(n) && n.role == Leader && from in n.prs
    ensures var pr := n.prs[from];
            && Step(n, MsgUnreachable(from)) ==
               Done(if pr.state == Replicate
                    then n.(prs := n.prs[from := Progress(pr.matched, pr.matched + 1, Probe, false, 0, false, [])]) else n, {})
            && Step(n, MsgSnapStatus(from, reject)) ==
               Done(if pr.state == Snapshotting
                    then n.(prs := n.prs[from := Progress(pr.matched,
                                                          if reject then pr.matched + 1 else Max(pr.matched, pr.pendingSnapshot) + 1,
                                                          Probe, true, 0, false, [])])
                    else n, {})
  {
  }
}
