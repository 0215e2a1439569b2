/**
 * Safety of every run of the cluster: sections 5.2 to 5.4 of "In Search of an
 * Understandable Consensus Algorithm" (Ongaro and Ousterhout), over arbitrary
 * loss, duplication, reordering and restarts.
 */
module RaftSafety {
  import opened RaftTypes
  import opened RaftNode
  import opened RaftCluster
  import opened RaftProtocol
  import opened RaftInvariant
  import opened RaftRefinement
  import opened RaftSteps

  // ----- The invariant holds in every reachable state -----

  /** The bootstrap log counts as the log of a leader of term 1, acknowledged by everyone. */
  ghost function InitialHistory(c: Cluster, boot: Log): Proto {
    Proto(c.nodes.Keys,
          map id | id in c.nodes :: 1,
          map id | id in c.nodes :: boot,
          map id | id in c.nodes :: |boot|,
          map[], map[], map[], map[1 := boot],
          map id | id in c.nodes :: (1, id) := |boot|)
  }

  lemma InitialAcks(c: Cluster, boot: Log)
    ensures forall t: nat, v: Id :: AckOf(InitialHistory(c, boot).ack, t, v) == if t == 1 && v in c.nodes then |boot| else 0
  {
    var ack := InitialHistory(c, boot).ack;
    forall t: nat, v: Id ensures AckOf(ack, t, v) == if t == 1 && v in c.nodes then |boot| else 0 {
      if v in c.nodes { assert (1, v) in ack && ack[(1, v)] == |boot|; }
    }
  }

  lemma BootChosen(c: Cluster, boot: Log)
    requires Init(c, boot) && boot != []
    ensures Chosen(InitialHistory(c, boot), 1, |boot|)
  {
    var p := InitialHistory(c, boot);
    InitialAcks(c, boot);
    InitialView(c, boot);
    InitialBoot(c, boot);
    var id :| id in c.nodes;
    hide Init, InitialHistory, AckOf;
    assert Ackers(p, 1, |boot|) == p.members;
  }

  lemma InitialBoot(c: Cluster, boot: Log)
    requires Init(c, boot)
    ensures IsBootstrap(boot)
  {
  }

  lemma InitialMatches(c: Cluster, boot: Log)
    requires Init(c, boot)
    ensures LogsMatch(InitialHistory(c, boot))
  {
    var p := InitialHistory(c, boot);
    hide Init;
    InitialBoot(c, boot);
    forall l | l == boot || l == [] ensures Matches(p.llog, l) {
      forall k: nat ensures MatchedAt(p.llog, l, k) {}
    }
    assert forall v: Id :: LogOf(p.log, v) == boot || LogOf(p.log, v) == [];
    assert forall t: nat :: LLog(p.llog, t) == boot || LLog(p.llog, t) == [];
  }

  lemma InitialShape(c: Cluster, boot: Log)
    requires Init(c, boot)
    ensures Shape(InitialHistory(c, boot)) && Elected(InitialHistory(c, boot))
  {
    hide Shape, Elected;
    InitialElected(c, boot);
    InitialFormed(c, boot);
  }

  lemma InitialElected(c: Cluster, boot: Log)
    requires Init(c, boot)
    ensures Elected(InitialHistory(c, boot))
  {
    var p := InitialHistory(c, boot);
    assert forall t: nat, v: Id :: VoteOf(p.vote, t, v) == NONE;
  }

  lemma InitialFormed(c: Cluster, boot: Log)
    requires Init(c, boot)
    ensures Shape(InitialHistory(c, boot))
  {
    var p := InitialHistory(c, boot);
    InitialAcks(c, boot);
    InitialView(c, boot);
    hide InitialHistory, AckOf, VoteOf, CLog, LLog, LogOf, TermOf;
  }

  lemma InitialView(c: Cluster, boot: Log)
    ensures var p := InitialHistory(c, boot);
            && p.members == c.nodes.Keys && (forall t :: t in p.llog <==> t == 1) && LLog(p.llog, 1) == boot
            && (forall t: nat, v: Id :: VoteOf(p.vote, t, v) == NONE)
            && (forall v: Id | v in c.nodes :: TermOf(p.term, v) == 1 && LogOf(p.log, v) == boot)
  {
  }

  lemma InitialHeld(c: Cluster, boot: Log)
    requires Init(c, boot)
    ensures var p := InitialHistory(c, boot); AcksKept(p) && VotesCarry(p) && Complete(p)
  {
    InitialAcks(c, boot);
  }

  lemma InitialCommits(c: Cluster, boot: Log)
    requires Init(c, boot)
    ensures CommitsChosen(InitialHistory(c, boot))
  {
    if boot != [] {
      BootChosen(c, boot);
      assert Agree(boot, LLog(InitialHistory(c, boot).llog, 1), |boot|);
    }
  }

  lemma InitialNodes(c: Cluster, boot: Log)
    requires Init(c, boot)
    ensures NodesOk(c.nodes, InitialHistory(c, boot))
  {
    var p := InitialHistory(c, boot);
    assert forall t: nat, v: Id :: VoteOf(p.vote, t, v) == NONE;
  }

  lemma InitialInv(c: Cluster, boot: Log)
    requires Init(c, boot)
    ensures ClusterOk(c, InitialHistory(c, boot))
  {
    hide Shape, Elected, LogsMatch, AcksKept, VotesCarry, Complete, CommitsChosen, NodesOk, InitialHistory;
    InitialMatches(c, boot);
    InitialShape(c, boot);
    InitialHeld(c, boot);
    InitialCommits(c, boot);
    InitialNodes(c, boot);
  }

  lemma CompactedStep(c: Cluster, p: Proto, id: Id, s: nat, b: nat)
    requires id in c.nodes && c.nodes[id].id == id && NodeOk(p, c.nodes[id])
    requires c.nodes[id].snapped <= s <= c.nodes[id].committed && c.nodes[id].base <= b <= s
    ensures NodeOk(p, Compacted(c.nodes[id], s, b)) && Compacted(c.nodes[id], s, b).id == id
  {
    CompactedOk(p, c.nodes[id], s, b);
  }

  lemma NextKeeps(c: Cluster, d: Cluster, p: Proto) returns (q: Proto)
    requires ClusterOk(c, p) && Next(c, d)
    ensures ClusterOk(d, q) && Extends(p, q)
  {
    hide Inv, Extends, ActedBy, NodeOk, MsgOk, Step, Restart;
    if id, m :| Steps(c, d, id, m) {
      var n := c.nodes[id];
      q := StepRefines(p, n, m);
      ClusterStep(c, d, p, q, id, Step(n, m).node, Step(n, m).msgs);
    } else if id, k :| Restarts(c, d, id, k) {
      q := RestartRefines(p, c.nodes[id], k);
      assert c.net + {} == c.net;
      ClusterStep(c, d, p, q, id, Restart(c.nodes[id], k), {});
    } else {
      var id, s, b :| Compacts(c, d, id, s, b);
      q := p;
      Stays(p, id);
      assert c.net + {} == c.net;
      assert NodeOk(p, c.nodes[id]);
      CompactedStep(c, p, id, s, b);
      ClusterStep(c, d, p, q, id, Compacted(c.nodes[id], s, b), {});
    }
  }

  /** A history for every state of a run, each extending the one before. */
  ghost predicate Histories(run: seq<Cluster>, hs: seq<Proto>) {
    && |hs| == |run|
    && (forall i | 0 <= i < |run| :: ClusterOk(run[i], hs[i]))
    && (forall i | 0 <= i < |run| - 1 :: Extends(hs[i], hs[i+1]))
  }

  lemma {:induction false} RunHistories(run: seq<Cluster>, boot: Log) returns (hs: seq<Proto>)
    requires IsRun(run, boot)
    ensures Histories(run, hs)
  {
    hide Init, Next, ClusterOk, Extends;
    var last := |run| - 1;
    if last == 0 {
      InitialInv(run[0], boot);
      hs := [InitialHistory(run[0], boot)];
    } else {
      var pre := run[..last];
      assert forall i | 0 <= i < |pre| :: pre[i] == run[i];
      var hs' := RunHistories(pre, boot);
      assert Next(run[last-1], run[last]);
      var q := NextKeeps(run[last-1], run[last], hs'[last-1]);
      hs := hs' + [q];
    }
  }

  lemma {:induction false} HistoryExtends(run: seq<Cluster>, hs: seq<Proto>, i: nat, j: nat)
    requires Histories(run, hs) && i <= j < |run|
    ensures Extends(hs[i], hs[j])
    decreases j
  {
    hide ClusterOk, Extends;
    if i == j {
      SelfExtends(hs[i]);
    } else {
      HistoryExtends(run, hs, i, j - 1);
      ExtendsTransitive(hs[i], hs[j-1], hs[j]);
    }
  }

  lemma SelfExtends(p: Proto)
    ensures Extends(p, p)
  {
    forall t: nat ensures GrowsAt(p.llog, p.llog, t) {}
  }

  // ----- Theorems -----

  /** Election safety (section 5.2): at most one node ever leads a given term. */
  lemma ElectionSafety(run: seq<Cluster>, boot: Log, i: nat, j: nat, a: Id, b: Id)
    requires IsRun(run, boot) && i < |run| && j < |run| && a in run[i].nodes && b in run[j].nodes
    requires run[i].nodes[a].role == Leader && run[j].nodes[b].role == Leader
    requires run[i].nodes[a].term == run[j].nodes[b].term
    ensures a == b
  {
    hide IsRun;
    var hs := RunHistories(run, boot);
    if i <= j { HistoryExtends(run, hs, i, j); } else { HistoryExtends(run, hs, j, i); }
    LeaderInHistory(run[i], hs[i], a);
    LeaderInHistory(run[j], hs[j], b);
  }

  lemma LeaderInHistory(c: Cluster, p: Proto, a: Id)
    requires ClusterOk(c, p) && a in c.nodes && c.nodes[a].role == Leader
    ensures a != NONE && LeaderOf(p.leader, c.nodes[a].term) == a
    ensures c.nodes[a].term in p.llog && LLog(p.llog, c.nodes[a].term) == c.nodes[a].log
  {
    assert LeaderOf(p.leader, c.nodes[a].term) != NONE;
  }

  lemma LogInHistory(c: Cluster, p: Proto, a: Id)
    requires ClusterOk(c, p) && a in c.nodes
    ensures Matches(p.llog, c.nodes[a].log) && TermOf(p.term, a) == c.nodes[a].term
    ensures CommittedPrefix(p, c.nodes[a].log, c.nodes[a].committed, c.nodes[a].term)
  {
    assert c.nodes[a].log == LogOf(p.log, a);
  }

  /** The indices of a node are in order at every time of a run. */
  lemma Bounds(run: seq<Cluster>, boot: Log, i: nat, a: Id)
    requires IsRun(run, boot) && i < |run| && a in run[i].nodes
    ensures run[i].nodes[a].base <= run[i].nodes[a].snapped <= run[i].nodes[a].committed <= |run[i].nodes[a].log|
  {
    hide IsRun, Inv, MsgOk;
    var hs := RunHistories(run, boot);
    assert ClusterOk(run[i], hs[i]);
  }

  lemma TermPositive(run: seq<Cluster>, boot: Log, i: nat, a: Id)
    requires IsRun(run, boot) && i < |run| && a in run[i].nodes
    ensures run[i].nodes[a].term >= 1
  {
    hide IsRun, Inv, MsgOk;
    var hs := RunHistories(run, boot);
    assert ClusterOk(run[i], hs[i]);
  }

  /** Log matching (section 5.3): two logs of the run with the same term at an index are equal up
      to that index, whichever nodes and times they come from. */
  lemma LogMatching(run: seq<Cluster>, boot: Log, i: nat, j: nat, a: Id, b: Id, k: nat)
    requires IsRun(run, boot) && i < |run| && j < |run| && a in run[i].nodes && b in run[j].nodes
    requires k < |run[i].nodes[a].log| && k < |run[j].nodes[b].log|
    requires run[i].nodes[a].log[k].term == run[j].nodes[b].log[k].term
    ensures Agree(run[i].nodes[a].log, run[j].nodes[b].log, k + 1)
  {
    hide IsRun, ClusterOk;
    var hs := RunHistories(run, boot);
    LogInHistory(run[i], hs[i], a);
    LogInHistory(run[j], hs[j], b);
    var m := Max(i, j);
    HistoryExtends(run, hs, i, m);
    HistoryExtends(run, hs, j, m);
    MatchesGrows(hs[i], hs[m], run[i].nodes[a].log);
    MatchesGrows(hs[j], hs[m], run[j].nodes[b].log);
    assert MatchedAt(hs[m].llog, run[i].nodes[a].log, k);
    assert MatchedAt(hs[m].llog, run[j].nodes[b].log, k);
  }

  /** A leader never removes or replaces an entry of its log while it leads. */
  lemma LeaderAppendOnly(run: seq<Cluster>, boot: Log, i: nat, j: nat, a: Id)
    requires IsRun(run, boot) && i <= j < |run| && a in run[i].nodes && a in run[j].nodes
    requires run[i].nodes[a].role == Leader && run[j].nodes[a].role == Leader
    requires run[i].nodes[a].term == run[j].nodes[a].term
    ensures run[i].nodes[a].log <= run[j].nodes[a].log
  {
    hide IsRun, ClusterOk;
    var hs := RunHistories(run, boot);
    HistoryExtends(run, hs, i, j);
    LeaderInHistory(run[i], hs[i], a);
    LeaderInHistory(run[j], hs[j], a);
    assert GrowsAt(hs[i].llog, hs[j].llog, run[i].nodes[a].term);
  }

  /** What leader u held at an earlier time already covers all that is chosen in earlier terms:
      everything it appended since is of term u. */
  lemma EarlierLeaderCovers(p: Proto, q: Proto, l: Log, k: nat, t: nat, u: nat)
    requires Inv(q) && Extends(p, q) && u in p.llog && t < u
    requires CommittedPrefix(q, l, k, t)
    ensures Agree(l, LLog(p.llog, u), k)
  {
    hide Elected, LogsMatch, AcksKept, VotesCarry, Complete, CommitsChosen, AcksGrow, VotesGrow;
    assert GrowsAt(p.llog, q.llog, u);
    if k > 0 {
      var s: nat, i: nat :| Chosen(q, s, i) && s <= t && k <= i && Agree(l, LLog(q.llog, s), k);
      ChosenIsComplete(q, s, i, u);
      var z := |LLog(p.llog, u)|;
      if z < k {
        assert false;
      }
    }
  }

  /** Leader completeness (section 5.4): whatever a node has committed while in some term is in the
      log of every leader of every later term, at whatever time that leader leads. */
  lemma LeaderCompleteness(run: seq<Cluster>, boot: Log, i: nat, j: nat, a: Id, b: Id)
    requires IsRun(run, boot) && i < |run| && j < |run| && a in run[i].nodes && b in run[j].nodes
    requires run[j].nodes[b].role == Leader && run[i].nodes[a].term < run[j].nodes[b].term
    ensures Agree(run[i].nodes[a].log, run[j].nodes[b].log, run[i].nodes[a].committed)
  {
    hide IsRun, Inv, NodesOk, MsgOk, CommittedPrefix;
    var hs := RunHistories(run, boot);
    var m := Max(i, j);
    HistoryExtends(run, hs, i, m);
    HistoryExtends(run, hs, j, m);
    var n := run[i].nodes[a];
    LogInHistory(run[i], hs[i], a);
    LeaderInHistory(run[j], hs[j], b);
    CommittedGrows(hs[i], hs[m], n.log, n.committed, n.term, n.term);
    EarlierLeaderCovers(hs[j], hs[m], n.log, n.committed, n.term, run[j].nodes[b].term);
  }

  lemma CommittedAgree(p: Proto, l: Log, k: nat, u: nat, m: Log, h: nat, w: nat)
    requires Inv(p) && CommittedPrefix(p, l, k, u) && CommittedPrefix(p, m, h, w) && k <= h
    ensures Agree(l, m, k)
  {
    if k > 0 {
      var t: nat, i: nat :| Chosen(p, t, i) && t <= u && k <= i && Agree(l, LLog(p.llog, t), k);
      var s: nat, j: nat :| Chosen(p, s, j) && s <= w && h <= j && Agree(m, LLog(p.llog, s), h);
      if t <= s { ChosenIsComplete(p, t, i, s); } else { ChosenIsComplete(p, s, j, t); }
    }
  }

  /** State machine safety (section 5.4.3): two nodes that have both committed index k, at whatever
      times of the run, committed the same entries up to k. */
  lemma StateMachineSafety(run: seq<Cluster>, boot: Log, i: nat, j: nat, a: Id, b: Id)
    requires IsRun(run, boot) && i < |run| && j < |run| && a in run[i].nodes && b in run[j].nodes
    requires run[i].nodes[a].committed <= run[j].nodes[b].committed
    ensures Agree(run[i].nodes[a].log, run[j].nodes[b].log, run[i].nodes[a].committed)
  {
    hide IsRun, Inv, NodesOk, MsgOk, CommittedPrefix;
    var hs := RunHistories(run, boot);
    var m := Max(i, j);
    HistoryExtends(run, hs, i, m);
    HistoryExtends(run, hs, j, m);
    var x, y := run[i].nodes[a], run[j].nodes[b];
    LogInHistory(run[i], hs[i], a);
    LogInHistory(run[j], hs[j], b);
    CommittedGrows(hs[i], hs[m], x.log, x.committed, x.term, x.term);
    CommittedGrows(hs[j], hs[m], y.log, y.committed, y.term, y.term);
    CommittedAgree(hs[m], x.log, x.committed, x.term, y.log, y.committed, y.term);
  }

  /** Progress is truthful: a follower still in the leader's term agrees with the leader up to the
      index the leader has recorded for it. */
  lemma ProgressTruthful(run: seq<Cluster>, boot: Log, i: nat, a: Id, b: Id)
    requires IsRun(run, boot) && i < |run| && a in run[i].nodes && b in run[i].nodes && b in run[i].nodes[a].prs
    requires run[i].nodes[a].role == Leader && run[i].nodes[a].term == run[i].nodes[b].term
    ensures Agree(run[i].nodes[a].log, run[i].nodes[b].log, run[i].nodes[a].prs[b].matched)
  {
    hide IsRun, Inv;
    var hs := RunHistories(run, boot);
    var x, y := run[i].nodes[a], run[i].nodes[b];
    assert ClusterOk(run[i], hs[i]);
    AckedIsHeld(hs[i], y, x.prs[b].matched);
    LeaderInHistory(run[i], hs[i], a);
  }

  /** No reachable node panics, whatever message or local input it is handed. */
  lemma NoPanic(run: seq<Cluster>, boot: Log, i: nat, id: Id, m: Message)
    requires IsRun(run, boot) && i < |run| && Enabled(run[i], id, m)
    ensures WellFormed(run[i].nodes[id]) && Step(run[i].nodes[id], m).Done?
  {
    hide IsRun, Inv, Step, MsgOk;
    var hs := RunHistories(run, boot);
    assert ClusterOk(run[i], hs[i]);
    var q := StepRefines(hs[i], run[i].nodes[id], m);
  }

  lemma AppendKeepsAgreement(p: Proto, n: Node, m: Message, k: nat)
    requires Inv(p) && NodeOk(p, n) && m.MsgApp? && m.term == n.term && MsgOk(p, m)
    requires Agree(n.log, LLog(p.llog, n.term), k) && HandleAppendEntries(n, m).Done?
    ensures Agree(HandleAppendEntries(n, m).node.log, LLog(p.llog, n.term), k)
  {
    hide Inv, NodeOk, MaybeAppend, KnownCommitted;
    CommittedAgrees(p, n);
    LogsMatchAt(p, n);
    assert n.base <= n.committed by { BaseCommitted(p, n); }
    if m.index >= n.committed {
      MaybeAppendMerges(p, n.log, n.base, n.committed, LLog(p.llog, n.term), m.index, m.index + |m.entries|, m.commit);
    }
  }

  lemma BaseCommitted(p: Proto, n: Node)
    requires NodeOk(p, n)
    ensures n.base <= n.committed
  {
  }

  /** A late or repeated append message of the leader's term never undoes agreement with the leader. */
  lemma StaleAppendHarmless(run: seq<Cluster>, boot: Log, i: nat, a: Id, b: Id, m: Message, k: nat)
    requires IsRun(run, boot) && i < |run| && a in run[i].nodes && b in run[i].nodes
    requires run[i].nodes[a].role == Leader && m.MsgApp? && IsSent(run[i], b, m)
    requires m.term == run[i].nodes[a].term == run[i].nodes[b].term && WellFormed(run[i].nodes[b])
    requires Agree(run[i].nodes[b].log, run[i].nodes[a].log, k)
    ensures Step(run[i].nodes[b], m).Done? && Agree(Step(run[i].nodes[b], m).node.log, run[i].nodes[a].log, k)
  {
    hide IsRun, Inv, NodeOk, MsgOk, HandleAppendEntries;
    var hs := RunHistories(run, boot);
    assert ClusterOk(run[i], hs[i]);
    var n := run[i].nodes[b];
    NoPanic(run, boot, i, b, m);
    LeaderInHistory(run[i], hs[i], a);
    match n.role
    case Leader =>
    case Candidate =>
      FollowerOk(hs[i], n, m.from);
      AppendKeepsAgreement(hs[i], BecomeFollower(n, n.term, m.from), m, k);
    case Follower =>
      assert NodeOk(hs[i], n.(lead := m.from)) by { LeadDoesNotMatter(hs[i], n, m.from); }
      AppendKeepsAgreement(hs[i], n.(lead := m.from), m, k);
  }

  lemma LeadDoesNotMatter(p: Proto, n: Node, lead: Id)
    requires NodeOk(p, n)
    ensures NodeOk(p, n.(lead := lead))
  {
  }
}
