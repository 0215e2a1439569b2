/**
 * The loop around a node: it hands out Ready values and waits for each to be
 * advanced. Over every run of the cluster the application receives exactly the
 * committed log, each entry once and in order.
 */
module RaftReady {
  import opened Options
  import opened RaftTypes
  import opened RaftNode
  import opened RaftCluster
  import opened RaftProtocol
  import RaftSafety

  function HardStateOf(n: Node): HardState { HardState(n.term, n.vote, n.committed) }

  /** delivered is what the application has been given so far, by snapshot or entry by entry. */
  datatype Loop = Loop(applied: nat, prevHard: HardState, awaiting: bool, delivered: Log)

  /** What one Ready carries for the application. A restored snapshot is pending exactly while
      the log starts behind the applied index: the application compacts only what it applied. */
  datatype Ready = Ready(snapshot: Option<Log>, entries: seq<Entry>, hard: HardState)

  function NewReady(n: Node, applied: nat, prevHard: HardState): Ready
    requires n.base <= n.committed <= |n.log|
  {
    var first := Max(applied, n.base);
    Ready(if n.base > applied then Some(n.log[..n.base]) else None,
          if n.committed > first then n.log[first..n.committed] else [],
          if HardStateOf(n) != prevHard then HardStateOf(n) else EMPTY_STATE)
  }

  function Applying(delivered: Log, rd: Ready): Log {
    (if rd.snapshot.Some? then rd.snapshot.value else delivered) + rd.entries
  }

  function TakeReady(l: Loop, n: Node): Loop
    requires n.base <= n.committed <= |n.log|
  {
    var rd := NewReady(n, l.applied, l.prevHard);
    l.(prevHard := if rd.hard != EMPTY_STATE then rd.hard else l.prevHard, awaiting := true,
       delivered := Applying(l.delivered, rd))
  }

  /** None where the code panics. */
  function AppliedTo(applied: nat, committed: nat, i: nat): Option<nat> {
    if i == 0 then Some(applied) else if committed < i || i < applied then None else Some(i)
  }

  function Advance(l: Loop, n: Node): Option<Loop> {
    match AppliedTo(l.applied, n.committed, l.prevHard.commit)
    case None => None
    case Some(i) => Some(l.(applied := i, awaiting := false))
  }

  // ----- The loop's invariant -----

  /** How much of the log the application has been given. */
  function Given(l: Loop): nat { if l.awaiting then l.prevHard.commit else l.applied }

  ghost predicate LoopOk(l: Loop, n: Node) {
    && l.applied <= Given(l) <= n.committed <= |n.log| && l.prevHard.commit <= n.committed
    && l.delivered == n.log[..Given(l)]
  }

  lemma TakeReadyOk(l: Loop, n: Node)
    requires LoopOk(l, n) && !l.awaiting && n.base <= n.committed
    ensures LoopOk(TakeReady(l, n), n) && Given(TakeReady(l, n)) == n.committed
  {
  }

  lemma AdvanceOk(l: Loop, n: Node)
    requires LoopOk(l, n) && l.awaiting
    ensures Advance(l, n).Some? && LoopOk(Advance(l, n).value, n)
    ensures Given(Advance(l, n).value) == Given(l)
  {
  }

  lemma GrowOk(l: Loop, n: Node, m: Node)
    requires LoopOk(l, n) && n.committed <= m.committed <= |m.log| && Agree(n.log, m.log, n.committed)
    ensures LoopOk(l, m)
  {
    assert n.log[..Given(l)] == m.log[..Given(l)];
  }

  // ----- Committing over the steps of a node -----

  lemma SendingKeepsCommit(n: Node)
    ensures BcastAppend(n).Done? ==> BcastAppend(n).node.committed == n.committed
    ensures forall to | to in n.prs && SendAppend(n, to).Done? :: SendAppend(n, to).node.committed == n.committed
  {
  }

  lemma MaybeAppendKeepsCommit(n: Node, m: Message)
    requires m.MsgApp?
    ensures var r := MaybeAppend(n.log, n.base, n.committed, m.index, m.logTerm, m.commit, m.entries);
            r.Accepted? ==> r.committed >= n.committed
  {
    hide FindConflict, MatchTerm, Append;
  }

  lemma HandlersKeepCommit(n: Node, m: Message)
    ensures m.MsgApp? && HandleAppendEntries(n, m).Done? ==> HandleAppendEntries(n, m).node.committed >= n.committed
    ensures m.MsgHeartbeat? && HandleHeartbeat(n, m).Done? ==> HandleHeartbeat(n, m).node.committed >= n.committed
    ensures m.MsgSnap? && HandleSnapshot(n, m).Done? ==> HandleSnapshot(n, m).node.committed >= n.committed
  {
    hide MaybeAppend, MatchTerm, TermAt;
    if m.MsgApp? { MaybeAppendKeepsCommit(n, m); }
  }

  lemma StepLeaderKeepsCommit(n: Node, m: Message)
    requires WellFormed(n) && StepLeader(n, m).Done?
    ensures StepLeader(n, m).node.committed >= n.committed
  {
    hide BcastAppend, SendAppend, QuorumActive, IsQuorumIndex;
    match m
    case MsgProp(_, _, proposals) =>
      if proposals != [] { SendingKeepsCommit(AppendEntry(n, proposals)); }
    case MsgAppResp(from, _, _, _, reject, _) =>
      if from in n.prs {
        if reject { RejectedKeepsCommit(n, m); } else { AckedKeepsCommit(n, m); }
      }
    case MsgHeartbeatResp(from, _, _) =>
      if from in n.prs { HeartbeatRespKeepsCommit(n, m); }
    case _ =>
  }

  lemma RejectedKeepsCommit(n: Node, m: Message)
    requires m.MsgAppResp? && m.from in n.prs && StepAppendRejected(n, m).Done?
    ensures StepAppendRejected(n, m).node.committed == n.committed
  {
    hide SendAppend;
    var pr := n.prs[m.from].(recentActive := true);
    match MaybeDecrTo(pr, m.index, m.rejectHint)
    case None =>
    case Some(d) =>
      SendingKeepsCommit(SetProgress(n, m.from, if d.state == Replicate then BecomeProbe(d) else d));
  }

  lemma AckedKeepsCommit(n: Node, m: Message)
    requires m.MsgAppResp? && m.from in n.prs && n.id in n.prs && StepAppendAcked(n, m).Done?
    ensures StepAppendAcked(n, m).node.committed >= n.committed
  {
    hide SendAppend, BcastAppend, QuorumIndex, ProgressAfterAck;
    var pr := n.prs[m.from].(recentActive := true);
    if pr.matched < m.index {
      var a := SetProgress(n, m.from, ProgressAfterAck(pr, m.index));
      SendingKeepsCommit(a.(committed := CommitIndex(a)));
    }
  }

  lemma HeartbeatRespKeepsCommit(n: Node, m: Message)
    requires m.MsgHeartbeatResp? && m.from in n.prs && n.maxInflight >= 1 && StepHeartbeatResp(n, m).Done?
    ensures StepHeartbeatResp(n, m).node.committed == n.committed
  {
    hide SendAppend;
    var pr := n.prs[m.from].(recentActive := true);
    var f := if pr.state == Replicate && |pr.inflights| == n.maxInflight
             then pr.(inflights := FreeTo(pr.inflights, pr.inflights[0])) else pr;
    SendingKeepsCommit(SetProgress(n, m.from, f));
  }

  lemma RolesKeepCommit(n: Node, term: nat, lead: Id)
    ensures BecomeFollower(n, term, lead).committed == n.committed
    ensures WellFormed(n) ==> BecomeLeader(n).committed >= n.committed
  {
    hide QuorumIndex;
  }

  lemma Voted(n: Node, votes: map<Id, bool>)
    ensures WellFormed(n.(votes := votes)) == WellFormed(n) && n.(votes := votes).committed == n.committed
  {
  }

  lemma VoteRespKeepsCommit(n: Node, m: Message)
    requires WellFormed(n) && m.MsgVoteResp? && StepCandidate(n, m).Done?
    ensures StepCandidate(n, m).node.committed >= n.committed
  {
    hide BcastAppend, BecomeLeader, BecomeFollower, WellFormed, Granted, Poll, Quorum;
    var p := n.(votes := Poll(n.votes, m.from, !m.reject));
    Voted(n, Poll(n.votes, m.from, !m.reject));
    RolesKeepCommit(p, p.term, NONE);
    SendingKeepsCommit(BecomeLeader(p));
  }

  lemma StepCandidateKeepsCommit(n: Node, m: Message)
    requires WellFormed(n) && StepCandidate(n, m).Done?
    ensures StepCandidate(n, m).node.committed >= n.committed
  {
    hide BecomeFollower, WellFormed, HandleAppendEntries, HandleHeartbeat, HandleSnapshot;
    if m.MsgVoteResp? {
      VoteRespKeepsCommit(n, m);
    } else if m.MsgApp? || m.MsgHeartbeat? || m.MsgSnap? {
      hide BecomeLeader, BcastAppend;
      RolesKeepCommit(n, n.term, m.from);
      HandlersKeepCommit(BecomeFollower(n, n.term, m.from), m);
    }
  }

  lemma StepFollowerKeepsCommit(n: Node, m: Message)
    requires StepFollower(n, m).Done?
    ensures StepFollower(n, m).node.committed >= n.committed
  {
    hide HandleAppendEntries, HandleHeartbeat, HandleSnapshot, IsUpToDate;
    match m
    case MsgApp(from, _, _, _, _, _, _) => HandlersKeepCommit(n.(lead := from), m);
    case MsgHeartbeat(from, _, _, _) => HandlersKeepCommit(n.(lead := from), m);
    case MsgSnap(_, _, _, _) => HandlersKeepCommit(n, m);
    case _ =>
  }

  /** A node's commit index never decreases while it runs. */
  lemma StepKeepsCommit(n: Node, m: Message)
    requires WellFormed(n) && Step(n, m).Done?
    ensures Step(n, m).node.committed >= n.committed
  {
    hide StepLeader, StepCandidate, StepFollower, QuorumIndex, Granted;
    if !m.MsgHup? && !(0 < MessageTerm(m) < n.term) {
      var a := Adopt(n, m);
      match a.role
      case Leader => StepLeaderKeepsCommit(a, m);
      case Candidate => StepCandidateKeepsCommit(a, m);
      case Follower => StepFollowerKeepsCommit(a, m);
    }
  }

  // ----- Whole runs -----

  /** One step of the cluster in which node id is not restarted. */
  ghost predicate KeepsRunning(c: Cluster, d: Cluster, id: Id) {
    || (exists j, m :: Steps(c, d, j, m))
    || (exists j, s, b :: Compacts(c, d, j, s, b))
    || (exists j, savedCommit :: j != id && Restarts(c, d, j, savedCommit))
  }

  lemma RunningKeepsCommit(c: Cluster, d: Cluster, id: Id)
    requires id in c.nodes && KeepsRunning(c, d, id)
    ensures id in d.nodes && d.nodes[id].committed >= c.nodes[id].committed
  {
    hide Step;
    if j, m :| Steps(c, d, j, m) {
      StepKeepsCommit(c.nodes[j], m);
    } else if j, s, b :| Compacts(c, d, j, s, b) {
    } else {
      var j, savedCommit :| j != id && Restarts(c, d, j, savedCommit);
    }
  }

  /** Where the cluster is in its run, and the state of one node's loop at that time. */
  datatype Moment = Moment(at: nat, loop: Loop)

  ghost predicate LoopNext(run: seq<Cluster>, id: Id, a: Moment, b: Moment)
    requires a.at < |run| && b.at < |run| && id in run[a.at].nodes
  {
    var n := run[a.at].nodes[id];
    || (b.at == a.at + 1 && b.loop == a.loop && KeepsRunning(run[a.at], run[b.at], id))
    || (b.at == a.at && !a.loop.awaiting && n.base <= n.committed <= |n.log| && b.loop == TakeReady(a.loop, n))
    || (b.at == a.at && a.loop.awaiting && Advance(a.loop, n) == Some(b.loop))
  }

  /** The loop starts at an applied index that the log still covers; the application already has
      the entries up to there. */
  ghost predicate LoopStart(n: Node, l: Loop) {
    && n.base <= l.applied <= n.committed <= |n.log|
    && l == Loop(l.applied, EMPTY_STATE, false, n.log[..l.applied])
  }

  ghost predicate IsLoopRun(run: seq<Cluster>, id: Id, ms: seq<Moment>) {
    && ms != []
    && (forall k | 0 <= k < |ms| :: ms[k].at < |run| && id in run[ms[k].at].nodes)
    && LoopStart(run[ms[0].at].nodes[id], ms[0].loop)
    && forall k | 0 <= k < |ms| - 1 :: LoopNext(run, id, ms[k], ms[k+1])
  }

  lemma LoopNextOk(run: seq<Cluster>, boot: Log, id: Id, a: Moment, b: Moment)
    requires IsRun(run, boot) && a.at < |run| && b.at < |run| && id in run[a.at].nodes && id in run[b.at].nodes
    requires LoopOk(a.loop, run[a.at].nodes[id]) && LoopNext(run, id, a, b)
    ensures LoopOk(b.loop, run[b.at].nodes[id]) && Given(a.loop) <= Given(b.loop)
    ensures a.loop.delivered <= b.loop.delivered
  {
    hide IsRun, KeepsRunning;
    var n := run[a.at].nodes[id];
    if b.at == a.at + 1 {
      RunningKeepsCommit(run[a.at], run[b.at], id);
      RaftSafety.StateMachineSafety(run, boot, a.at, b.at, id, id);
      RaftSafety.Bounds(run, boot, b.at, id);
      GrowOk(a.loop, n, run[b.at].nodes[id]);
    } else if a.loop.awaiting {
      AdvanceOk(a.loop, n);
    } else {
      TakeReadyOk(a.loop, n);
    }
  }

  /** Ready and Advance deliver exactly the committed log: at every moment of every run the
      application has been given precisely a prefix of the node's log that is committed, and
      advancing never runs into the panic about the applied index. */
  lemma {:induction false} DeliveredExactlyOnce(run: seq<Cluster>, boot: Log, id: Id, ms: seq<Moment>, k: nat)
    requires IsRun(run, boot) && IsLoopRun(run, id, ms) && k < |ms|
    ensures var n, l := run[ms[k].at].nodes[id], ms[k].loop;
            && Given(l) <= n.committed <= |n.log| && l.delivered == n.log[..Given(l)]
            && (l.awaiting ==> Advance(l, n).Some?)
    decreases k
  {
    hide IsRun;
    DeliveredOk(run, boot, id, ms, k);
  }

  lemma {:induction false} DeliveredOk(run: seq<Cluster>, boot: Log, id: Id, ms: seq<Moment>, k: nat)
    requires IsRun(run, boot) && IsLoopRun(run, id, ms) && k < |ms|
    ensures LoopOk(ms[k].loop, run[ms[k].at].nodes[id])
    decreases k
  {
    hide IsRun, LoopNext;
    if k > 0 {
      DeliveredOk(run, boot, id, ms, k - 1);
      assert LoopNext(run, id, ms[k-1], ms[k]);
      LoopNextOk(run, boot, id, ms[k-1], ms[k]);
    }
  }

  /** What has been delivered is never taken back or delivered again: later deliveries only extend it. */
  lemma {:induction false} DeliveryOnlyExtends(run: seq<Cluster>, boot: Log, id: Id, ms: seq<Moment>, j: nat, k: nat)
    requires IsRun(run, boot) && IsLoopRun(run, id, ms) && j <= k < |ms|
    ensures ms[j].loop.delivered <= ms[k].loop.delivered
    decreases k
  {
    hide IsRun, LoopNext, LoopOk;
    if j < k {
      DeliveryOnlyExtends(run, boot, id, ms, j, k - 1);
      DeliveredOk(run, boot, id, ms, k - 1);
      assert LoopNext(run, id, ms[k-1], ms[k]);
      LoopNextOk(run, boot, id, ms[k-1], ms[k]);
    }
  }

  // ----- What is saved -----

  /** The step to moment k takes a Ready. */
  ghost predicate Takes(ms: seq<Moment>, k: nat) {
    0 < k < |ms| && ms[k].at == ms[k-1].at && !ms[k-1].loop.awaiting && ms[k].loop.awaiting
  }

  /** The last hard state handed out, if any was. */
  ghost function Handed(run: seq<Cluster>, id: Id, ms: seq<Moment>, k: nat): HardState
    requires IsLoopRun(run, id, ms) && k < |ms|
  {
    if k == 0 then EMPTY_STATE
    else if !Takes(ms, k) then Handed(run, id, ms, k - 1)
    else
      var n, l := run[ms[k].at].nodes[id], ms[k-1].loop;
      assert LoopNext(run, id, ms[k-1], ms[k]);
      var hard := NewReady(n, l.applied, l.prevHard).hard;
      if hard != EMPTY_STATE then hard else Handed(run, id, ms, k - 1)
  }

  lemma {:induction false} HandedIsPrevious(run: seq<Cluster>, id: Id, ms: seq<Moment>, k: nat)
    requires IsLoopRun(run, id, ms) && k < |ms|
    ensures Handed(run, id, ms, k) == ms[k].loop.prevHard
  {
    hide KeepsRunning;
    if k > 0 {
      HandedIsPrevious(run, id, ms, k - 1);
      assert LoopNext(run, id, ms[k-1], ms[k]);
    }
  }

  /** Whenever a Ready has been taken, the last hard state handed out is the node's term, vote and
      commit index of that time. */
  lemma HardStateSaved(run: seq<Cluster>, boot: Log, id: Id, ms: seq<Moment>, k: nat)
    requires IsRun(run, boot) && IsLoopRun(run, id, ms) && Takes(ms, k)
    ensures var n := run[ms[k].at].nodes[id]; Handed(run, id, ms, k) == HardState(n.term, n.vote, n.committed)
  {
    hide IsRun, KeepsRunning;
    HandedIsPrevious(run, id, ms, k);
    assert LoopNext(run, id, ms[k-1], ms[k]);
    RaftSafety.TermPositive(run, boot, ms[k].at, id);
  }

  /** A node built from a saved hard state, the log and the latest snapshot. */
  function StartedFrom(id: Id, members: set<Id>, hard: HardState, log: Log, snapped: nat, maxInflight: nat, maxMsgSize: nat): Node {
    Node(id, hard.term, hard.vote, log, hard.commit, snapped, snapped, Follower, NONE, map[],
         map v | v in members :: Progress(if v == id then |log| else 0, |log| + 1, Probe, false, 0, false, []), maxInflight, maxMsgSize)
  }

  /** A node started from what the last Ready handed out is the restarted node of the election
      theorems: its vote is the one it cast, and the step is one of a run. */
  lemma RestartedAsSaved(run: seq<Cluster>, boot: Log, id: Id, ms: seq<Moment>, k: nat)
    requires IsRun(run, boot) && IsLoopRun(run, id, ms) && Takes(ms, k)
    ensures var c, n := run[ms[k].at], run[ms[k].at].nodes[id];
            var started := StartedFrom(n.id, n.prs.Keys, Handed(run, id, ms, k), n.log, n.snapped, n.maxInflight, n.maxMsgSize);
            started == Restart(n, n.committed) && Restarts(c, c.(nodes := c.nodes[id := started]), id, n.committed)
  {
    hide IsRun, IsLoopRun, Handed;
    HardStateSaved(run, boot, id, ms, k);
    MomentIn(run, id, ms, k);
    RaftSafety.Bounds(run, boot, ms[k].at, id);
  }

  lemma MomentIn(run: seq<Cluster>, id: Id, ms: seq<Moment>, k: nat)
    requires IsLoopRun(run, id, ms) && k < |ms|
    ensures ms[k].at < |run| && id in run[ms[k].at].nodes
  {
  }

  // ----- The loop's own variables -----

  class ReadyLoop {
    var applied: nat
    var prevHard: HardState
    var awaiting: bool
    ghost var delivered: Log

    ghost function View(): Loop
      reads this
    {
      Loop(applied, prevHard, awaiting, delivered)
    }

    constructor (start: nat, ghost given: Log)
      ensures View() == Loop(start, EMPTY_STATE, false, given)
    {
      applied, prevHard, awaiting, delivered := start, EMPTY_STATE, false, given;
    }

    method Take(n: Node) returns (rd: Ready)
      requires !awaiting && LoopOk(View(), n) && n.base <= n.committed
      modifies this
      ensures View() == TakeReady(old(View()), n) && LoopOk(View(), n)
      ensures View().delivered == Applying(old(View()).delivered, rd) == n.log[..n.committed]
      ensures rd.hard == if n.term == old(prevHard).term && n.vote == old(prevHard).vote && n.committed == old(prevHard).commit
                         then EMPTY_STATE else HardState(n.term, n.vote, n.committed)
      ensures n.term >= 1 ==> prevHard.term == n.term && prevHard.vote == n.vote && prevHard.commit == n.committed
    {
      ghost var l := View();
      TakeReadyOk(l, n);
      rd := NewReady(n, applied, prevHard);
      if rd.hard != EMPTY_STATE { prevHard := rd.hard; }
      awaiting := true;
      delivered := Applying(delivered, rd);
    }

    method Advanced(n: Node)
      requires awaiting && LoopOk(View(), n)
      modifies this
      ensures Some(View()) == Advance(old(View()), n) && LoopOk(View(), n)
    {
      ghost var l := View();
      AdvanceOk(l, n);
      if prevHard.commit != 0 { applied := prevHard.commit; }
      awaiting := false;
    }
  }
}
