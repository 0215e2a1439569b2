/** The window of in-flight append messages: a bounded, strictly increasing queue kept in a ring. */
module RaftProgress {
  import opened RaftTypes
  import opened RaftNode
  import opened RaftCluster

  ghost predicate Increasing(w: seq<nat>) {
    forall i, j | 0 <= i < j < |w| :: w[i] < w[j]
  }

  /** Only a replicating peer has messages in flight; their last indices increase and stay below Next. */
  ghost predicate WindowOk(pr: Progress, maxInflight: nat) {
    && |pr.inflights| <= maxInflight
    && Increasing(pr.inflights)
    && (forall i | 0 <= i < |pr.inflights| :: pr.inflights[i] < pr.next)
    && (pr.state != Replicate ==> pr.inflights == [])
  }

  ghost predicate WindowsOk(n: Node) {
    forall id | id in n.prs :: WindowOk(n.prs[id], n.maxInflight)
  }

  /** Freeing up to an index removes exactly the messages it acknowledges. */
  lemma {:induction false} FreeToSplits(w: seq<nat>, to: nat)
    requires Increasing(w)
    ensures exists k: nat :: SplitAt(w, to, k) && FreeTo(w, to) == w[k..]
  {
    if w == [] || to < w[0] {
      assert SplitAt(w, to, 0) && FreeTo(w, to) == w[0..];
    } else {
      FreeToSplits(w[1..], to);
      var k: nat :| SplitAt(w[1..], to, k) && FreeTo(w[1..], to) == w[1..][k..];
      SplitLater(w, to, k);
      assert FreeTo(w, to) == w[k+1..];
    }
  }

  /** Exactly the first k are at most the given index. */
  ghost predicate SplitAt(w: seq<nat>, to: nat, k: nat) {
    k <= |w| && (forall i | 0 <= i < k :: w[i] <= to) && (forall i | k <= i < |w| :: to < w[i])
  }

  lemma SplitLater(w: seq<nat>, to: nat, k: nat)
    requires w != [] && w[0] <= to && SplitAt(w[1..], to, k)
    ensures SplitAt(w, to, k + 1)
  {
    forall i | 0 <= i < k + 1 ensures w[i] <= to { assert i > 0 ==> w[i] == w[1..][i-1]; }
    forall i | k + 1 <= i < |w| ensures to < w[i] { assert w[i] == w[1..][i-1]; }
  }

  /** The heartbeat response that frees one slot of a full window frees exactly the oldest message. */
  lemma FreeFirstIsOne(w: seq<nat>)
    requires Increasing(w) && w != []
    ensures FreeTo(w, w[0]) == w[1..]
  {
    assert w[1..] == [] || w[0] < w[1..][0];
  }

  lemma FreedWindowOk(pr: Progress, to: nat, maxInflight: nat)
    requires WindowOk(pr, maxInflight)
    ensures WindowOk(pr.(inflights := FreeTo(pr.inflights, to)), maxInflight)
  {
    FreeToSplits(pr.inflights, to);
  }

  lemma SentWindowOk(n: Node, to: Id)
    requires to in n.prs && WindowOk(n.prs[to], n.maxInflight)
    ensures WindowOk(ProgressAfterAppend(n, to), n.maxInflight)
  {
  }

  lemma BcastWindowsOk(n: Node)
    requires WindowsOk(n)
    ensures BcastAppend(n).Done? ==> WindowsOk(BcastAppend(n).node)
  {
    forall id | id in n.prs ensures WindowOk(ProgressAfterAppend(n, id), n.maxInflight) { SentWindowOk(n, id); }
  }

  lemma SendWindowsOk(n: Node, to: Id)
    requires WindowsOk(n) && to in n.prs
    ensures SendAppend(n, to).Done? ==> WindowsOk(SendAppend(n, to).node)
  {
    SentWindowOk(n, to);
  }

  lemma SetWindowsOk(n: Node, id: Id, pr: Progress)
    requires WindowsOk(n) && WindowOk(pr, n.maxInflight)
    ensures WindowsOk(SetProgress(n, id, pr))
  {
  }

  lemma AppendEntryWindowsOk(n: Node, data: seq<string>)
    requires WellFormed(n) && WindowsOk(n)
    ensures WindowsOk(AppendEntry(n, data))
  {
    hide CommitIndex;
  }

  lemma BecomeLeaderWindowsOk(n: Node)
    requires WellFormed(n)
    ensures WindowsOk(BecomeLeader(n))
  {
    hide AppendEntry;
    AppendEntryWindowsOk(Reset(n, n.term).(lead := n.id, role := Leader), [""]);
  }

  lemma AckWindowsOk(n: Node, m: Message)
    requires n.id in n.prs && WindowsOk(n) && m.MsgAppResp? && m.from in n.prs
    ensures StepAppendAcked(n, m).Done? ==> WindowsOk(StepAppendAcked(n, m).node)
  {
    hide CommitIndex, BcastAppend, SendAppend;
    var pr := n.prs[m.from].(recentActive := true);
    if pr.matched >= m.index {
      SetWindowsOk(n, m.from, MaybeUpdate(pr, m.index));
    } else {
      FreedWindowOk(MaybeUpdate(pr, m.index), m.index, n.maxInflight);
      var a := SetProgress(n, m.from, ProgressAfterAck(pr, m.index));
      SetWindowsOk(n, m.from, ProgressAfterAck(pr, m.index));
      var b := a.(committed := CommitIndex(a));
      BcastWindowsOk(b);
      SendWindowsOk(b, m.from);
    }
  }

  lemma RejectWindowsOk(n: Node, m: Message)
    requires WindowsOk(n) && m.MsgAppResp? && m.from in n.prs
    ensures StepAppendRejected(n, m).Done? ==> WindowsOk(StepAppendRejected(n, m).node)
  {
    hide SendAppend;
    var pr := n.prs[m.from].(recentActive := true);
    match MaybeDecrTo(pr, m.index, m.rejectHint)
    case None => SetWindowsOk(n, m.from, pr);
    case Some(d) =>
      var e := if d.state == Replicate then BecomeProbe(d) else d;
      SetWindowsOk(n, m.from, e);
      SendWindowsOk(SetProgress(n, m.from, e), m.from);
  }

  lemma HeartbeatRespWindowsOk(n: Node, m: Message)
    requires WellFormed(n) && WindowsOk(n) && m.MsgHeartbeatResp? && m.from in n.prs
    ensures StepHeartbeatResp(n, m).Done? ==> WindowsOk(StepHeartbeatResp(n, m).node)
  {
    hide SendAppend;
    var pr := n.prs[m.from].(recentActive := true);
    var f := if pr.state == Replicate && |pr.inflights| == n.maxInflight
             then pr.(inflights := FreeTo(pr.inflights, pr.inflights[0])) else pr;
    if pr.inflights != [] { FreedWindowOk(pr, pr.inflights[0], n.maxInflight); }
    SetWindowsOk(n, m.from, f);
    SendWindowsOk(SetProgress(n, m.from, f), m.from);
  }

  lemma LeaderWindowsOk(n: Node, m: Message)
    requires WellFormed(n) && WindowsOk(n)
    ensures StepLeader(n, m).Done? ==> WindowsOk(StepLeader(n, m).node)
  {
    hide AppendEntry, BcastAppend, SendAppend, StepAppendAcked, StepAppendRejected, StepHeartbeatResp;
    match m
    case MsgProp(_, _, proposals) =>
      hide WindowsOk;
      AppendEntryWindowsOk(n, proposals);
      BcastWindowsOk(AppendEntry(n, proposals));
    case MsgAppResp(from, _, _, _, reject, _) =>
      hide WindowsOk;
      if from in n.prs { if reject { RejectWindowsOk(n, m); } else { AckWindowsOk(n, m); } }
    case MsgHeartbeatResp(from, _, _) =>
      hide WindowsOk;
      if from in n.prs { HeartbeatRespWindowsOk(n, m); }
    case _ =>
  }

  lemma CandidateWindowsOk(n: Node, m: Message)
    requires WellFormed(n) && WindowsOk(n)
    ensures StepCandidate(n, m).Done? ==> WindowsOk(StepCandidate(n, m).node)
  {
    hide BecomeLeader, BcastAppend;
    if m.MsgVoteResp? {
      var p := n.(votes := Poll(n.votes, m.from, !m.reject));
      BecomeLeaderWindowsOk(p);
      BcastWindowsOk(BecomeLeader(p));
    }
  }

  lemma FollowerWindowsOk(n: Node, m: Message)
    requires WindowsOk(n)
    ensures StepFollower(n, m).Done? ==> WindowsOk(StepFollower(n, m).node)
  {
    hide MaybeAppend;
  }

  lemma CampaignWindowsOk(n: Node)
    requires WellFormed(n)
    ensures StartCampaign(n).Done? ==> WindowsOk(StartCampaign(n).node)
  {
    hide BecomeLeader;
    var c := BecomeCandidate(n);
    BecomeLeaderWindowsOk(c.(votes := Poll(c.votes, c.id, true)));
  }

  /** In every step, whatever the message, the windows stay bounded, increasing queues. */
  lemma StepKeepsWindows(n: Node, m: Message)
    requires WellFormed(n) && WindowsOk(n)
    ensures Step(n, m).Done? ==> WindowsOk(Step(n, m).node)
  {
    hide StepLeader, StepCandidate, StepFollower, StartCampaign, WindowsOk;
    if m.MsgHup? {
      CampaignWindowsOk(n);
    } else if !(0 < MessageTerm(m) < n.term) {
      var a := Adopt(n, m);
      AdoptWindowsOk(n, m);
      match a.role
      case Leader => LeaderWindowsOk(a, m);
      case Candidate => CandidateWindowsOk(a, m);
      case Follower => FollowerWindowsOk(a, m);
    }
  }

  lemma AdoptWindowsOk(n: Node, m: Message)
    requires WindowsOk(n)
    ensures WindowsOk(Adopt(n, m))
  {
  }

  lemma NextKeepsWindows(c: Cluster, d: Cluster)
    requires Next(c, d) && forall id | id in c.nodes :: WindowsOk(c.nodes[id])
    ensures forall id | id in d.nodes :: WindowsOk(d.nodes[id])
  {
    hide Step, WindowsOk;
    if id, m :| Steps(c, d, id, m) {
      StepKeepsWindows(c.nodes[id], m);
    } else if id, k :| Restarts(c, d, id, k) {
      RestartWindowsOk(c.nodes[id], k);
    } else {
      var id, s, b :| Compacts(c, d, id, s, b);
      CompactedWindowsOk(c.nodes[id], s, b);
    }
  }

  lemma RestartWindowsOk(n: Node, k: nat)
    ensures WindowsOk(Restart(n, k))
  {
  }

  lemma CompactedWindowsOk(n: Node, s: nat, b: nat)
    requires WindowsOk(n)
    ensures WindowsOk(Compacted(n, s, b))
  {
  }

  /** In every reachable state the in-flight windows are bounded, strictly increasing queues. */
  lemma {:induction false} WindowsBounded(run: seq<Cluster>, boot: Log, i: nat)
    requires IsRun(run, boot) && i < |run|
    ensures forall id | id in run[i].nodes :: WindowsOk(run[i].nodes[id])
  {
    hide Next, WindowsOk;
    if i == 0 {
      InitialWindowsOk(run[0], boot);
    } else {
      WindowsBounded(run, boot, i - 1);
      assert Next(run[i-1], run[i-1+1]);
      NextKeepsWindows(run[i-1], run[i]);
    }
  }

  lemma InitialWindowsOk(c: Cluster, boot: Log)
    requires Init(c, boot)
    ensures forall id | id in c.nodes :: WindowsOk(c.nodes[id])
  {
  }

  /** The ring buffer behind the window. */
  class Inflights {
    var start: nat
    var count: nat
    const size: nat
    const buffer: array<nat>

    ghost predicate Valid()
      reads this
    {
      buffer.Length == size && count <= size && size > 0 && start < size
    }

    function Slot(i: nat): (slot: nat)
      requires Valid() && i < size
      reads this
      ensures slot < size
    {
      if start + i >= size then start + i - size else start + i
    }

    /** The messages in flight, oldest first. */
    ghost function Contents(): seq<nat>
      requires Valid()
      reads this, buffer
    {
      seq(count, i requires 0 <= i < count && Valid() reads this, buffer => buffer[Slot(i)])
    }

    constructor (n: nat)
      requires n > 0
      ensures Valid() && fresh(buffer) && size == n && Contents() == []
    {
      size := n;
      buffer := new nat[n];
      start, count := 0, 0;
    }

    predicate Full()
      reads this
    {
      count == size
    }

    /** Adding to a full window is refused; the code panics there. */
    method Add(inflight: nat) returns (ok: bool)
      requires Valid()
      modifies this, buffer
      ensures Valid() && ok == (old(count) < size)
      ensures Contents() == if ok then old(Contents()) + [inflight] else old(Contents())
    {
      if Full() { return false; }
      ghost var was := Contents();
      var next := start + count;
      if next >= size { next := next - size; }
      buffer[next] := inflight;
      count := count + 1;
      assert forall i | 0 <= i < |was| :: Contents()[i] == was[i];
      assert Contents() == was + [inflight];
      ok := true;
    }

    method FreeUpTo(to: nat)
      requires Valid()
      modifies this
      ensures Valid() && Contents() == FreeTo(old(Contents()), to)
    {
      ghost var was := Contents();
      if count == 0 || to < buffer[start] {
        assert count > 0 ==> was[0] == buffer[start];
        return;
      }
      var i, idx := 0, start;
      while i < count
        invariant Valid() && i <= count && idx < size && (i < size ==> idx == Slot(i)) && (i == size ==> idx == start)
        invariant start == old(start) && count == old(count)
        invariant FreeTo(was, to) == FreeTo(was[i..], to)
      {
        assert was[i..][0] == buffer[idx];
        if to < buffer[idx] { break; }
        assert was[i..][1..] == was[i+1..];
        idx := idx + 1;
        if idx >= size { idx := idx - size; }
        i := i + 1;
      }
      assert FreeTo(was[i..], to) == was[i..];
      count := count - i;
      start := idx;
      assert forall j | 0 <= j < count :: Contents()[j] == was[i+j];
      assert Contents() == was[i..];
    }

    method FreeFirstOne()
      requires Valid() && count > 0
      modifies this
      ensures Valid() && Contents() == FreeTo(old(Contents()), old(Contents())[0])
    {
      FreeUpTo(buffer[start]);
    }

    method Clear()
      requires Valid()
      modifies this
      ensures Valid() && Contents() == []
    {
      count := 0;
      start := 0;
    }
  }
}
