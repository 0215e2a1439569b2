/** The raft object: every method is proved to do what the node functions say. */
module RaftObject {
  import opened RaftTypes
  import opened RaftNode
  import opened RaftImpl

  // ----- Loops over the members, in some order -----

  ghost predicate Enumerates(s: seq<Id>, ids: set<Id>) {
    && (forall i, j | 0 <= i < j < |s| :: s[i] != s[j])
    && (forall v :: v in s <==> v in ids)
  }

  method Enumerate(ids: set<Id>) returns (s: seq<Id>)
    ensures Enumerates(s, ids)
  {
    s := [];
    var todo := ids;
    while todo != {}
      invariant todo <= ids && Enumerates(s, ids - todo)
      decreases todo
    {
      var v :| v in todo;
      s := s + [v];
      todo := todo - {v};
    }
    assert ids - todo == ids;
  }

  ghost function AppendMessagesTo(n: Node, s: seq<Id>): set<Message> {
    set v, m | v in s && v in n.prs && v != n.id && m in AppendMessages(n, v) :: m
  }

  lemma AppendMessagesToOne(n: Node, s: seq<Id>, v: Id)
    requires v in n.prs
    ensures AppendMessagesTo(n, s + [v]) == AppendMessagesTo(n, s) + if v == n.id then {} else AppendMessages(n, v)
  {
  }

  ghost predicate AppendedTo(n: Node, prs: map<Id, Progress>, s: seq<Id>) {
    && prs.Keys == n.prs.Keys
    && (forall v | v in prs :: prs[v] == if v in s && v != n.id then ProgressAfterAppend(n, v) else n.prs[v])
    && (forall v | v in s && v in n.prs && v != n.id :: !LacksSnapshot(n, v))
  }

  lemma AppendedToNone(n: Node)
    ensures AppendedTo(n, n.prs, [])
  {
  }

  lemma AppendedToSelf(n: Node, prs: map<Id, Progress>, s: seq<Id>)
    requires AppendedTo(n, prs, s)
    ensures AppendedTo(n, prs, s + [n.id])
  {
  }

  /** Sending to one member looks only at that member's progress. */
  lemma AppendedToOne(n: Node, prs: map<Id, Progress>, s: seq<Id>, v: Id)
    requires AppendedTo(n, prs, s) && v in n.prs && v !in s && v != n.id
    ensures v in prs
    ensures var a := n.(prs := prs);
            && AppendMessages(a, v) == AppendMessages(n, v) && LacksSnapshot(a, v) == LacksSnapshot(n, v)
            && ProgressAfterAppend(a, v) == ProgressAfterAppend(n, v)
            && (!LacksSnapshot(n, v) ==> AppendedTo(n, prs[v := ProgressAfterAppend(n, v)], s + [v]))
  {
  }

  lemma AppendedToAll(n: Node, prs: map<Id, Progress>, s: seq<Id>)
    requires AppendedTo(n, prs, s) && Enumerates(s, n.prs.Keys)
    ensures BcastAppend(n) == Done(n.(prs := prs), AppendMessagesTo(n, s))
  {
    var o := BcastAppend(n);
    assert o.node.prs == prs;
    assert o.msgs == AppendMessagesTo(n, s);
  }

  lemma BcastLacks(n: Node, v: Id)
    requires v in n.prs && v != n.id && LacksSnapshot(n, v)
    ensures BcastAppend(n) == Panic
  {
  }

  ghost function HeartbeatsTo(n: Node, s: seq<Id>): set<Message> {
    set v | v in s && v in n.prs && v != n.id :: HeartbeatMessage(n, v)
  }

  lemma HeartbeatsToOne(n: Node, s: seq<Id>, v: Id)
    requires v in n.prs
    ensures HeartbeatsTo(n, s + [v]) == HeartbeatsTo(n, s) + if v == n.id then {} else {HeartbeatMessage(n, v)}
  {
  }

  ghost predicate ResumedIn(n: Node, prs: map<Id, Progress>, s: seq<Id>) {
    && prs.Keys == n.prs.Keys
    && forall v | v in prs :: prs[v] == if v in s && v != n.id then n.prs[v].(paused := false) else n.prs[v]
  }

  lemma ResumedInNone(n: Node)
    ensures ResumedIn(n, n.prs, [])
  {
  }

  lemma ResumedInOne(n: Node, prs: map<Id, Progress>, s: seq<Id>, v: Id)
    requires ResumedIn(n, prs, s) && v in n.prs && v !in s
    ensures v in prs && prs[v] == n.prs[v]
    ensures v == n.id ==> ResumedIn(n, prs, s + [v])
    ensures v != n.id ==> ResumedIn(n, prs[v := n.prs[v].(paused := false)], s + [v])
  {
  }

  lemma ResumedAll(n: Node, prs: map<Id, Progress>, s: seq<Id>)
    requires ResumedIn(n, prs, s) && Enumerates(s, n.prs.Keys)
    ensures BcastHeartbeat(n) == Done(n.(prs := prs), HeartbeatsTo(n, s))
  {
    var o := BcastHeartbeat(n);
    assert o.node.prs == prs;
    assert o.msgs == HeartbeatsTo(n, s);
  }

  function VoteRequest(n: Node, to: Id): Message {
    MsgVote(n.id, to, n.term, |n.log|, TermAt(n.log, n.base, |n.log|))
  }

  ghost function VoteRequestsTo(n: Node, s: seq<Id>): set<Message> {
    set v | v in s && v in n.prs && v != n.id :: VoteRequest(n, v)
  }

  lemma VoteRequestsToOne(n: Node, s: seq<Id>, v: Id)
    requires v in n.prs
    ensures VoteRequestsTo(n, s + [v]) == VoteRequestsTo(n, s) + if v == n.id then {} else {VoteRequest(n, v)}
  {
  }

  lemma VoteRequestsToAll(n: Node, s: seq<Id>)
    requires Enumerates(s, n.prs.Keys)
    ensures VoteRequestsTo(n, s) == set id | id in n.prs && id != n.id ::
                                      MsgVote(n.id, id, n.term, |n.log|, TermAt(n.log, n.base, |n.log|))
  {
  }

  lemma NoMessages(n: Node)
    ensures AppendMessagesTo(n, []) == {} && HeartbeatsTo(n, []) == {} && VoteRequestsTo(n, []) == {}
  {
  }

  ghost predicate ResetIn(n: Node, prs: map<Id, Progress>, s: seq<Id>) {
    && prs.Keys == n.prs.Keys
    && forall v | v in prs :: prs[v] == if v in s then NewProgress(n, v) else n.prs[v]
  }

  lemma ResetInNone(n: Node)
    ensures ResetIn(n, n.prs, [])
  {
  }

  lemma ResetInOne(n: Node, prs: map<Id, Progress>, s: seq<Id>, v: Id)
    requires ResetIn(n, prs, s) && v in n.prs
    ensures ResetIn(n, prs[v := NewProgress(n, v)], s + [v])
  {
  }

  lemma ResetAll(n: Node, prs: map<Id, Progress>, s: seq<Id>, term: nat)
    requires ResetIn(n, prs, s) && Enumerates(s, n.prs.Keys)
    ensures Reset(n, term).prs == prs
  {
  }

  lemma ResetScalars(n: Node, term: nat)
    ensures Reset(n, term) ==
            n.(term := term, vote := if n.term != term then NONE else n.vote, lead := NONE, votes := map[], prs := Reset(n, term).prs)
  {
  }

  ghost function ActiveIn(n: Node, s: seq<Id>): set<Id> {
    set v | v in s && v in n.prs && (v == n.id || n.prs[v].recentActive)
  }

  lemma ActiveInOne(n: Node, s: seq<Id>, v: Id)
    requires v in n.prs && v !in s
    ensures v !in ActiveIn(n, s)
    ensures ActiveIn(n, s + [v]) == ActiveIn(n, s) + if v == n.id || n.prs[v].recentActive then {v} else {}
  {
  }

  function Inactive(n: Node): map<Id, Progress> {
    map v | v in n.prs :: if v == n.id then n.prs[v] else n.prs[v].(recentActive := false)
  }

  ghost predicate InactiveIn(n: Node, prs: map<Id, Progress>, s: seq<Id>) {
    && prs.Keys == n.prs.Keys
    && forall v | v in prs :: prs[v] == if v in s && v != n.id then n.prs[v].(recentActive := false) else n.prs[v]
  }

  lemma InactiveInOne(n: Node, prs: map<Id, Progress>, s: seq<Id>, v: Id)
    requires InactiveIn(n, prs, s) && v in n.prs && v !in s
    ensures v in prs && prs[v] == n.prs[v]
    ensures v == n.id ==> InactiveIn(n, prs, s + [v])
    ensures v != n.id ==> InactiveIn(n, prs[v := n.prs[v].(recentActive := false)], s + [v])
  {
  }

  lemma ActivityNone(n: Node)
    ensures InactiveIn(n, n.prs, []) && ActiveIn(n, []) == {}
  {
  }

  lemma ActivityAll(n: Node, prs: map<Id, Progress>, s: seq<Id>)
    requires Enumerates(s, n.prs.Keys) && InactiveIn(n, prs, s)
    ensures prs == Inactive(n) && ActiveIn(n, s) == QuorumActive(n) && |prs| == |n.prs|
  {
    assert |prs| == |prs.Keys| && |n.prs| == |n.prs.Keys|;
  }

  /** Stepping down resets all progress, so clearing activity first makes no difference. */
  lemma ResetForgetsActivity(n: Node)
    ensures BecomeFollower(n.(prs := Inactive(n)), n.term, NONE) == BecomeFollower(n, n.term, NONE)
  {
    var a := n.(prs := Inactive(n));
    assert Reset(a, n.term).prs == Reset(n, n.term).prs;
  }

  method CountGranted(votes: map<Id, bool>) returns (granted: nat)
    ensures granted == |Granted(votes)|
  {
    granted := 0;
    var s := Enumerate(votes.Keys);
    ghost var yes: set<Id> := {};
    for i := 0 to |s|
      invariant granted == |yes| && forall v :: v in yes <==> v in s[..i] && v in votes && votes[v]
    {
      if votes[s[i]] {
        granted := granted + 1;
        yes := yes + {s[i]};
      }
    }
    assert yes == Granted(votes);
  }

  class Raft {
    const id: Id
    const maxInflight: nat
    const maxMsgSize: nat
    var term: nat
    var vote: Id
    var log: Log
    var committed: nat
    var base: nat
    var snapped: nat
    var role: Role
    var lead: Id
    var votes: map<Id, bool>
    var prs: map<Id, Progress>
    var msgs: seq<Message>

    ghost function View(): Node
      reads this
    {
      Node(id, term, vote, log, committed, base, snapped, role, lead, votes, prs, maxInflight, maxMsgSize)
    }

    ghost function Sent(): set<Message>
      reads this
    {
      set m | m in msgs
    }

    ghost predicate Valid()
      reads this
    {
      WellFormed(View())
    }

    /** The outcome of a step: ok is false where the code panics. */
    twostate predicate Did(ok: bool, o: Outcome)
      reads this
    {
      ok == o.Done? && (ok ==> View() == o.node && Sent() == old(Sent()) + o.msgs)
    }

    method Send(m: Message)
      modifies this`msgs
      ensures Sent() == old(Sent()) + {m}
    {
      msgs := msgs + [m];
    }

    method Reset(newTerm: nat)
      modifies this`term, this`vote, this`lead, this`votes, this`prs
      ensures View() == RaftNode.Reset(old(View()), newTerm)
    {
      ghost var n := View();
      if term != newTerm {
        term := newTerm;
        vote := NONE;
      }
      lead := NONE;
      votes := map[];
      hide ResetIn, RaftNode.Reset;
      ghost var s := ResetProgress(n);
      ResetAll(n, prs, s, newTerm);
      ResetScalars(n, newTerm);
    }

    method ResetProgress(ghost n: Node) returns (ghost order: seq<Id>)
      requires n.id == id && n.log == log && n.prs == prs
      modifies this`prs
      ensures Enumerates(order, n.prs.Keys) && ResetIn(n, prs, order)
    {
      var s := Enumerate(prs.Keys);
      order := s;
      ResetInNone(n);
      hide ResetIn;
      for i := 0 to |s|
        invariant ResetIn(n, prs, s[..i])
      {
        ResetInOne(n, prs, s[..i], s[i]);
        assert s[..i+1] == s[..i] + [s[i]];
        prs := prs[s[i] := Progress(if s[i] == id then |log| else 0, |log| + 1, Probe, false, 0, false, [])];
      }
      assert s[..|s|] == s;
    }

    method BecomeFollower(newTerm: nat, newLead: Id)
      modifies this`term, this`vote, this`lead, this`votes, this`prs, this`role
      ensures View() == RaftNode.BecomeFollower(old(View()), newTerm, newLead)
    {
      Reset(newTerm);
      lead := newLead;
      role := Follower;
    }

    method BecomeCandidate()
      modifies this`term, this`vote, this`lead, this`votes, this`prs, this`role
      ensures View() == RaftNode.BecomeCandidate(old(View()))
    {
      Reset(term + 1);
      vote := id;
      role := Candidate;
    }

    method MaybeCommit() returns (changed: bool)
      requires Valid()
      modifies this`committed
      ensures View() == old(View()).(committed := CommitIndex(old(View())))
      ensures changed == (committed != old(committed))
      ensures forall k: nat | IsMajorityIndex(prs, k) ::
                committed == if k > old(committed) && TermAt(log, base, k) == term then k else old(committed)
    {
      var mci := QuorumMatched(prs);
      QuorumIndexUnique(prs, mci, QuorumIndex(prs));
      forall k: nat | IsMajorityIndex(prs, k) ensures k == mci {
        MajorityIsQuorum(prs, k);
        QuorumIndexUnique(prs, k, mci);
      }
      changed := mci > committed && TermAt(log, base, mci) == term;
      if changed { committed := mci; }
    }

    method AppendEntry(data: seq<string>)
      requires Valid()
      modifies this`log, this`prs, this`committed
      ensures View() == RaftNode.AppendEntry(old(View()), data)
    {
      ghost var n := View();
      var es: seq<Entry> := [];
      var li := |log|;
      for i := 0 to |data|
        invariant log == n.log && |es| == i
        invariant forall k | 0 <= k < i :: es[k] == Entry(li + 1 + k, term, data[k])
      {
        es := es + [Entry(li + 1 + i, term, data[i])];
      }
      assert es == NewEntries(n, data);
      log := log + es;
      prs := prs[id := MaybeUpdate(prs[id], |log|)];
      var _ := MaybeCommit();
    }

    method BecomeLeader()
      requires Valid()
      modifies this`term, this`vote, this`lead, this`votes, this`prs, this`role, this`log, this`committed
      ensures View() == RaftNode.BecomeLeader(old(View()))
    {
      Reset(term);
      lead := id;
      role := Leader;
      AppendEntry([""]);
    }

    method SendAppend(to: Id) returns (ok: bool)
      requires to in prs
      modifies this`prs, this`msgs
      ensures Did(ok, RaftNode.SendAppend(old(View()), to))
    {
      ghost var n := View();
      var pr := prs[to];
      if IsPaused(pr, maxInflight) {
        assert prs[to := pr] == prs;
        return true;
      }
      if pr.next <= |log| && pr.next <= base {
        if !pr.recentActive {
          assert prs[to := pr] == prs;
          return true;
        }
        if snapped == 0 { return false; }
        prs := prs[to := BecomeSnapshot(pr, snapped)];
        Send(MsgSnap(id, to, term, if snapped <= |log| then log[..snapped] else log));
        return true;
      }
      var ents := [];
      if pr.next <= |log| { ents := LimitSizeOf(log[pr.next-1..], maxMsgSize); }
      if |ents| != 0 {
        if pr.state == Replicate {
          var last := pr.next - 1 + |ents|;
          prs := prs[to := pr.(next := last + 1, inflights := pr.inflights + [last])];
        } else {
          prs := prs[to := pr.(paused := true)];
        }
      }
      Send(MsgApp(id, to, term, pr.next - 1, TermAt(log, base, pr.next - 1), ents, committed));
      assert prs == n.prs[to := ProgressAfterAppend(n, to)];
      return true;
    }

    method BcastAppend() returns (ok: bool)
      modifies this`prs, this`msgs
      ensures Did(ok, RaftNode.BcastAppend(old(View())))
    {
      hide RaftNode.BcastAppend, AppendMessagesTo, AppendedTo;
      ghost var n, sent := View(), Sent();
      AppendedToNone(n);
      var s := Enumerate(prs.Keys);
      assert Sent() == sent + AppendMessagesTo(n, []) by { NoMessages(n); }
      for i := 0 to |s|
        invariant View() == n.(prs := prs) && AppendedTo(n, prs, s[..i])
        invariant Sent() == sent + AppendMessagesTo(n, s[..i])
      {
        var sentTo := AppendNext(n, s[..i], s[i], sent);
        if !sentTo { return false; }
        assert s[..i+1] == s[..i] + [s[i]];
      }
      assert s[..|s|] == s;
      AppendedToAll(n, prs, s);
      ok := true;
    }

    /** The append to one more member; members up to here are those in done. */
    method AppendNext(ghost n: Node, ghost done: seq<Id>, v: Id, ghost sent: set<Message>) returns (ok: bool)
      requires View() == n.(prs := prs) && AppendedTo(n, prs, done) && v in n.prs && v !in done
      requires Sent() == sent + AppendMessagesTo(n, done)
      modifies this`prs, this`msgs
      ensures !ok ==> RaftNode.BcastAppend(n) == Panic
      ensures ok ==> View() == n.(prs := prs) && AppendedTo(n, prs, done + [v]) && Sent() == sent + AppendMessagesTo(n, done + [v])
    {
      hide RaftNode.BcastAppend, RaftNode.AppendMessages, ProgressAfterAppend, LacksSnapshot, AppendMessagesTo, AppendedTo;
      AppendMessagesToOne(n, done, v);
      ok := true;
      if v != id {
        AppendedToOne(n, prs, done, v);
        ok := SendAppend(v);
        if !ok { BcastLacks(n, v); }
      } else {
        AppendedToSelf(n, prs, done);
      }
    }

    method SendHeartbeat(to: Id)
      requires to in prs
      modifies this`msgs, this`prs
      ensures Sent() == old(Sent()) + {HeartbeatMessage(old(View()), to)}
      ensures View() == old(View()).(prs := old(prs)[to := old(prs)[to].(paused := false)])
    {
      Send(MsgHeartbeat(id, to, term, Min(prs[to].matched, committed)));
      prs := prs[to := prs[to].(paused := false)];
    }

    method BcastHeartbeat()
      modifies this`prs, this`msgs
      ensures Did(true, RaftNode.BcastHeartbeat(old(View())))
    {
      hide RaftNode.BcastHeartbeat, HeartbeatsTo, ResumedIn;
      ghost var n, sent := View(), Sent();
      ResumedInNone(n);
      var s := Enumerate(prs.Keys);
      assert Sent() == sent + HeartbeatsTo(n, []) by { NoMessages(n); }
      for i := 0 to |s|
        invariant View() == n.(prs := prs) && ResumedIn(n, prs, s[..i])
        invariant Sent() == sent + HeartbeatsTo(n, s[..i])
      {
        HeartbeatNext(n, s[..i], s[i], sent);
        assert s[..i+1] == s[..i] + [s[i]];
      }
      assert s[..|s|] == s;
      ResumedAll(n, prs, s);
    }

    /** The heartbeat of one more member; members up to here are those in done. */
    method HeartbeatNext(ghost n: Node, ghost done: seq<Id>, v: Id, ghost sent: set<Message>)
      requires View() == n.(prs := prs) && ResumedIn(n, prs, done) && v in n.prs && v !in done
      requires Sent() == sent + HeartbeatsTo(n, done)
      modifies this`prs, this`msgs
      ensures View() == n.(prs := prs) && ResumedIn(n, prs, done + [v]) && Sent() == sent + HeartbeatsTo(n, done + [v])
    {
      hide HeartbeatsTo, ResumedIn;
      HeartbeatsToOne(n, done, v);
      ResumedInOne(n, prs, done, v);
      if v != id { SendHeartbeat(v); }
    }

    /** Records a vote once per voter and counts the votes granted. */
    method Poll(from: Id, v: bool) returns (granted: nat)
      modifies this`votes
      ensures votes == RaftNode.Poll(old(votes), from, v) && granted == |Granted(votes)|
    {
      if from !in votes { votes := votes[from := v]; }
      granted := CountGranted(votes);
    }

    method RequestVotes()
      modifies this`msgs
      ensures Sent() == old(Sent()) + set v | v in prs && v != id ::
                                        MsgVote(id, v, term, |log|, TermAt(log, base, |log|))
    {
      ghost var p, sent := View(), Sent();
      hide VoteRequestsTo;
      var s := Enumerate(prs.Keys);
      assert Sent() == sent + VoteRequestsTo(p, []) by { NoMessages(p); }
      for i := 0 to |s|
        invariant View() == p && Sent() == sent + VoteRequestsTo(p, s[..i])
      {
        var v := s[i];
        assert s[..i+1] == s[..i] + [v];
        VoteRequestsToOne(p, s[..i], v);
        if v != id { Send(MsgVote(id, v, term, |log|, TermAt(log, base, |log|))); }
      }
      assert s[..|s|] == s;
      VoteRequestsToAll(p, s);
    }

    method Campaign()
      requires Valid()
      modifies this
      ensures Did(true, StartCampaign(old(View())))
    {
      BecomeCandidate();
      var gr := Poll(id, true);
      if QuorumSize(|prs|) == gr {
        BecomeLeader();
      } else {
        RequestVotes();
      }
    }

    // ----- Message handlers -----

    method HandleAppendEntries(m: Message) returns (ok: bool)
      requires m.MsgApp?
      modifies this`log, this`committed, this`msgs
      ensures Did(ok, RaftNode.HandleAppendEntries(old(View()), m))
    {
      hide MaybeAppend;
      if m.index < committed {
        Send(MsgAppResp(id, m.from, term, committed, false, 0));
        return true;
      }
      var r := MaybeAppendTo(m);
      match r {
        case Accepted(_, _, lastNew) => Send(MsgAppResp(id, m.from, term, lastNew, false, 0));
        case Refused => Send(MsgAppResp(id, m.from, term, m.index, true, |log|));
        case AppendPanic => return false;
      }
      return true;
    }

    method MaybeAppendTo(m: Message) returns (r: AppendResult)
      requires m.MsgApp?
      modifies this`log, this`committed
      ensures r == MaybeAppend(old(log), base, old(committed), m.index, m.logTerm, m.commit, m.entries)
      ensures match r
              case Accepted(l, c, _) => log == l && committed == c
              case Refused => log == old(log) && committed == old(committed)
              case AppendPanic => true
    {
      hide FindConflict, Append, MatchTerm, CommitTo;
      if !MatchTerm(log, base, m.index, m.logTerm) { return Refused; }
      var lastNew := m.index + |m.entries|;
      var ci := FindConflictIn(log, base, m.entries);
      if ci != 0 {
        if ci <= committed || ci < m.index + 1 || ci - (m.index + 1) > |m.entries| { return AppendPanic; }
        var appended := Append(log, committed, m.entries[ci - (m.index + 1)..]);
        if appended.None? { return AppendPanic; }
        log := appended.value;
      }
      var c := CommitTo(log, committed, Min(m.commit, lastNew));
      if c.None? { return AppendPanic; }
      committed := c.value;
      return Accepted(log, committed, lastNew);
    }

    method HandleHeartbeat(m: Message) returns (ok: bool)
      requires m.MsgHeartbeat?
      modifies this`committed, this`msgs
      ensures Did(ok, RaftNode.HandleHeartbeat(old(View()), m))
    {
      var c := CommitTo(log, committed, m.commit);
      if c.None? { return false; }
      committed := c.value;
      Send(MsgHeartbeatResp(id, m.from, term));
      return true;
    }

    method Restore(snapshot: Log)
      modifies this`log, this`committed, this`base, this`snapped, this`prs
      ensures View() == Restored(old(View()), snapshot)
    {
      ghost var n := View();
      log := snapshot;
      committed := |snapshot|;
      base := |snapshot|;
      snapped := |snapshot|;
      prs := map v | v in prs :: Progress(if v == id then |snapshot| else 0, |snapshot| + 1, Probe, false, 0, false, []);
      assert prs == Restored(n, snapshot).prs;
    }

    method HandleSnapshot(m: Message) returns (ok: bool)
      requires m.MsgSnap?
      modifies this`log, this`committed, this`base, this`snapped, this`prs, this`msgs
      ensures Did(ok, RaftNode.HandleSnapshot(old(View()), m))
    {
      var sindex, sterm := |m.snapshot|, TermAt(m.snapshot, 0, |m.snapshot|);
      if sindex <= committed {
        Send(MsgAppResp(id, m.from, term, committed, false, 0));
        return true;
      }
      if MatchTerm(log, base, sindex, sterm) {
        var c := CommitTo(log, committed, sindex);
        if c.None? { return false; }
        committed := c.value;
        Send(MsgAppResp(id, m.from, term, committed, false, 0));
        return true;
      }
      Restore(m.snapshot);
      Send(MsgAppResp(id, m.from, term, sindex, false, 0));
      return true;
    }

    method StepAppendResp(m: Message) returns (ok: bool)
      requires Valid() && m.MsgAppResp? && m.from in prs
      modifies this`prs, this`committed, this`msgs
      ensures Did(ok, if m.reject then StepAppendRejected(old(View()), m) else StepAppendAcked(old(View()), m))
    {
      hide RaftNode.BcastAppend, RaftNode.SendAppend, CommitIndex;
      var pr := prs[m.from].(recentActive := true);
      if m.reject {
        var d := MaybeDecrTo(pr, m.index, m.rejectHint);
        if d.None? {
          prs := prs[m.from := pr];
          return true;
        }
        prs := prs[m.from := if d.value.state == Replicate then BecomeProbe(d.value) else d.value];
        ok := SendAppend(m.from);
        return;
      }
      if pr.matched >= m.index {
        prs := prs[m.from := MaybeUpdate(pr, m.index)];
        return true;
      }
      var wasPaused := IsPaused(pr, maxInflight);
      prs := prs[m.from := ProgressAfterAck(pr, m.index)];
      var changed := MaybeCommit();
      ok := true;
      if changed {
        ok := BcastAppend();
      } else if wasPaused {
        ok := SendAppend(m.from);
      }
    }

    method StepHeartbeatResp(m: Message) returns (ok: bool)
      requires Valid() && m.MsgHeartbeatResp? && m.from in prs
      modifies this`prs, this`msgs
      ensures Did(ok, RaftNode.StepHeartbeatResp(old(View()), m))
    {
      hide RaftNode.SendAppend;
      var pr := prs[m.from].(recentActive := true);
      if pr.state == Replicate && |pr.inflights| == maxInflight {
        pr := pr.(inflights := FreeTo(pr.inflights, pr.inflights[0]));
      }
      prs := prs[m.from := pr];
      ok := true;
      if pr.matched < |log| { ok := SendAppend(m.from); }
    }

    /** Counts the recently active members and forgets their activity. */
    method CheckQuorumActive() returns (active: bool)
      modifies this`prs
      ensures active == (|QuorumActive(old(View()))| >= Quorum(old(View())))
      ensures View() == old(View()).(prs := Inactive(old(View())))
    {
      ghost var n := View();
      ActivityNone(n);
      hide InactiveIn, ActiveIn, Inactive, QuorumActive;
      var act := 0;
      ghost var yes: set<Id> := {};
      var s := Enumerate(prs.Keys);
      for i := 0 to |s|
        invariant View() == n.(prs := prs) && InactiveIn(n, prs, s[..i])
        invariant act == |yes| && yes == ActiveIn(n, s[..i])
      {
        var v := s[i];
        assert s[..i+1] == s[..i] + [v];
        InactiveInOne(n, prs, s[..i], v);
        ActiveInOne(n, s[..i], v);
        if v == id || prs[v].recentActive {
          act := act + 1;
          yes := yes + {v};
        }
        if v != id { prs := prs[v := prs[v].(recentActive := false)]; }
      }
      assert s[..|s|] == s;
      ActivityAll(n, prs, s);
      active := act >= QuorumSize(|prs|);
    }

    // ----- Step -----

    method StepLeader(m: Message) returns (ok: bool)
      requires Valid()
      modifies this
      ensures Did(ok, RaftNode.StepLeader(old(View()), m))
    {
      hide RaftNode.BcastAppend, RaftNode.BcastHeartbeat, RaftNode.AppendEntry, RaftNode.StepAppendAcked,
           RaftNode.StepAppendRejected, RaftNode.StepHeartbeatResp, QuorumActive, CommitIndex;
      ok := true;
      match m
      case MsgBeat => BcastHeartbeat();
      case MsgCheckQuorum =>
        ghost var n := View();
        var active := CheckQuorumActive();
        if !active {
          BecomeFollower(term, NONE);
          ResetForgetsActivity(n);
        }
      case MsgProp(_, _, proposals) =>
        if |proposals| == 0 { return false; }
        AppendEntry(proposals);
        ok := BcastAppend();
      case MsgVote(from, _, _, _, _) => Send(MsgVoteResp(id, from, term, true));
      case MsgAppResp(from, _, _, _, _, _) =>
        if from in prs { ok := StepAppendResp(m); }
      case MsgHeartbeatResp(from, _, _) =>
        if from in prs { ok := StepHeartbeatResp(m); }
      case MsgSnapStatus(from, reject) =>
        if from in prs && prs[from].state == Snapshotting {
          var pr := if reject then prs[from].(pendingSnapshot := 0) else prs[from];
          prs := prs[from := BecomeProbe(pr).(paused := true)];
        }
      case MsgUnreachable(from) =>
        if from in prs && prs[from].state == Replicate { prs := prs[from := BecomeProbe(prs[from])]; }
      case _ =>
    }

    method StepCandidate(m: Message) returns (ok: bool)
      requires Valid()
      modifies this
      ensures Did(ok, RaftNode.StepCandidate(old(View()), m))
    {
      hide RaftNode.BcastAppend, RaftNode.BecomeLeader, RaftNode.HandleAppendEntries, RaftNode.HandleHeartbeat,
           RaftNode.HandleSnapshot, RaftNode.BecomeFollower, Granted;
      ok := true;
      match m
      case MsgApp(from, _, _, _, _, _, _) =>
        BecomeFollower(term, from);
        ok := HandleAppendEntries(m);
      case MsgHeartbeat(from, _, _, _) =>
        BecomeFollower(term, from);
        ok := HandleHeartbeat(m);
      case MsgSnap(from, _, _, _) =>
        BecomeFollower(term, from);
        ok := HandleSnapshot(m);
      case MsgVote(from, _, _, _, _) => Send(MsgVoteResp(id, from, term, true));
      case MsgVoteResp(_, _, _, _) => ok := StepVoteResp(m);
      case _ =>
    }

    method StepVoteResp(m: Message) returns (ok: bool)
      requires Valid() && m.MsgVoteResp?
      modifies this
      ensures Did(ok, RaftNode.StepCandidate(old(View()), m))
    {
      hide RaftNode.BcastAppend, RaftNode.BecomeLeader, RaftNode.BecomeFollower, Granted;
      ok := true;
      var gr := Poll(m.from, !m.reject);
      if QuorumSize(|prs|) == gr {
        BecomeLeader();
        ok := BcastAppend();
      } else if QuorumSize(|prs|) == |votes| - gr {
        BecomeFollower(term, NONE);
      }
    }

    method StepFollower(m: Message) returns (ok: bool)
      modifies this
      ensures Did(ok, RaftNode.StepFollower(old(View()), m))
    {
      hide RaftNode.HandleAppendEntries, RaftNode.HandleHeartbeat, RaftNode.HandleSnapshot;
      ok := true;
      match m
      case MsgProp(_, _, proposals) =>
        if lead != NONE { Send(MsgProp(id, lead, proposals)); }
      case MsgApp(from, _, _, _, _, _, _) =>
        lead := from;
        ok := HandleAppendEntries(m);
      case MsgHeartbeat(from, _, _, _) =>
        lead := from;
        ok := HandleHeartbeat(m);
      case MsgSnap(_, _, _, _) =>
        ok := HandleSnapshot(m);
      case MsgVote(from, _, _, index, logTerm) =>
        if (vote == NONE || vote == from) && IsUpToDate(log, base, index, logTerm) {
          vote := from;
          Send(MsgVoteResp(id, from, term, false));
        } else {
          Send(MsgVoteResp(id, from, term, true));
        }
      case _ =>
    }

    /** Handling one message does exactly what the step function says; false where the code panics. */
    method Step(m: Message) returns (ok: bool)
      requires Valid()
      modifies this
      ensures Did(ok, RaftNode.Step(old(View()), m))
    {
      hide RaftNode.StepLeader, RaftNode.StepCandidate, RaftNode.StepFollower, StartCampaign, RaftNode.BecomeFollower;
      ok := true;
      if m.MsgHup? {
        if role != Leader { Campaign(); }
        return;
      }
      var mterm := MessageTerm(m);
      if mterm > term {
        BecomeFollower(mterm, if m.MsgVote? then NONE else m.from);
      } else if mterm != 0 && mterm < term {
        return;
      }
      match role
      case Leader => ok := StepLeader(m);
      case Candidate => ok := StepCandidate(m);
      case Follower => ok := StepFollower(m);
    }
  }
}
