/**
 * One Raft node as a value, and the functions that say what each step of the
 * node does. Messages are returned as a set: the transport neither orders nor
 * counts them. Go's panics are the outcome Panic.
 */
module RaftNode {
  import opened Options
  import opened RaftTypes

  // ----- The log -----

  /** The term at index i of a log compacted up to index base: 0 before base, at the dummy
      entry of index 0 and past the end. */
  function TermAt(log: Log, base: nat, i: nat): nat {
    if i < base || i == 0 || i > |log| then 0 else log[i-1].term
  }

  predicate MatchTerm(log: Log, base: nat, i: nat, term: nat) { TermAt(log, base, i) == term }

  /** A log that ends at (lasti, term) is at least as up to date as this one. */
  predicate IsUpToDate(log: Log, base: nat, lasti: nat, term: nat) {
    var last := TermAt(log, base, |log|);
    term > last || (term == last && lasti >= |log|)
  }

  /** The index of the first given entry that is new or conflicts; 0 if there is none. */
  function FindConflict(log: Log, base: nat, ents: seq<Entry>): nat {
    if ents == [] then 0
    else if !MatchTerm(log, base, ents[0].index, ents[0].term) then ents[0].index
    else FindConflict(log, base, ents[1..])
  }

  /** Append entries at their own index, discarding what was there; None where the code panics. */
  function Append(log: Log, committed: nat, ents: seq<Entry>): Option<Log> {
    if ents == [] then Some(log)
    else if ents[0].index < 1 || ents[0].index - 1 < committed || ents[0].index - 1 > |log| then None
    else Some(log[..ents[0].index - 1] + ents)
  }

  /** The commit index never decreases; None where the code panics. */
  function CommitTo(log: Log, committed: nat, tocommit: nat): Option<nat> {
    if committed >= tocommit then Some(committed)
    else if |log| < tocommit then None
    else Some(tocommit)
  }

  datatype AppendResult =
    | Accepted(log: Log, committed: nat, lastNew: nat)
    | Refused
    | AppendPanic

  function AcceptAndCommit(log: Option<Log>, committed: nat, tocommit: nat, lastNew: nat): AppendResult {
    match log
    case None => AppendPanic
    case Some(l) =>
      match CommitTo(l, committed, Min(tocommit, lastNew))
      case None => AppendPanic
      case Some(c) => Accepted(l, c, lastNew)
  }

  function MaybeAppend(log: Log, base: nat, committed: nat, index: nat, logTerm: nat, tocommit: nat, ents: seq<Entry>): AppendResult {
    if !MatchTerm(log, base, index, logTerm) then Refused
    else
      var lastNew := index + |ents|;
      var ci := FindConflict(log, base, ents);
      if ci == 0 then AcceptAndCommit(Some(log), committed, tocommit, lastNew)
      else if ci <= committed || ci < index + 1 || ci - (index + 1) > |ents| then AppendPanic
      else AcceptAndCommit(Append(log, committed, ents[ci - (index + 1)..]), committed, tocommit, lastNew)
  }

  function EntrySize(e: Entry): nat { |e.data| }

  /** How many of the entries fit: the first always does. */
  function FitCount(ents: seq<Entry>, n: nat, size: nat, maxSize: nat): (r: nat)
    requires n <= |ents|
    ensures n <= r <= |ents|
    decreases |ents| - n
  {
    if n == |ents| || size + EntrySize(ents[n]) > maxSize then n
    else FitCount(ents, n + 1, size + EntrySize(ents[n]), maxSize)
  }

  function LimitSize(ents: seq<Entry>, maxSize: nat): (r: seq<Entry>)
    ensures r <= ents && (ents != [] ==> r != [])
  {
    if ents == [] then [] else ents[..FitCount(ents, 1, EntrySize(ents[0]), maxSize)]
  }

  function EntriesFrom(log: Log, next: nat, maxSize: nat): seq<Entry>
    requires next >= 1
  {
    if next > |log| then [] else LimitSize(log[next-1..], maxSize)
  }

  // ----- A leader's view of a follower -----

  datatype ProgressState = Probe | Replicate | Snapshotting

  type NextIndex = n: nat | 1 <= n witness 1

  /** inflights is the window of last indices of unacknowledged append messages. */
  datatype Progress = Progress(matched: nat, next: NextIndex, state: ProgressState, paused: bool,
                               pendingSnapshot: nat, recentActive: bool, inflights: seq<nat>)

  function ResetState(pr: Progress, s: ProgressState): Progress {
    pr.(paused := false, recentActive := false, pendingSnapshot := 0, state := s, inflights := [])
  }

  /** After a snapshot was sent, probing starts behind it. */
  function BecomeProbe(pr: Progress): Progress {
    ResetState(pr, Probe).(next := if pr.state == Snapshotting then Max(pr.matched + 1, pr.pendingSnapshot + 1)
                                   else pr.matched + 1)
  }

  function BecomeSnapshot(pr: Progress, i: nat): Progress {
    ResetState(pr, Snapshotting).(pendingSnapshot := i)
  }

  function BecomeReplicate(pr: Progress): Progress { ResetState(pr, Replicate).(next := pr.matched + 1) }

  function MaybeUpdate(pr: Progress, n: nat): Progress {
    var a := if pr.matched < n then pr.(matched := n, paused := false) else pr;
    if a.next < n + 1 then a.(next := n + 1) else a
  }

  /** None when the rejection comes from an out of order message. */
  function MaybeDecrTo(pr: Progress, rejected: nat, last: nat): Option<Progress> {
    if pr.state == Replicate then
      if rejected <= pr.matched then None else Some(pr.(next := pr.matched + 1))
    else if pr.next - 1 != rejected then None
    else
      var n := Min(rejected, last + 1);
      Some(pr.(next := if n < 1 then 1 else n, paused := false))
  }

  /** Drop the leading inflights that are at most the given index. */
  function FreeTo(w: seq<nat>, to: nat): seq<nat> {
    if w == [] || to < w[0] then w else FreeTo(w[1..], to)
  }

  predicate IsPaused(pr: Progress, maxInflight: nat) {
    match pr.state
    case Probe => pr.paused
    case Replicate => |pr.inflights| == maxInflight
    case Snapshotting => true
  }

  // ----- The node -----

  datatype Role = Follower | Candidate | Leader

  /** log is the whole log; entries up to base survive only in snapshots, the latest of which
      covers the first snapped entries. */
  datatype Node = Node(
    id: Id, term: nat, vote: Id,
    log: Log, committed: nat, base: nat, snapped: nat,
    role: Role, lead: Id,
    votes: map<Id, bool>, prs: map<Id, Progress>,
    maxInflight: nat, maxMsgSize: nat)

  datatype Outcome = Done(node: Node, msgs: set<Message>) | Panic

  predicate WellFormed(n: Node) { n.id in n.prs && n.maxInflight >= 1 }

  function Quorum(n: Node): nat { QuorumSize(|n.prs|) }

  function NewProgress(n: Node, id: Id): Progress {
    Progress(if id == n.id then |n.log| else 0, |n.log| + 1, Probe, false, 0, false, [])
  }

  function Reset(n: Node, term: nat): (r: Node)
    ensures r.prs.Keys == n.prs.Keys
  {
    n.(term := term, vote := if n.term != term then NONE else n.vote, lead := NONE, votes := map[],
       prs := map id | id in n.prs :: NewProgress(n, id))
  }

  function BecomeFollower(n: Node, term: nat, lead: Id): (r: Node)
    ensures r.prs.Keys == n.prs.Keys
  {
    Reset(n, term).(lead := lead, role := Follower)
  }

  function BecomeCandidate(n: Node): (r: Node)
    ensures r.prs.Keys == n.prs.Keys
  {
    Reset(n, n.term + 1).(vote := n.id, role := Candidate)
  }

  /** Members whose acknowledged index is at least i. */
  function MatchedSet(prs: map<Id, Progress>, i: nat): set<Id> {
    set id | id in prs && prs[id].matched >= i
  }

  /** i is the largest index that a quorum has acknowledged. */
  ghost predicate IsQuorumIndex(prs: map<Id, Progress>, i: nat) {
    && |MatchedSet(prs, i)| >= QuorumSize(|prs|)
    && forall j: nat | j > i :: |MatchedSet(prs, j)| < QuorumSize(|prs|)
  }

  lemma {:induction false} MatchedBound(prs: map<Id, Progress>, ids: set<Id>) returns (b: nat)
    requires ids <= prs.Keys
    ensures forall id | id in ids :: prs[id].matched <= b
    decreases ids
  {
    if ids == {} { return 0; }
    var x :| x in ids;
    var c := MatchedBound(prs, ids - {x});
    b := Max(prs[x].matched, c);
  }

  lemma {:induction false} QuorumIndexUpTo(prs: map<Id, Progress>, hi: nat) returns (i: nat)
    requires prs.Keys != {} && forall j: nat | j > hi :: |MatchedSet(prs, j)| < QuorumSize(|prs|)
    ensures IsQuorumIndex(prs, i)
  {
    assert MatchedSet(prs, 0) == prs.Keys;
    if hi == 0 || |MatchedSet(prs, hi)| >= QuorumSize(|prs|) { return hi; }
    i := QuorumIndexUpTo(prs, hi - 1);
  }

  lemma QuorumIndexExists(prs: map<Id, Progress>)
    requires prs.Keys != {}
    ensures exists i: nat :: IsQuorumIndex(prs, i)
  {
    var b := MatchedBound(prs, prs.Keys);
    forall j: nat | j > b ensures |MatchedSet(prs, j)| < QuorumSize(|prs|) {
      assert MatchedSet(prs, j) == {};
    }
    var i := QuorumIndexUpTo(prs, b);
  }

  /** There is one quorum index, so any way of computing it gives the same. */
  lemma QuorumIndexUnique(prs: map<Id, Progress>, i: nat, j: nat)
    requires IsQuorumIndex(prs, i) && IsQuorumIndex(prs, j)
    ensures i == j
  {
  }

  /** More than half of the members have acknowledged index i, and no larger one. */
  ghost predicate IsMajorityIndex(prs: map<Id, Progress>, i: nat) {
    && 2 * |set v | v in prs && prs[v].matched >= i| > |prs|
    && forall j: nat | j > i :: 2 * |MatchedSet(prs, j)| <= |prs|
  }

  lemma MajorityIsQuorum(prs: map<Id, Progress>, i: nat)
    ensures IsMajorityIndex(prs, i) <==> IsQuorumIndex(prs, i)
  {
    assert MatchedSet(prs, i) == set v | v in prs && prs[v].matched >= i;
  }

  ghost function QuorumIndex(prs: map<Id, Progress>): (i: nat)
    requires prs.Keys != {}
    ensures IsQuorumIndex(prs, i)
  {
    QuorumIndexExists(prs);
    var i: nat :| IsQuorumIndex(prs, i);
    i
  }

  /** Commit index after a commit attempt: only entries of the current term are counted. */
  ghost function CommitIndex(n: Node): nat
    requires n.id in n.prs
  {
    var mci := QuorumIndex(n.prs);
    if mci > n.committed && TermAt(n.log, n.base, mci) == n.term then mci else n.committed
  }

  function NewEntries(n: Node, data: seq<string>): seq<Entry> {
    seq(|data|, i requires 0 <= i < |data| => Entry(|n.log| + 1 + i, n.term, data[i]))
  }

  ghost function AppendEntry(n: Node, data: seq<string>): (r: Node)
    requires WellFormed(n)
    ensures r.prs.Keys == n.prs.Keys
  {
    var log := n.log + NewEntries(n, data);
    var a := n.(log := log, prs := n.prs[n.id := MaybeUpdate(n.prs[n.id], |log|)]);
    a.(committed := CommitIndex(a))
  }

  ghost function BecomeLeader(n: Node): (r: Node)
    requires WellFormed(n)
    ensures r.prs.Keys == n.prs.Keys
  {
    AppendEntry(Reset(n, n.term).(lead := n.id, role := Leader), [""])
  }

  // ----- Sending -----

  /** The entries the follower needs next have been compacted away. */
  predicate NeedsSnapshot(n: Node, to: Id)
    requires to in n.prs
  {
    n.prs[to].next <= |n.log| && n.prs[to].next <= n.base
  }

  function AppendMessage(n: Node, to: Id): Message
    requires to in n.prs
  {
    var next := n.prs[to].next;
    MsgApp(n.id, to, n.term, next - 1, TermAt(n.log, n.base, next - 1), EntriesFrom(n.log, next, n.maxMsgSize), n.committed)
  }

  function SnapMessage(n: Node, to: Id): Message {
    MsgSnap(n.id, to, n.term, if n.snapped <= |n.log| then n.log[..n.snapped] else n.log)
  }

  function AppendMessages(n: Node, to: Id): set<Message>
    requires to in n.prs
  {
    if IsPaused(n.prs[to], n.maxInflight) then {}
    else if !NeedsSnapshot(n, to) then {AppendMessage(n, to)}
    else if n.prs[to].recentActive then {SnapMessage(n, to)} else {}
  }

  function ProgressAfterAppend(n: Node, to: Id): Progress
    requires to in n.prs
  {
    var pr := n.prs[to];
    if IsPaused(pr, n.maxInflight) then pr
    else if NeedsSnapshot(n, to) then if pr.recentActive then BecomeSnapshot(pr, n.snapped) else pr
    else
      var ents := EntriesFrom(n.log, pr.next, n.maxMsgSize);
      if ents == [] then pr
      else match pr.state
        case Replicate =>
          var last := pr.next - 1 + |ents|;
          pr.(next := last + 1, inflights := pr.inflights + [last])
        case _ => pr.(paused := true)
  }

  /** The code panics when it needs a snapshot and there is none. */
  predicate LacksSnapshot(n: Node, to: Id)
    requires to in n.prs
  {
    !IsPaused(n.prs[to], n.maxInflight) && NeedsSnapshot(n, to) && n.prs[to].recentActive && n.snapped == 0
  }

  function SendAppend(n: Node, to: Id): Outcome
    requires to in n.prs
  {
    if LacksSnapshot(n, to) then Panic
    else Done(n.(prs := n.prs[to := ProgressAfterAppend(n, to)]), AppendMessages(n, to))
  }

  function BcastAppend(n: Node): Outcome {
    if exists id | id in n.prs && id != n.id :: LacksSnapshot(n, id) then Panic
    else Done(n.(prs := map id | id in n.prs :: if id == n.id then n.prs[id] else ProgressAfterAppend(n, id)),
              set id, m | id in n.prs && id != n.id && m in AppendMessages(n, id) :: m)
  }

  function HeartbeatMessage(n: Node, to: Id): Message
    requires to in n.prs
  {
    MsgHeartbeat(n.id, to, n.term, Min(n.prs[to].matched, n.committed))
  }

  function BcastHeartbeat(n: Node): Outcome {
    Done(n.(prs := map id | id in n.prs :: if id == n.id then n.prs[id] else n.prs[id].(paused := false)),
         set id | id in n.prs && id != n.id :: HeartbeatMessage(n, id))
  }

  // ----- Elections -----

  function Poll(votes: map<Id, bool>, id: Id, v: bool): map<Id, bool> {
    if id in votes then votes else votes[id := v]
  }

  function Granted(votes: map<Id, bool>): set<Id> { set id | id in votes && votes[id] }

  ghost function StartCampaign(n: Node): Outcome
    requires WellFormed(n)
  {
    var c := BecomeCandidate(n);
    var p := c.(votes := Poll(c.votes, c.id, true));
    if Quorum(p) == |Granted(p.votes)| then Done(BecomeLeader(p), {})
    else Done(p, set id | id in p.prs && id != p.id :: MsgVote(p.id, id, p.term, |p.log|, TermAt(p.log, p.base, |p.log|)))
  }

  // ----- Handlers -----

  function HandleAppendEntries(n: Node, m: Message): Outcome
    requires m.MsgApp?
  {
    if m.index < n.committed then
      Done(n, {MsgAppResp(n.id, m.from, n.term, n.committed, false, 0)})
    else
      match MaybeAppend(n.log, n.base, n.committed, m.index, m.logTerm, m.commit, m.entries)
      case Accepted(log, committed, last) =>
        Done(n.(log := log, committed := committed), {MsgAppResp(n.id, m.from, n.term, last, false, 0)})
      case Refused =>
        Done(n, {MsgAppResp(n.id, m.from, n.term, m.index, true, |n.log|)})
      case AppendPanic => Panic
  }

  function HandleHeartbeat(n: Node, m: Message): Outcome
    requires m.MsgHeartbeat?
  {
    match CommitTo(n.log, n.committed, m.commit)
    case None => Panic
    case Some(c) => Done(n.(committed := c), {MsgHeartbeatResp(n.id, m.from, n.term)})
  }

  /** A restored log consists of the snapshot alone; progress starts afresh. */
  function Restored(n: Node, snapshot: Log): Node {
    var r := n.(log := snapshot, committed := |snapshot|, base := |snapshot|, snapped := |snapshot|);
    r.(prs := map id | id in n.prs :: NewProgress(r, id))
  }

  function HandleSnapshot(n: Node, m: Message): Outcome
    requires m.MsgSnap?
  {
    var sindex, sterm := |m.snapshot|, TermAt(m.snapshot, 0, |m.snapshot|);
    if sindex <= n.committed then Done(n, {MsgAppResp(n.id, m.from, n.term, n.committed, false, 0)})
    else if MatchTerm(n.log, n.base, sindex, sterm) then
      match CommitTo(n.log, n.committed, sindex)
      case None => Panic
      case Some(c) => Done(n.(committed := c), {MsgAppResp(n.id, m.from, n.term, c, false, 0)})
    else Done(Restored(n, m.snapshot), {MsgAppResp(n.id, m.from, n.term, sindex, false, 0)})
  }

  function QuorumActive(n: Node): set<Id> {
    set id | id in n.prs && (id == n.id || n.prs[id].recentActive)
  }

  function SetProgress(n: Node, id: Id, pr: Progress): Node { n.(prs := n.prs[id := pr]) }

  function StepAppendRejected(n: Node, m: Message): Outcome
    requires m.MsgAppResp? && m.from in n.prs
  {
    var pr := n.prs[m.from].(recentActive := true);
    match MaybeDecrTo(pr, m.index, m.rejectHint)
    case None => Done(SetProgress(n, m.from, pr), {})
    case Some(d) => SendAppend(SetProgress(n, m.from, if d.state == Replicate then BecomeProbe(d) else d), m.from)
  }

  /** The progress of a follower that acknowledged index i, which is news. */
  function ProgressAfterAck(pr: Progress, i: nat): Progress {
    var u := MaybeUpdate(pr, i);
    match u.state
    case Probe => BecomeReplicate(u)
    case Snapshotting => if u.matched >= u.pendingSnapshot then BecomeProbe(u) else u
    case Replicate => u.(inflights := FreeTo(u.inflights, i))
  }

  ghost function StepAppendAcked(n: Node, m: Message): Outcome
    requires m.MsgAppResp? && m.from in n.prs && n.id in n.prs
  {
    var pr := n.prs[m.from].(recentActive := true);
    if pr.matched >= m.index then Done(SetProgress(n, m.from, MaybeUpdate(pr, m.index)), {})
    else
      var a := SetProgress(n, m.from, ProgressAfterAck(pr, m.index));
      var b := a.(committed := CommitIndex(a));
      if b.committed != a.committed then BcastAppend(b)
      else if IsPaused(pr, n.maxInflight) then SendAppend(b, m.from)
      else Done(b, {})
  }

  function StepHeartbeatResp(n: Node, m: Message): Outcome
    requires m.MsgHeartbeatResp? && m.from in n.prs && n.maxInflight >= 1
  {
    var pr := n.prs[m.from].(recentActive := true);
    var f := if pr.state == Replicate && |pr.inflights| == n.maxInflight
             then pr.(inflights := FreeTo(pr.inflights, pr.inflights[0])) else pr;
    var a := SetProgress(n, m.from, f);
    if f.matched < |n.log| then SendAppend(a, m.from) else Done(a, {})
  }

  ghost function StepLeader(n: Node, m: Message): Outcome
    requires WellFormed(n)
  {
    match m
    case MsgBeat => BcastHeartbeat(n)
    case MsgCheckQuorum =>
      if |QuorumActive(n)| >= Quorum(n)
      then Done(n.(prs := map id | id in n.prs ::
                            if id == n.id then n.prs[id] else n.prs[id].(recentActive := false)), {})
      else Done(BecomeFollower(n, n.term, NONE), {})
    case MsgProp(_, _, proposals) =>
      if proposals == [] then Panic else BcastAppend(AppendEntry(n, proposals))
    case MsgVote(from, _, _, _, _) => Done(n, {MsgVoteResp(n.id, from, n.term, true)})
    case MsgAppResp(from, _, _, _, reject, _) =>
      if from !in n.prs then Done(n, {})
      else if reject then StepAppendRejected(n, m) else StepAppendAcked(n, m)
    case MsgHeartbeatResp(from, _, _) =>
      if from !in n.prs then Done(n, {}) else StepHeartbeatResp(n, m)
    case MsgSnapStatus(from, reject) =>
      if from in n.prs && n.prs[from].state == Snapshotting
      then
        var pr := if reject then n.prs[from].(pendingSnapshot := 0) else n.prs[from];
        Done(SetProgress(n, from, BecomeProbe(pr).(paused := true)), {})
      else Done(n, {})
    case MsgUnreachable(from) =>
      if from in n.prs && n.prs[from].state == Replicate
      then Done(SetProgress(n, from, BecomeProbe(n.prs[from])), {}) else Done(n, {})
    case _ => Done(n, {})
  }

  ghost function StepCandidate(n: Node, m: Message): Outcome
    requires WellFormed(n)
  {
    match m
    case MsgApp(from, _, _, _, _, _, _) => HandleAppendEntries(BecomeFollower(n, n.term, from), m)
    case MsgHeartbeat(from, _, _, _) => HandleHeartbeat(BecomeFollower(n, n.term, from), m)
    case MsgSnap(from, _, _, _) => HandleSnapshot(BecomeFollower(n, n.term, from), m)
    case MsgVote(from, _, _, _, _) => Done(n, {MsgVoteResp(n.id, from, n.term, true)})
    case MsgVoteResp(from, _, _, reject) =>
      var p := n.(votes := Poll(n.votes, from, !reject));
      var gr := |Granted(p.votes)|;
      if Quorum(p) == gr then BcastAppend(BecomeLeader(p))
      else if Quorum(p) == |p.votes| - gr then Done(BecomeFollower(p, p.term, NONE), {})
      else Done(p, {})
    case _ => Done(n, {})
  }

  function StepFollower(n: Node, m: Message): Outcome {
    match m
    case MsgProp(_, _, proposals) =>
      if n.lead == NONE then Done(n, {}) else Done(n, {MsgProp(n.id, n.lead, proposals)})
    case MsgApp(from, _, _, _, _, _, _) => HandleAppendEntries(n.(lead := from), m)
    case MsgHeartbeat(from, _, _, _) => HandleHeartbeat(n.(lead := from), m)
    case MsgSnap(_, _, _, _) => HandleSnapshot(n, m)
    case MsgVote(from, _, _, index, logTerm) =>
      if (n.vote == NONE || n.vote == from) && IsUpToDate(n.log, n.base, index, logTerm)
      then Done(n.(vote := from), {MsgVoteResp(n.id, from, n.term, false)})
      else Done(n, {MsgVoteResp(n.id, from, n.term, true)})
    case _ => Done(n, {})
  }

  ghost function StepRole(n: Node, m: Message): Outcome
    requires WellFormed(n)
  {
    match n.role
    case Leader => StepLeader(n, m)
    case Candidate => StepCandidate(n, m)
    case Follower => StepFollower(n, m)
  }

  /** The node after seeing a message of a higher term. */
  function Adopt(n: Node, m: Message): (r: Node)
    ensures r.prs.Keys == n.prs.Keys && r.id == n.id && r.maxInflight == n.maxInflight
  {
    if MessageTerm(m) > n.term
    then BecomeFollower(n, MessageTerm(m), if m.MsgVote? then NONE else m.from) else n
  }

  /** What Step does with one message. */
  ghost function Step(n: Node, m: Message): Outcome
    requires WellFormed(n)
  {
    if m.MsgHup? then if n.role != Leader then StartCampaign(n) else Done(n, {})
    else if 0 < MessageTerm(m) < n.term then Done(n, {})
    else StepRole(Adopt(n, m), m)
  }

  /** A node restarted from its saved term, vote and log, with its storage filled from the latest
      snapshot, and a commit index saved at some earlier time: a change of the commit index alone
      need not reach the disk. */
  function Restart(n: Node, savedCommit: nat): Node {
    BecomeFollower(n.(committed := savedCommit, base := n.snapped), n.term, NONE)
  }

  /** The application took a snapshot at index s and discarded the entries up to index b. */
  function Compacted(n: Node, s: nat, b: nat): Node { n.(snapped := s, base := b) }
}
