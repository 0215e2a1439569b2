/**
 * The replicated-log protocol that the node code carries out, with the history
 * its safety argument needs: who voted for whom, each candidate's log, the log
 * each leader has built and how far every member has acknowledged it.
 *
 * Every node step is a composition of the seven actions below.
 */
module RaftProtocol {
  import opened RaftTypes

  datatype Proto = Proto(
    members: set<Id>,
    term: map<Id, nat>,              // current term of each member
    log: map<Id, Log>,               // current log of each member
    commit: map<Id, nat>,            // current commit index of each member
    vote: map<(nat, Id), Id>,        // (term, voter) -> candidate
    clog: map<(nat, Id), Log>,       // (term, candidate) -> its log when it campaigned
    leader: map<nat, Id>,            // term -> elected leader
    llog: map<nat, Log>,             // term -> log of that term's leader so far
    ack: map<(nat, Id), nat>)        // (term, member) -> prefix of llog[term] it holds

  // ----- Total accessors -----

  function TermOf(m: map<Id, nat>, v: Id): nat { if v in m then m[v] else 0 }

  function LogOf(m: map<Id, Log>, v: Id): Log { if v in m then m[v] else [] }

  function CommitOf(m: map<Id, nat>, v: Id): nat { if v in m then m[v] else 0 }

  function VoteOf(m: map<(nat, Id), Id>, t: nat, v: Id): Id { if (t, v) in m then m[(t, v)] else NONE }

  function CLog(m: map<(nat, Id), Log>, t: nat, c: Id): Log { if (t, c) in m then m[(t, c)] else [] }

  function LeaderOf(m: map<nat, Id>, t: nat): Id { if t in m then m[t] else NONE }

  function LLog(m: map<nat, Log>, t: nat): Log { if t in m then m[t] else [] }

  function AckOf(m: map<(nat, Id), nat>, t: nat, v: Id): nat { if (t, v) in m then m[(t, v)] else 0 }

  function Voters(p: Proto, t: nat, c: Id): set<Id> {
    set v | v in p.members && VoteOf(p.vote, t, v) == c
  }

  function Ackers(p: Proto, t: nat, i: nat): set<Id> {
    set v | v in p.members && AckOf(p.ack, t, v) >= i
  }

  // ----- What the invariant says -----

  /** a and b have the same first i entries. */
  ghost predicate Agree(a: Log, b: Log, i: nat) {
    i <= |a| && i <= |b| && forall k | 0 <= k < i :: a[k] == b[k]
  }

  ghost predicate MatchedAt(llog: map<nat, Log>, l: Log, k: nat) {
    k < |l| ==> l[k].term in llog && Agree(l, LLog(llog, l[k].term), k + 1)
  }

  /** Every entry is the one its term's leader put at that position, with the same past. */
  ghost predicate Matches(llog: map<nat, Log>, l: Log) {
    forall k: nat :: MatchedAt(llog, l, k)
  }

  ghost predicate TermsUpTo(l: Log, t: int) {
    forall k | 0 <= k < |l| :: l[k].term <= t
  }

  ghost predicate Indexed(l: Log) {
    forall k | 0 <= k < |l| :: l[k].index == k + 1 && l[k].term >= 1
  }

  ghost predicate IsCandidate(vote: map<(nat, Id), Id>, t: nat, c: Id) {
    c != NONE && VoteOf(vote, t, c) == c
  }

  ghost predicate Shape(p: Proto) {
    && NONE !in p.members
    && (forall t: nat, v: Id | VoteOf(p.vote, t, v) != NONE ::
          v in p.members && t <= TermOf(p.term, v) && IsCandidate(p.vote, t, VoteOf(p.vote, t, v)))
    && (forall t: nat, c: Id | IsCandidate(p.vote, t, c) :: t > 1 && TermsUpTo(CLog(p.clog, t, c), t - 1))
    && (forall t: nat, v: Id | AckOf(p.ack, t, v) > 0 ::
          v in p.members && t <= TermOf(p.term, v) && AckOf(p.ack, t, v) <= |LLog(p.llog, t)|)
    && (forall t | t in p.llog :: t >= 1 && TermsUpTo(LLog(p.llog, t), t) && Indexed(LLog(p.llog, t)))
    && (forall v | v in p.members :: TermsUpTo(LogOf(p.log, v), TermOf(p.term, v)))
  }

  ghost predicate ElectedAt(p: Proto, t: nat) {
    && LeaderOf(p.leader, t) in p.members && IsCandidate(p.vote, t, LeaderOf(p.leader, t))
    && Agree(CLog(p.clog, t, LeaderOf(p.leader, t)), LLog(p.llog, t), |CLog(p.clog, t, LeaderOf(p.leader, t))|)
    && IsQuorum(p.members, Voters(p, t, LeaderOf(p.leader, t)))
  }

  ghost predicate Elected(p: Proto) {
    && (forall t | t in p.llog && t > 1 :: ElectedAt(p, t))
    && (forall t: nat | LeaderOf(p.leader, t) != NONE :: t in p.llog && t > 1)
  }

  ghost predicate LogsMatch(p: Proto) {
    && (forall v: Id :: Matches(p.llog, LogOf(p.log, v)))
    && (forall t: nat :: Matches(p.llog, LLog(p.llog, t)))
    && (forall t: nat, c: Id :: Matches(p.llog, CLog(p.clog, t, c)))
  }

  /** Some leader after term t, up to term u, lacks the first i entries of leader t's log. */
  ghost predicate Lost(llog: map<nat, Log>, t: nat, i: nat, u: nat) {
    exists s | t < s <= u && s in llog :: !Agree(LLog(llog, t), LLog(llog, s), i)
  }

  /** A log of term u holds the first i entries of leader t's log, unless they were lost. */
  ghost predicate Held(llog: map<nat, Log>, l: Log, u: nat, t: nat, i: nat) {
    Agree(LLog(llog, t), l, i) || Lost(llog, t, i, u)
  }

  /** What a member acknowledged it still holds, unless a later leader lacks it. */
  ghost predicate AcksKept(p: Proto) {
    forall t: nat, v: Id, i: nat | i <= AckOf(p.ack, t, v) ::
      Held(p.llog, LogOf(p.log, v), TermOf(p.term, v), t, i)
  }

  /** Index i of leader t's log is an entry of term t. */
  ghost predicate OwnEntry(llog: map<nat, Log>, t: nat, i: nat) {
    0 < i <= |LLog(llog, t)| && LLog(llog, t)[i-1].term == t
  }

  /** A vote goes to a candidate whose log holds whatever the voter acknowledged. */
  ghost predicate VotesCarry(p: Proto) {
    forall u: nat, v: Id, t: nat, i: nat | VoteOf(p.vote, u, v) != NONE && t < u && i <= AckOf(p.ack, t, v) && OwnEntry(p.llog, t, i) ::
      Held(p.llog, CLog(p.clog, u, VoteOf(p.vote, u, v)), u, t, i)
  }

  /** Members that have acknowledged index i in term t, or still could. */
  ghost function CouldAck(p: Proto, t: nat, i: nat): set<Id> {
    set v | v in p.members && (TermOf(p.term, v) <= t || AckOf(p.ack, t, v) >= i)
  }

  ghost predicate Choosable(p: Proto, t: nat, i: nat) {
    OwnEntry(p.llog, t, i) && IsQuorum(p.members, CouldAck(p, t, i))
  }

  /** Leader completeness, for everything that is or may still be chosen. */
  ghost predicate Complete(p: Proto) {
    forall t: nat, i: nat, u | Choosable(p, t, i) && t < u && u in p.llog :: Agree(LLog(p.llog, t), LLog(p.llog, u), i)
  }

  /** The commit rule: an entry of the leader's own term held by a quorum. */
  ghost predicate Chosen(p: Proto, t: nat, i: nat) {
    OwnEntry(p.llog, t, i) && IsQuorum(p.members, Ackers(p, t, i))
  }

  /** The first k entries of l are a prefix of a chosen log of term at most u. */
  ghost predicate CommittedPrefix(p: Proto, l: Log, k: nat, u: nat) {
    k == 0 || exists t: nat, i: nat | Chosen(p, t, i) && t <= u && k <= i :: Agree(l, LLog(p.llog, t), k)
  }

  ghost predicate CommitsChosen(p: Proto) {
    forall v | v in p.members :: CommittedPrefix(p, LogOf(p.log, v), CommitOf(p.commit, v), TermOf(p.term, v))
  }

  ghost predicate Inv(p: Proto) {
    Shape(p) && Elected(p) && LogsMatch(p) && AcksKept(p) && VotesCarry(p) && Complete(p) && CommitsChosen(p)
  }

  // ----- Actions -----

  ghost predicate BumpTerm(p: Proto, q: Proto, v: Id, t: nat) {
    && v in p.members && t > TermOf(p.term, v)
    && q == p.(term := p.term[v := t])
  }

  ghost predicate Campaign(p: Proto, q: Proto, c: Id) {
    && c in p.members && TermOf(p.term, c) >= 1
    && var t := TermOf(p.term, c) + 1;
    && q == p.(term := p.term[c := t], vote := p.vote[(t, c) := c], clog := p.clog[(t, c) := LogOf(p.log, c)])
  }

  function LastTerm(l: Log): nat { if l == [] then 0 else l[|l|-1].term }

  /** A log ending at the given index and term is at least as up to date as the voter's. */
  predicate UpToDate(voter: Log, lastIndex: nat, lastTerm: nat) {
    lastTerm > LastTerm(voter) || (lastTerm == LastTerm(voter) && lastIndex >= |voter|)
  }

  ghost predicate CastVote(p: Proto, q: Proto, v: Id, c: Id) {
    && v in p.members
    && var t := TermOf(p.term, v);
    && VoteOf(p.vote, t, v) == NONE && IsCandidate(p.vote, t, c)
    && UpToDate(LogOf(p.log, v), |CLog(p.clog, t, c)|, LastTerm(CLog(p.clog, t, c)))
    && q == p.(vote := p.vote[(t, v) := c])
  }

  ghost predicate Elect(p: Proto, q: Proto, c: Id) {
    && c in p.members
    && var t := TermOf(p.term, c);
    && t !in p.llog && IsCandidate(p.vote, t, c) && LogOf(p.log, c) == CLog(p.clog, t, c)
    && IsQuorum(p.members, Voters(p, t, c))
    && q == p.(leader := p.leader[t := c], llog := p.llog[t := LogOf(p.log, c)], ack := p.ack[(t, c) := |LogOf(p.log, c)|])
  }

  ghost predicate LeaderAppend(p: Proto, q: Proto, c: Id, es: Log) {
    && c in p.members
    && var t := TermOf(p.term, c);
    && LeaderOf(p.leader, t) == c && LLog(p.llog, t) == LogOf(p.log, c)
    && (forall k | 0 <= k < |es| :: es[k].term == t && es[k].index == |LogOf(p.log, c)| + k + 1)
    && var l := LogOf(p.log, c) + es;
    && q == p.(log := p.log[c := l], llog := p.llog[t := l], ack := p.ack[(t, c) := |l|])
  }

  /** What accepting the first k entries of the leader's log makes of a log. */
  ghost function Merged(l: Log, leaderLog: Log, k: nat): Log
    requires k <= |leaderLog|
  {
    if Agree(l, leaderLog, k) then l else leaderLog[..k]
  }

  ghost predicate Accept(p: Proto, q: Proto, v: Id, k: nat) {
    && v in p.members
    && var t := TermOf(p.term, v);
    && t in p.llog && k <= |LLog(p.llog, t)|
    && q == p.(log := p.log[v := Merged(LogOf(p.log, v), LLog(p.llog, t), k)], ack := p.ack[(t, v) := Max(AckOf(p.ack, t, v), k)])
  }

  ghost predicate SetCommit(p: Proto, q: Proto, v: Id, k: nat) {
    && v in p.members
    && CommittedPrefix(p, LogOf(p.log, v), k, TermOf(p.term, v))
    && q == p.(commit := p.commit[v := k])
  }

  ghost predicate GrowsAt(a: map<nat, Log>, b: map<nat, Log>, t: nat) {
    t in a ==>
      && t in b
      && Agree(LLog(a, t), LLog(b, t), |LLog(a, t)|)
      && forall k | |LLog(a, t)| <= k < |LLog(b, t)| :: LLog(b, t)[k].term == t
  }

  /** Leaders only append, and only entries of their own term. */
  ghost predicate LogsGrow(a: map<nat, Log>, b: map<nat, Log>) {
    forall t: nat :: GrowsAt(a, b, t)
  }

  /** Terms and acknowledgements only grow, and nobody acknowledges a term it has left. */
  ghost predicate AcksGrow(p: Proto, q: Proto) {
    && p.members == q.members
    && (forall v: Id :: TermOf(p.term, v) <= TermOf(q.term, v))
    && (forall t: nat, v: Id :: AckOf(p.ack, t, v) <= AckOf(q.ack, t, v))
    && (forall t: nat, v: Id | AckOf(p.ack, t, v) < AckOf(q.ack, t, v) :: TermOf(p.term, v) <= t)
  }

  ghost predicate VotesGrow(p: Proto, q: Proto) {
    && (forall t: nat, v: Id | VoteOf(p.vote, t, v) != NONE :: VoteOf(q.vote, t, v) == VoteOf(p.vote, t, v))
    && (forall t: nat, c: Id | IsCandidate(p.vote, t, c) :: CLog(q.clog, t, c) == CLog(p.clog, t, c))
    && (forall t: nat | LeaderOf(p.leader, t) != NONE :: LeaderOf(q.leader, t) == LeaderOf(p.leader, t))
  }

  /** The history only grows. */
  ghost predicate Extends(p: Proto, q: Proto) {
    LogsGrow(p.llog, q.llog) && AcksGrow(p, q) && VotesGrow(p, q)
  }
}
