/** Values shared by the Raft model: entries, logs, messages and quorums. */
module RaftTypes {

  type Id = nat

  /** The placeholder id used when there is no leader or no vote. */
  const NONE: Id := 0

  /** A log entry; index i of a log is stored at position i-1. */
  datatype Entry = Entry(index: nat, term: nat, data: string)

  type Log = seq<Entry>

  /** Network and local messages handled by Step. Local messages carry no term. A snapshot stands
      for the state reached by applying a log prefix, and is represented by that prefix. */
  datatype Message =
    | MsgHup
    | MsgBeat
    | MsgCheckQuorum
    | MsgUnreachable(from: Id)
    | MsgSnapStatus(from: Id, reject: bool)
    | MsgProp(from: Id, to: Id, proposals: seq<string>)
    | MsgVote(from: Id, to: Id, term: nat, index: nat, logTerm: nat)
    | MsgVoteResp(from: Id, to: Id, term: nat, reject: bool)
    | MsgApp(from: Id, to: Id, term: nat, index: nat, logTerm: nat, entries: seq<Entry>, commit: nat)
    | MsgAppResp(from: Id, to: Id, term: nat, index: nat, reject: bool, rejectHint: nat)
    | MsgSnap(from: Id, to: Id, term: nat, snapshot: Log)
    | MsgHeartbeat(from: Id, to: Id, term: nat, commit: nat)
    | MsgHeartbeatResp(from: Id, to: Id, term: nat)

  function MessageTerm(m: Message): nat {
    match m
    case MsgHup | MsgBeat | MsgCheckQuorum | MsgUnreachable(_) | MsgSnapStatus(_, _) | MsgProp(_, _, _) => 0
    case _ => m.term
  }

  function Min(a: nat, b: nat): nat { if a > b then b else a }

  function Max(a: nat, b: nat): nat { if a > b then a else b }

  /** The size of a majority of n members. */
  function QuorumSize(n: nat): nat { n / 2 + 1 }

  ghost predicate IsQuorum(members: set<Id>, q: set<Id>) {
    q <= members && |q| >= QuorumSize(|members|)
  }

  lemma {:induction false} SubsetCardinality<T>(a: set<T>, b: set<T>)
    requires a <= b
    ensures |a| <= |b|
    decreases a
  {
    if a != {} {
      var x :| x in a;
      SubsetCardinality(a - {x}, b - {x});
    }
  }

  /** Two majorities of one member set share a member. */
  lemma QuorumsIntersect(members: set<Id>, a: set<Id>, b: set<Id>) returns (x: Id)
    requires IsQuorum(members, a) && IsQuorum(members, b)
    ensures x in a && x in b
  {
    if a * b == {} {
      SubsetCardinality(a + b, members);
      assert false;
    }
    x :| x in a * b;
  }

  lemma QuorumGrows(members: set<Id>, a: set<Id>, b: set<Id>)
    requires IsQuorum(members, a) && a <= b <= members
    ensures IsQuorum(members, b)
  {
    SubsetCardinality(a, b);
  }

  /** The part of a node's state that must survive a restart. */
  datatype HardState = HardState(term: nat, vote: Id, commit: nat)

  const EMPTY_STATE := HardState(0, NONE, 0)
}
