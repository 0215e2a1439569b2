/** Every protocol action keeps the protocol invariant and only extends the history. */
module RaftInvariant {
  import opened RaftTypes
  import opened RaftProtocol

  // ----- What growing the history preserves -----

  lemma MatchesGrows(p: Proto, q: Proto, l: Log)
    requires Matches(p.llog, l) && LogsGrow(p.llog, q.llog)
    ensures Matches(q.llog, l)
  {
    forall k: nat
      ensures MatchedAt(q.llog, l, k)
    {
      assert MatchedAt(p.llog, l, k);
      if k < |l| {
        assert GrowsAt(p.llog, q.llog, l[k].term);
      }
    }
  }

  lemma MatchesPrefix(p: Proto, l: Log, k: nat)
    requires Matches(p.llog, l) && k <= |l|
    ensures Matches(p.llog, l[..k])
  {
    forall j: nat
      ensures MatchedAt(p.llog, l[..k], j)
    {
      assert MatchedAt(p.llog, l, j);
    }
  }

  /** An earlier leader's entries cannot turn up later in the log of a leader that lacked them. */
  lemma LostGrows(p: Proto, q: Proto, t: nat, i: nat, u: nat, u': nat)
    requires Shape(p) && LogsGrow(p.llog, q.llog) && u <= u' && i <= |LLog(p.llog, t)|
    requires Lost(p.llog, t, i, u)
    ensures Lost(q.llog, t, i, u')
  {
    var s :| t < s <= u && s in p.llog && !Agree(LLog(p.llog, t), LLog(p.llog, s), i);
    assert GrowsAt(p.llog, q.llog, s) && GrowsAt(p.llog, q.llog, t);
    var k := |LLog(p.llog, s)|;
    assert k < i ==> LLog(p.llog, t)[k].term <= t;
    assert !Agree(LLog(q.llog, t), LLog(q.llog, s), i);
  }

  lemma ChosenGrows(p: Proto, q: Proto, t: nat, i: nat)
    requires LogsGrow(p.llog, q.llog) && AcksGrow(p, q) && Chosen(p, t, i)
    ensures Chosen(q, t, i) && Agree(LLog(p.llog, t), LLog(q.llog, t), i)
  {
    assert GrowsAt(p.llog, q.llog, t);
    QuorumGrows(p.members, Ackers(p, t, i), Ackers(q, t, i));
  }

  lemma CommittedGrows(p: Proto, q: Proto, l: Log, k: nat, u: nat, u': nat)
    requires LogsGrow(p.llog, q.llog) && AcksGrow(p, q) && u <= u' && CommittedPrefix(p, l, k, u)
    ensures CommittedPrefix(q, l, k, u')
  {
    if k > 0 {
      var t: nat, i: nat :| Chosen(p, t, i) && t <= u && k <= i && Agree(l, LLog(p.llog, t), k);
      ChosenGrows(p, q, t, i);
      assert Agree(l, LLog(q.llog, t), k);
    }
  }

  lemma ChoosableShrinks(p: Proto, q: Proto, t: nat, i: nat)
    requires LogsGrow(p.llog, q.llog) && AcksGrow(p, q) && OwnEntry(p.llog, t, i) && Choosable(q, t, i)
    ensures Choosable(p, t, i) && Agree(LLog(p.llog, t), LLog(q.llog, t), i)
  {
    assert GrowsAt(p.llog, q.llog, t);
    QuorumGrows(p.members, CouldAck(q, t, i), CouldAck(p, t, i));
  }

  lemma HeldGrows(p: Proto, q: Proto, l: Log, m: Log, u: nat, u': nat, t: nat, i: nat)
    requires Shape(p) && LogsGrow(p.llog, q.llog) && u <= u' && i <= |LLog(p.llog, t)|
    requires Held(p.llog, l, u, t, i) && Agree(l, m, |l|)
    ensures Held(q.llog, m, u', t, i)
  {
    assert GrowsAt(p.llog, q.llog, t);
    if Agree(LLog(p.llog, t), l, i) {
      assert Agree(LLog(q.llog, t), m, i);
    } else {
      LostGrows(p, q, t, i, u, u');
    }
  }

  lemma ElectedGrows(p: Proto, q: Proto, t: nat)
    requires t in p.llog && ElectedAt(p, t) && Extends(p, q) && NONE !in p.members
    ensures ElectedAt(q, t)
  {
    assert GrowsAt(p.llog, q.llog, t);
    QuorumGrows(p.members, Voters(p, t, LeaderOf(p.leader, t)), Voters(q, t, LeaderOf(p.leader, t)));
  }

  /** What holds of a grown history without looking at what was added. */
  ghost predicate Carryover(p: Proto, q: Proto) {
    && (forall t: nat, v: Id, i: nat | i <= AckOf(p.ack, t, v) && Agree(LogOf(p.log, v), LogOf(q.log, v), |LogOf(p.log, v)|) ::
          Held(q.llog, LogOf(q.log, v), TermOf(q.term, v), t, i))
    && (forall u: nat, v: Id, t: nat, i: nat |
          VoteOf(p.vote, u, v) != NONE && t < u && i <= AckOf(q.ack, t, v) && OwnEntry(q.llog, t, i) ::
          Held(q.llog, CLog(q.clog, u, VoteOf(q.vote, u, v)), u, t, i))
    && (forall t: nat, i: nat, u | OwnEntry(p.llog, t, i) && Choosable(q, t, i) && t < u && u in p.llog ::
          Agree(LLog(q.llog, t), LLog(q.llog, u), i))
    && (forall v | v in p.members :: CommittedPrefix(q, LogOf(p.log, v), CommitOf(p.commit, v), TermOf(q.term, v)))
  }

  lemma CarryOver(p: Proto, q: Proto)
    requires Inv(p) && Extends(p, q)
    ensures Carryover(p, q)
  {
    forall t: nat, v: Id, i: nat | i <= AckOf(p.ack, t, v) && Agree(LogOf(p.log, v), LogOf(q.log, v), |LogOf(p.log, v)|)
      ensures Held(q.llog, LogOf(q.log, v), TermOf(q.term, v), t, i)
    {
      HeldGrows(p, q, LogOf(p.log, v), LogOf(q.log, v), TermOf(p.term, v), TermOf(q.term, v), t, i);
    }
    forall u: nat, v: Id, t: nat, i: nat | VoteOf(p.vote, u, v) != NONE && t < u && i <= AckOf(q.ack, t, v) && OwnEntry(q.llog, t, i)
      ensures Held(q.llog, CLog(q.clog, u, VoteOf(q.vote, u, v)), u, t, i)
    {
      OldAckCarried(p, q, u, v, t, i);
    }
    forall t: nat, i: nat, u | OwnEntry(p.llog, t, i) && Choosable(q, t, i) && t < u && u in p.llog
      ensures Agree(LLog(q.llog, t), LLog(q.llog, u), i)
    {
      ChoosableShrinks(p, q, t, i);
      assert GrowsAt(p.llog, q.llog, u);
      assert Agree(LLog(p.llog, t), LLog(p.llog, u), i);
    }
    forall v | v in p.members
      ensures CommittedPrefix(q, LogOf(p.log, v), CommitOf(p.commit, v), TermOf(q.term, v))
    {
      CommittedGrows(p, q, LogOf(p.log, v), CommitOf(p.commit, v), TermOf(p.term, v), TermOf(q.term, v));
    }
  }

  /** A voter has left all earlier terms, so it acknowledges nothing more in them. */
  lemma OldAckCarried(p: Proto, q: Proto, u: nat, v: Id, t: nat, i: nat)
    requires Shape(p) && VotesCarry(p) && Extends(p, q)
    requires VoteOf(p.vote, u, v) != NONE && t < u && i <= AckOf(q.ack, t, v) && OwnEntry(q.llog, t, i)
    ensures Held(q.llog, CLog(q.clog, u, VoteOf(q.vote, u, v)), u, t, i)
  {
    assert AckOf(p.ack, t, v) == AckOf(q.ack, t, v);
    assert GrowsAt(p.llog, q.llog, t);
    assert OwnEntry(p.llog, t, i);
    var l := CLog(p.clog, u, VoteOf(p.vote, u, v));
    HeldGrows(p, q, l, l, u, u, t, i);
  }

  /** What holds of terms that already had a leader, and of logs that already matched. */
  lemma StructureCarries(p: Proto, q: Proto)
    requires Elected(p) && NONE !in p.members && Extends(p, q)
    ensures forall t | t in p.llog && t > 1 :: ElectedAt(q, t)
    ensures forall l | Matches(p.llog, l) :: Matches(q.llog, l)
  {
    forall l | Matches(p.llog, l) ensures Matches(q.llog, l) { MatchesGrows(p, q, l); }
    forall t | t in p.llog && t > 1 ensures ElectedAt(q, t) { ElectedGrows(p, q, t); }
  }

  lemma VoteUpdate(m: map<(nat, Id), Id>, n: map<(nat, Id), Id>, t: nat, v: Id, c: Id)
    requires n == m[(t, v) := c]
    ensures forall s: nat, w: Id :: VoteOf(n, s, w) == if s == t && w == v then c else VoteOf(m, s, w)
  {
    assert forall s: nat, w: Id :: (s, w) == (t, v) <==> s == t && w == v;
  }

  lemma CLogUpdate(m: map<(nat, Id), Log>, n: map<(nat, Id), Log>, t: nat, v: Id, l: Log)
    requires n == m[(t, v) := l]
    ensures forall s: nat, w: Id :: CLog(n, s, w) == if s == t && w == v then l else CLog(m, s, w)
  {
    assert forall s: nat, w: Id :: (s, w) == (t, v) <==> s == t && w == v;
  }

  lemma AckUpdate(m: map<(nat, Id), nat>, n: map<(nat, Id), nat>, t: nat, v: Id, i: nat)
    requires n == m[(t, v) := i]
    ensures forall s: nat, w: Id :: AckOf(n, s, w) == if s == t && w == v then i else AckOf(m, s, w)
  {
    assert forall s: nat, w: Id :: (s, w) == (t, v) <==> s == t && w == v;
  }

  lemma LLogUpdate(m: map<nat, Log>, n: map<nat, Log>, t: nat, l: Log)
    requires n == m[t := l]
    ensures forall s: nat :: LLog(n, s) == if s == t then l else LLog(m, s)
  {
  }

  // ----- A member adopts a higher term -----

  lemma BumpTermExtends(p: Proto, q: Proto, v: Id, t: nat)
    requires Shape(p) && BumpTerm(p, q, v, t)
    ensures Shape(q) && Extends(p, q)
  {
    forall s: nat, c: Id | IsCandidate(q.vote, s, c)
      ensures s > 1 && TermsUpTo(CLog(q.clog, s, c), s - 1)
    {
      assert IsCandidate(p.vote, s, c);
    }
  }

  lemma BumpTermKeeps(p: Proto, q: Proto, v: Id, t: nat)
    requires Inv(p) && BumpTerm(p, q, v, t)
    ensures Inv(q) && Extends(p, q)
  {
    BumpTermExtends(p, q, v, t);
    CarryOver(p, q);
    StructureCarries(p, q);
  }

  // ----- A member starts an election -----

  lemma CampaignExtends(p: Proto, q: Proto, c: Id)
    requires Shape(p) && Campaign(p, q, c)
    ensures Shape(q) && Extends(p, q)
  {
    hide Shape, Extends, Campaign;
    CampaignShape(p, q, c);
    CampaignGrows(p, q, c);
  }

  lemma CampaignGrows(p: Proto, q: Proto, c: Id)
    requires Shape(p) && Campaign(p, q, c)
    ensures Extends(p, q)
  {
    var t := TermOf(q.term, c);
    VoteUpdate(p.vote, q.vote, t, c, c);
    CLogUpdate(p.clog, q.clog, t, c, LogOf(p.log, c));
    forall s: nat ensures GrowsAt(p.llog, q.llog, s) {}
  }

  lemma CampaignShape(p: Proto, q: Proto, c: Id)
    requires Shape(p) && Campaign(p, q, c)
    ensures Shape(q)
  {
    var t := TermOf(q.term, c);
    VoteUpdate(p.vote, q.vote, t, c, c);
    CLogUpdate(p.clog, q.clog, t, c, LogOf(p.log, c));
    forall s: nat, d: Id | IsCandidate(q.vote, s, d)
      ensures s > 1 && TermsUpTo(CLog(q.clog, s, d), s - 1)
    {
      assert IsCandidate(p.vote, s, d) || (s == TermOf(q.term, c) && d == c);
    }
  }

  lemma CampaignCarries(p: Proto, q: Proto, c: Id)
    requires Inv(p) && Campaign(p, q, c) && Extends(p, q) && Carryover(p, q)
    ensures VotesCarry(q)
  {
    forall u: nat, v: Id, t: nat, i: nat | VoteOf(q.vote, u, v) != NONE && t < u && i <= AckOf(q.ack, t, v) && OwnEntry(q.llog, t, i)
      ensures Held(q.llog, CLog(q.clog, u, VoteOf(q.vote, u, v)), u, t, i)
    {
      if VoteOf(p.vote, u, v) == NONE {
        assert Held(p.llog, LogOf(p.log, c), TermOf(p.term, c), t, i);
      }
    }
  }

  lemma CampaignKeeps(p: Proto, q: Proto, c: Id)
    requires Inv(p) && Campaign(p, q, c)
    ensures Inv(q) && Extends(p, q)
  {
    CampaignExtends(p, q, c);
    CLogUpdate(p.clog, q.clog, TermOf(q.term, c), c, LogOf(p.log, c));
    CarryOver(p, q);
    StructureCarries(p, q);
    CampaignCarries(p, q, c);
  }

  // ----- A member votes -----

  /** Two logs that end in the same term are prefixes of one leader's log. */
  lemma LongerLogCovers(p: Proto, a: Log, b: Log, i: nat)
    requires Matches(p.llog, a) && Matches(p.llog, b) && a != [] && b != []
    requires LastTerm(a) == LastTerm(b) && i <= |a| <= |b|
    ensures Agree(a, b, i)
  {
    assert MatchedAt(p.llog, a, |a| - 1) && MatchedAt(p.llog, b, |b| - 1);
  }

  /** A log that ends in term s holds whatever leader s holds from before that term. */
  lemma LastTermCovers(p: Proto, l: Log, pre: Log, i: nat)
    requires Matches(p.llog, l) && l != []
    requires Agree(pre, LLog(p.llog, LastTerm(l)), i)
    requires forall k | 0 <= k < i :: pre[k].term < LastTerm(l)
    ensures Agree(pre, l, i)
  {
    assert MatchedAt(p.llog, l, |l| - 1);
  }

  /** The up-to-date check: the candidate's log holds every own-term entry the voter holds. */
  lemma UpToDateCovers(p: Proto, candidate: Log, voter: Log, t: nat, i: nat, u: nat)
    requires Shape(p) && Matches(p.llog, candidate) && Matches(p.llog, voter)
    requires OwnEntry(p.llog, t, i) && Agree(LLog(p.llog, t), voter, i) && t < u && TermsUpTo(candidate, u)
    requires UpToDate(voter, |candidate|, LastTerm(candidate)) && !Lost(p.llog, t, i, u)
    ensures Agree(LLog(p.llog, t), candidate, i)
  {
    assert MatchedAt(p.llog, voter, |voter| - 1);
    assert t <= LastTerm(voter);
    assert t in p.llog;
    if LastTerm(candidate) == LastTerm(voter) {
      LongerLogCovers(p, voter, candidate, i);
    } else {
      assert MatchedAt(p.llog, candidate, |candidate| - 1);
      assert LastTerm(candidate) in p.llog && t < LastTerm(candidate) <= u;
      LastTermCovers(p, candidate, LLog(p.llog, t), i);
    }
  }

  lemma CastVoteExtends(p: Proto, q: Proto, v: Id, c: Id)
    requires Shape(p) && CastVote(p, q, v, c)
    ensures Shape(q) && Extends(p, q)
  {
    VoteUpdate(p.vote, q.vote, TermOf(p.term, v), v, c);
    forall s: nat, d: Id | IsCandidate(q.vote, s, d)
      ensures IsCandidate(p.vote, s, d)
    {
    }
  }

  lemma CastVoteCarries(p: Proto, q: Proto, v: Id, c: Id)
    requires Inv(p) && CastVote(p, q, v, c) && Extends(p, q) && Carryover(p, q)
    ensures VotesCarry(q)
  {
    forall u: nat, w: Id, t: nat, i: nat | VoteOf(q.vote, u, w) != NONE && t < u && i <= AckOf(q.ack, t, w) && OwnEntry(q.llog, t, i)
      ensures Held(q.llog, CLog(q.clog, u, VoteOf(q.vote, u, w)), u, t, i)
    {
      if VoteOf(p.vote, u, w) == NONE {
        assert w == v && u == TermOf(p.term, v) && VoteOf(q.vote, u, v) == c;
        assert Held(p.llog, LogOf(p.log, v), TermOf(p.term, v), t, i);
        assert OwnEntry(p.llog, t, i);
        if !Lost(p.llog, t, i, u) {
          UpToDateCovers(p, CLog(p.clog, u, c), LogOf(p.log, v), t, i, u);
        }
      }
    }
  }

  lemma CastVoteKeeps(p: Proto, q: Proto, v: Id, c: Id)
    requires Inv(p) && CastVote(p, q, v, c)
    ensures Inv(q) && Extends(p, q)
  {
    CastVoteExtends(p, q, v, c);
    CarryOver(p, q);
    StructureCarries(p, q);
    CastVoteCarries(p, q, v, c);
  }

  // ----- A member moves its commit index -----

  lemma SetCommitKeeps(p: Proto, q: Proto, v: Id, k: nat)
    requires Inv(p) && SetCommit(p, q, v, k)
    ensures Inv(q) && Extends(p, q)
  {
    CarryOver(p, q);
    StructureCarries(p, q);
    CommittedGrows(p, q, LogOf(p.log, v), k, TermOf(p.term, v), TermOf(q.term, v));
  }

  // ----- A candidate with a quorum of votes becomes leader -----

  lemma ElectExtends(p: Proto, q: Proto, c: Id)
    requires Shape(p) && Elected(p) && LogsMatch(p) && Elect(p, q, c)
    ensures Shape(q) && Extends(p, q)
  {
    hide Shape, Extends, Elect;
    ElectShape(p, q, c);
    ElectGrows(p, q, c);
  }

  lemma ElectGrows(p: Proto, q: Proto, c: Id)
    requires Shape(p) && Elected(p) && Elect(p, q, c)
    ensures Extends(p, q)
  {
    var t := TermOf(p.term, c);
    AckUpdate(p.ack, q.ack, t, c, |LogOf(p.log, c)|);
    LLogUpdate(p.llog, q.llog, t, LogOf(p.log, c));
    assert AckOf(p.ack, t, c) == 0;
    forall s: nat ensures GrowsAt(p.llog, q.llog, s) {}
  }

  lemma ElectShape(p: Proto, q: Proto, c: Id)
    requires Shape(p) && Elected(p) && LogsMatch(p) && Elect(p, q, c)
    ensures Shape(q)
  {
    var t := TermOf(p.term, c);
    AckUpdate(p.ack, q.ack, t, c, |LogOf(p.log, c)|);
    LLogUpdate(p.llog, q.llog, t, LogOf(p.log, c));
    MatchedIsIndexed(p, LogOf(p.log, c));
  }

  lemma MatchedIsIndexed(p: Proto, l: Log)
    requires Shape(p) && Matches(p.llog, l)
    ensures Indexed(l)
  {
    forall k | 0 <= k < |l| ensures l[k].index == k + 1 && l[k].term >= 1 {
      assert MatchedAt(p.llog, l, k);
    }
  }

  lemma ElectStructure(p: Proto, q: Proto, c: Id)
    requires Shape(p) && Elected(p) && LogsMatch(p) && Elect(p, q, c) && Extends(p, q)
    ensures Elected(q) && LogsMatch(q)
  {
    StructureCarries(p, q);
    LLogUpdate(p.llog, q.llog, TermOf(p.term, c), LogOf(p.log, c));
  }

  /** The new leader holds everything that may still be chosen in an earlier term. */
  lemma ElectComplete(p: Proto, q: Proto, c: Id, t: nat, i: nat)
    requires Inv(p) && Elect(p, q, c) && t < TermOf(p.term, c) && Choosable(p, t, i)
    ensures Agree(LLog(p.llog, t), LogOf(p.log, c), i)
  {
    var u := TermOf(p.term, c);
    var v := QuorumsIntersect(p.members, CouldAck(p, t, i), Voters(p, u, c));
    assert VoteOf(p.vote, u, v) == c;
    assert u <= TermOf(p.term, v);
    assert Held(p.llog, CLog(p.clog, u, c), u, t, i);
    assert !Lost(p.llog, t, i, u);
  }

  lemma ElectKeepsComplete(p: Proto, q: Proto, c: Id)
    requires Inv(p) && Elect(p, q, c) && Extends(p, q) && Shape(q) && Carryover(p, q)
    ensures Complete(q)
  {
    var n := TermOf(p.term, c);
    LLogUpdate(p.llog, q.llog, n, LogOf(p.log, c));
    forall t: nat, i: nat, u | Choosable(q, t, i) && t < u && u in q.llog
      ensures Agree(LLog(q.llog, t), LLog(q.llog, u), i)
    {
      assert t != n;
      assert OwnEntry(p.llog, t, i);
      if u == n {
        ChoosableShrinks(p, q, t, i);
        ElectComplete(p, q, c, t, i);
      }
    }
  }

  lemma ElectKeepsAcks(p: Proto, q: Proto, c: Id)
    requires Inv(p) && Elect(p, q, c) && Extends(p, q) && Carryover(p, q)
    ensures AcksKept(q)
  {
    var n := TermOf(p.term, c);
    AckUpdate(p.ack, q.ack, n, c, |LogOf(p.log, c)|);
    LLogUpdate(p.llog, q.llog, n, LogOf(p.log, c));
  }

  lemma ElectKeeps(p: Proto, q: Proto, c: Id)
    requires Inv(p) && Elect(p, q, c)
    ensures Inv(q) && Extends(p, q)
  {
    ElectExtends(p, q, c);
    CarryOver(p, q);
    ElectStructure(p, q, c);
    ElectKeepsComplete(p, q, c);
    ElectKeepsAcks(p, q, c);
  }

  // ----- A leader appends entries of its own term -----

  lemma LeaderAppendExtends(p: Proto, q: Proto, c: Id, es: Log)
    requires Shape(p) && Elected(p) && LeaderAppend(p, q, c, es)
    ensures Shape(q) && Extends(p, q)
  {
    hide Shape, Extends, LeaderAppend;
    LeaderAppendShape(p, q, c, es);
    LeaderAppendGrows(p, q, c, es);
  }

  lemma LeaderAppendGrows(p: Proto, q: Proto, c: Id, es: Log)
    requires Shape(p) && Elected(p) && LeaderAppend(p, q, c, es)
    ensures Extends(p, q)
  {
    var t := TermOf(p.term, c);
    var l := LogOf(p.log, c) + es;
    AckUpdate(p.ack, q.ack, t, c, |l|);
    LLogUpdate(p.llog, q.llog, t, l);
    forall s: nat ensures GrowsAt(p.llog, q.llog, s) {}
  }

  lemma LeaderAppendShape(p: Proto, q: Proto, c: Id, es: Log)
    requires Shape(p) && Elected(p) && LeaderAppend(p, q, c, es)
    ensures Shape(q)
  {
    hide AckOf, LLog, VoteOf, IsCandidate, CLog, ElectedAt;
    var t := TermOf(p.term, c);
    var l := LogOf(p.log, c) + es;
    AckUpdate(p.ack, q.ack, t, c, |l|);
    LLogUpdate(p.llog, q.llog, t, l);
  }

  lemma AppendedMatches(p: Proto, q: Proto, c: Id, es: Log)
    requires LogsMatch(p) && LeaderAppend(p, q, c, es) && LogsGrow(p.llog, q.llog)
    ensures Matches(q.llog, LogOf(p.log, c) + es)
  {
    var l := LogOf(p.log, c) + es;
    MatchesGrows(p, q, LogOf(p.log, c));
    forall k: nat ensures MatchedAt(q.llog, l, k) {
      assert MatchedAt(q.llog, LogOf(p.log, c), k);
    }
  }

  lemma LeaderAppendStructure(p: Proto, q: Proto, c: Id, es: Log)
    requires Shape(p) && Elected(p) && LogsMatch(p) && LeaderAppend(p, q, c, es) && Extends(p, q)
    ensures Elected(q) && LogsMatch(q)
  {
    StructureCarries(p, q);
    AppendedMatches(p, q, c, es);
    LLogUpdate(p.llog, q.llog, TermOf(p.term, c), LogOf(p.log, c) + es);
    assert forall w: Id | w != c :: LogOf(q.log, w) == LogOf(p.log, w);
  }

  /** A member that voted in a later term cannot acknowledge the entries just appended. */
  lemma AppendedNotChoosable(p: Proto, q: Proto, c: Id, es: Log, i: nat, u: nat)
    requires Inv(p) && LeaderAppend(p, q, c, es) && Shape(q) && Extends(p, q)
    requires TermOf(p.term, c) < u && u in p.llog && |LogOf(p.log, c)| < i
    ensures !Choosable(q, TermOf(p.term, c), i)
  {
    var t := TermOf(p.term, c);
    AckUpdate(p.ack, q.ack, t, c, |LogOf(p.log, c) + es|);
    assert ElectedAt(p, u);
    if Choosable(q, t, i) {
      var v := QuorumsIntersect(p.members, CouldAck(q, t, i), Voters(p, u, LeaderOf(p.leader, u)));
      assert false;
    }
  }

  lemma LeaderAppendKeepsComplete(p: Proto, q: Proto, c: Id, es: Log)
    requires Inv(p) && LeaderAppend(p, q, c, es) && Extends(p, q) && Shape(q) && Carryover(p, q)
    ensures Complete(q)
  {
    var n := TermOf(p.term, c);
    LLogUpdate(p.llog, q.llog, n, LogOf(p.log, c) + es);
    forall t: nat, i: nat, u | Choosable(q, t, i) && t < u && u in q.llog
      ensures Agree(LLog(q.llog, t), LLog(q.llog, u), i)
    {
      if t == n && |LogOf(p.log, c)| < i {
        AppendedNotChoosable(p, q, c, es, i, u);
      } else {
        assert OwnEntry(p.llog, t, i);
      }
    }
  }

  lemma LeaderAppendKeepsAcks(p: Proto, q: Proto, c: Id, es: Log)
    requires Inv(p) && LeaderAppend(p, q, c, es) && Extends(p, q) && Carryover(p, q)
    ensures AcksKept(q)
  {
    var n := TermOf(p.term, c);
    AckUpdate(p.ack, q.ack, n, c, |LogOf(p.log, c) + es|);
    LLogUpdate(p.llog, q.llog, n, LogOf(p.log, c) + es);
    forall v: Id ensures Agree(LogOf(p.log, v), LogOf(q.log, v), |LogOf(p.log, v)|) {}
  }

  lemma LeaderAppendKeepsCommits(p: Proto, q: Proto, c: Id, es: Log)
    requires Inv(p) && LeaderAppend(p, q, c, es) && Extends(p, q) && Carryover(p, q)
    ensures CommitsChosen(q)
  {
    forall v | v in q.members
      ensures CommittedPrefix(q, LogOf(q.log, v), CommitOf(q.commit, v), TermOf(q.term, v))
    {
      LongerLogCommitted(q, LogOf(p.log, v), LogOf(q.log, v), CommitOf(q.commit, v), TermOf(q.term, v));
    }
  }

  lemma LongerLogCommitted(p: Proto, l: Log, m: Log, k: nat, u: nat)
    requires CommittedPrefix(p, l, k, u) && (Agree(l, m, k) || Agree(l, m, |l|))
    ensures CommittedPrefix(p, m, k, u)
  {
    if k > 0 {
      var t: nat, i: nat :| Chosen(p, t, i) && t <= u && k <= i && Agree(l, LLog(p.llog, t), k);
      assert Agree(m, LLog(p.llog, t), k);
    }
  }

  lemma LeaderAppendKeeps(p: Proto, q: Proto, c: Id, es: Log)
    requires Inv(p) && LeaderAppend(p, q, c, es)
    ensures Inv(q) && Extends(p, q)
  {
    LeaderAppendExtends(p, q, c, es);
    CarryOver(p, q);
    LeaderAppendStructure(p, q, c, es);
    LeaderAppendKeepsComplete(p, q, c, es);
    LeaderAppendKeepsAcks(p, q, c, es);
    LeaderAppendKeepsCommits(p, q, c, es);
  }

  // ----- A member accepts the leader's entries -----

  /** Chosen entries are in the log of every later leader. */
  lemma ChosenIsComplete(p: Proto, t: nat, i: nat, u: nat)
    requires Shape(p) && Complete(p) && Chosen(p, t, i) && t <= u && u in p.llog
    ensures Agree(LLog(p.llog, t), LLog(p.llog, u), i)
  {
    if t < u {
      QuorumGrows(p.members, Ackers(p, t, i), CouldAck(p, t, i));
      assert Choosable(p, t, i);
    }
  }

  /** What a member has committed is in the log of its term's leader. */
  lemma CommittedInLeader(p: Proto, l: Log, k: nat, u: nat)
    requires Shape(p) && Complete(p) && CommittedPrefix(p, l, k, u) && u in p.llog
    ensures k <= |LLog(p.llog, u)| && (k <= |l| ==> Agree(l, LLog(p.llog, u), k))
    ensures k > 0 ==> k <= |l|
  {
    if k > 0 {
      var t: nat, i: nat :| Chosen(p, t, i) && t <= u && k <= i && Agree(l, LLog(p.llog, t), k);
      ChosenIsComplete(p, t, i, u);
    }
  }

  lemma AcceptExtends(p: Proto, q: Proto, v: Id, k: nat)
    requires Shape(p) && Accept(p, q, v, k)
    ensures Shape(q) && Extends(p, q)
  {
    var t := TermOf(p.term, v);
    AckUpdate(p.ack, q.ack, t, v, Max(AckOf(p.ack, t, v), k));
  }

  lemma AcceptStructure(p: Proto, q: Proto, v: Id, k: nat)
    requires Shape(p) && Elected(p) && LogsMatch(p) && Accept(p, q, v, k) && Extends(p, q)
    ensures Elected(q) && LogsMatch(q)
  {
    StructureCarries(p, q);
    var u := TermOf(p.term, v);
    MatchesPrefix(p, LLog(p.llog, u), k);
    assert Matches(q.llog, LogOf(q.log, v));
    assert forall w: Id | w != v :: LogOf(q.log, w) == LogOf(p.log, w);
  }

  lemma AcceptKeepsHeld(p: Proto, q: Proto, v: Id, k: nat, t: nat, i: nat)
    requires Inv(p) && Accept(p, q, v, k) && i <= AckOf(q.ack, t, v)
    ensures Held(q.llog, LogOf(q.log, v), TermOf(q.term, v), t, i)
  {
    var u := TermOf(p.term, v);
    AckUpdate(p.ack, q.ack, u, v, Max(AckOf(p.ack, u, v), k));
    if i <= AckOf(p.ack, t, v) {
      assert Held(p.llog, LogOf(p.log, v), u, t, i);
    }
  }

  lemma AcceptKeepsAcks(p: Proto, q: Proto, v: Id, k: nat)
    requires Inv(p) && Accept(p, q, v, k) && Extends(p, q) && Carryover(p, q)
    ensures AcksKept(q)
  {
    var u := TermOf(p.term, v);
    AckUpdate(p.ack, q.ack, u, v, Max(AckOf(p.ack, u, v), k));
    forall t: nat, w: Id, i: nat | i <= AckOf(q.ack, t, w)
      ensures Held(q.llog, LogOf(q.log, w), TermOf(q.term, w), t, i)
    {
      if w == v {
        AcceptKeepsHeld(p, q, v, k, t, i);
      }
    }
  }

  lemma AcceptKeepsCommits(p: Proto, q: Proto, v: Id, k: nat)
    requires Inv(p) && Accept(p, q, v, k) && Extends(p, q) && Carryover(p, q)
    ensures CommitsChosen(q)
  {
    var u := TermOf(p.term, v);
    AcceptedAgrees(p, q, v, k);
    LongerLogCommitted(q, LogOf(p.log, v), LogOf(q.log, v), CommitOf(q.commit, v), u) by { CarriedCommit(p, q, v); }
    forall w | w in q.members
      ensures CommittedPrefix(q, LogOf(q.log, w), CommitOf(q.commit, w), TermOf(q.term, w))
    {
      hide Inv, Extends;
      if w != v { CarriedCommit(p, q, w); }
    }
  }

  lemma CarriedCommit(p: Proto, q: Proto, v: Id)
    requires Carryover(p, q) && v in p.members
    ensures CommittedPrefix(q, LogOf(p.log, v), CommitOf(p.commit, v), TermOf(q.term, v))
  {
  }

  /** What is committed stays in place when a leader's entries are accepted. */
  lemma AcceptedAgrees(p: Proto, q: Proto, v: Id, k: nat)
    requires Inv(p) && Accept(p, q, v, k)
    ensures Agree(LogOf(p.log, v), LogOf(q.log, v), CommitOf(p.commit, v)) || Agree(LogOf(p.log, v), LogOf(q.log, v), |LogOf(p.log, v)|)
  {
    hide AcksKept, VotesCarry;
    CommittedInLeader(p, LogOf(p.log, v), CommitOf(p.commit, v), TermOf(p.term, v));
  }

  lemma AcceptKeeps(p: Proto, q: Proto, v: Id, k: nat)
    requires Inv(p) && Accept(p, q, v, k)
    ensures Inv(q) && Extends(p, q)
  {
    AcceptExtends(p, q, v, k);
    CarryOver(p, q);
    AcceptStructure(p, q, v, k);
    AcceptKeepsAcks(p, q, v, k);
    AcceptKeepsCommits(p, q, v, k);
  }
}
