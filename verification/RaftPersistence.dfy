/**
 * From a Ready to its Advance: the unstable entries handed out are written to
 * storage and then dropped from the unstable part, while the log goes on being
 * appended to and overwritten. None of this shows in the one log both parts
 * stand for.
 */
module RaftPersistence {
  import opened RaftTypes
  import opened RaftNode
  import opened RaftCluster
  import opened RaftStorage
  import RaftSafety

  /** The log after entries were appended, or as it was if they were refused. */
  function AppendOne(w: seq<Entry>, committed: nat, ents: seq<Entry>): (r: seq<Entry>)
    requires w != []
    ensures r != [] && r[0] == w[0]
  {
    if ents == [] || ents[0].index <= w[0].index || !(committed < ents[0].index <= LastOf(w) + 1) then w
    else Spliced(w, ents[0].index, ents)
  }

  function AppendAll(w: seq<Entry>, committed: nat, news: seq<seq<Entry>>): (r: seq<Entry>)
    requires w != []
    ensures r != [] && r[0] == w[0]
  {
    if news == [] then w else AppendOne(AppendAll(w, committed, news[..|news|-1]), committed, news[|news|-1])
  }

  lemma AppendNext(w: seq<Entry>, committed: nat, news: seq<seq<Entry>>, i: nat)
    requires w != [] && i < |news|
    ensures AppendAll(w, committed, news[..i+1]) == AppendOne(AppendAll(w, committed, news[..i]), committed, news[i])
  {
    assert news[..i+1][..i] == news[..i];
  }

  lemma {:induction false} AppendBoth(w: seq<Entry>, committed: nat, a: seq<seq<Entry>>, b: seq<seq<Entry>>)
    requires w != []
    ensures AppendAll(AppendAll(w, committed, a), committed, b) == AppendAll(w, committed, a + b)
    decreases |b|
  {
    if b == [] {
      assert a + b == a;
    } else {
      assert (a + b)[..|a + b|-1] == a + b[..|b|-1];
      AppendBoth(w, committed, a, b[..|b|-1]);
    }
  }

  /** Log matching between two logs over the same compacted prefix. */
  ghost predicate LogsAgree(w: seq<Entry>, ready: seq<Entry>) {
    && w != [] && ready != [] && w[0] == ready[0]
    && forall i: nat | w[0].index <= i <= LastOf(w) && i <= LastOf(ready) && TermIn(w, i) == TermIn(ready, i) ::
         UpTo(w, i) == UpTo(ready, i)
  }

  /** Any two logs a node has in a run agree in this sense, at whatever times. */
  lemma RunLogsAgree(run: seq<Cluster>, boot: Log, i: nat, j: nat, a: Id, ready: seq<Entry>, w: seq<Entry>)
    requires IsRun(run, boot) && i < |run| && j < |run| && a in run[i].nodes && a in run[j].nodes
    requires Stands(ready, run[i].nodes[a].log) && Stands(w, run[j].nodes[a].log) && w[0] == ready[0]
    ensures LogsAgree(w, ready)
  {
    hide IsRun;
    var l, m, b := run[j].nodes[a].log, run[i].nodes[a].log, w[0].index;
    StandsTerm(w, l, b);
    StandsTerm(ready, m, b);
    forall k: nat | b < k <= LastOf(w) && k <= LastOf(ready) && TermIn(w, k) == TermIn(ready, k)
      ensures w[..k + 1 - b] == ready[..k + 1 - b]
    {
      StandsTerm(w, l, k);
      StandsTerm(ready, m, k);
      RaftSafety.LogMatching(run, boot, j, i, a, a, k - 1);
      StandsPrefix(w, l, k);
      StandsPrefix(ready, m, k);
    }
  }

  lemma StandsPrefix(w: seq<Entry>, log: Log, k: nat)
    requires Stands(w, log) && w[0].index < k <= |log|
    ensures |w| >= k + 1 - w[0].index && w[..k + 1 - w[0].index] == [w[0]] + log[..k][w[0].index..]
  {
    var b := w[0].index;
    assert w == [w[0]] + w[1..];
    assert log[..k][b..] == log[b..][..k - b];
  }

  /** Idle until a Ready is taken; Taken until its entries are in storage; Persisted until Advance. */
  datatype Phase = Idle | Taken | Persisted

  /** What an outstanding Ready leaves to be done. */
  ghost predicate Outstanding(phase: Phase, stored: seq<Entry>, offset: nat, unstable: seq<Entry>,
                              ready: seq<Entry>, handed: seq<Entry>, lasti: nat, lastt: nat) {
    && stored != [] && Contiguous(ready) && ready[0] == stored[0] && lasti == LastOf(ready) && lastt == TermIn(ready, lasti)
    && match phase
       case Idle => false
       case Taken =>
         && unstable != [] && handed != [] && Contiguous(handed) && stored[0].index < handed[0].index
         && offset <= handed[0].index <= LastOf(stored) + 1
         && ready == Spliced(stored, handed[0].index, handed)
       case Persisted => stored == ready
  }

  /** A Ready hands out the whole unstable part. */
  lemma TakenParts(stored: seq<Entry>, offset: nat, unstable: seq<Entry>, committed: nat, applied: nat)
    requires PartsOk(stored, offset, unstable, committed, applied) && unstable != []
    ensures var ready := Spliced(stored, offset, unstable);
            var lasti := unstable[|unstable|-1].index;
            Outstanding(Taken, stored, offset, unstable, ready, unstable, lasti, unstable[|unstable|-1].term)
  {
    JoinedOk(stored, offset, unstable, committed, applied);
    TermInUnstable(stored, offset, unstable, committed, applied, offset + |unstable| - 1);
  }

  lemma StillOutstanding(phase: Phase, stored: seq<Entry>, offset: nat, unstable: seq<Entry>, offset': nat, unstable': seq<Entry>,
                         ready: seq<Entry>, handed: seq<Entry>, lasti: nat, lastt: nat)
    requires Outstanding(phase, stored, offset, unstable, ready, handed, lasti, lastt)
    requires offset' <= offset && (unstable != [] ==> unstable' != [])
    ensures Outstanding(phase, stored, offset', unstable', ready, handed, lasti, lastt)
  {
  }

  /** The part of the node's loop that moves entries to stable storage. */
  class StableLoop {
    const log: RaftLog
    var havePrev: bool
    var prevLasti: nat
    var prevLastt: nat
    ghost var phase: Phase
    /** The log at the time of the outstanding Ready, and what that handed out. */
    ghost var ready: seq<Entry>
    ghost var handed: seq<Entry>

    ghost predicate Valid()
      reads this, log, log.storage
    {
      && log.Valid() && (phase == Idle ==> !havePrev) && (phase == Taken ==> (havePrev <==> handed != []))
      && (havePrev ==> Outstanding(phase, log.storage.ents, log.offset, log.entries, ready, handed, prevLasti, prevLastt))
    }

    constructor (l: RaftLog)
      requires l.Valid()
      ensures Valid() && log == l && phase == Idle
    {
      log := l;
      havePrev, prevLasti, prevLastt := false, 0, 0;
      phase, ready, handed := Idle, [], [];
    }

    method TakeReady() returns (ents: seq<Entry>)
      requires Valid() && phase == Idle
      modifies this
      ensures Valid() && phase == Taken && ents == handed == log.entries && ready == log.Whole()
    {
      hide PartsOk, Spliced, Outstanding;
      ents := log.entries;
      phase, ready, handed := Taken, log.Whole(), ents;
      if |ents| > 0 {
        TakenParts(log.storage.ents, log.offset, log.entries, log.committed, log.applied);
        prevLasti, prevLastt, havePrev := ents[|ents|-1].index, ents[|ents|-1].term, true;
      }
    }

    /** Appending, at any time. */
    method Append(ents: seq<Entry>) returns (ok: bool)
      requires Valid() && (ents != [] ==> Contiguous(ents))
      modifies log`entries, log`offset
      ensures Valid() && log.Base() == old(log.Base())
      ensures log.Whole() == AppendOne(old(log.Whole()), log.committed, ents)
    {
      hide PartsOk, Spliced, Outstanding, Contiguous;
      JoinedOk(log.storage.ents, log.offset, log.entries, log.committed, log.applied);
      ghost var o, u := log.offset, log.entries;
      ok := log.Append(ents);
      if havePrev {
        StillOutstanding(phase, log.storage.ents, o, u, log.offset, log.entries, ready, handed, prevLasti, prevLastt);
      }
    }

    method AppendEach(news: seq<seq<Entry>>)
      requires Valid() && forall e | e in news && e != [] :: Contiguous(e)
      modifies log`entries, log`offset
      ensures Valid() && log.Base() == old(log.Base())
      ensures log.Whole() == AppendAll(old(log.Whole()), log.committed, news)
    {
      hide PartsOk, Spliced, Outstanding, Contiguous, AppendOne, RaftLog.Valid;
      ghost var w := log.Whole();
      for i := 0 to |news|
        invariant Valid() && log.Base() == old(log.Base())
        invariant log.Whole() == AppendAll(w, log.committed, news[..i])
      {
        AppendNext(w, log.committed, news, i);
        var _ := Append(news[i]);
      }
      assert news[..|news|] == news;
    }

    /** Taking what a leader sent, at any time. */
    method MaybeAppend(index: nat, logTerm: nat, tocommit: nat, ents: seq<Entry>, ghost l: Log) returns (r: MaybeAppended)
      requires Valid() && log.Represents(l) && (forall k | 0 <= k < |ents| :: ents[k].index == index + 1 + k)
      modifies log`entries, log`offset, log`committed
      ensures Valid() && log.Base() == old(log.Base())
      ensures match RaftNode.MaybeAppend(l, log.Base(), old(log.committed), index, logTerm, tocommit, ents)
              case Accepted(m, c, last) => r == Appended(last) && log.Represents(m) && log.committed == c
              case Refused => r == NoMatch && log.Represents(l) && log.committed == old(log.committed)
              case AppendPanic => r == Panicked
    {
      hide PartsOk, Spliced, Outstanding, RaftNode.MaybeAppend, Stands;
      ghost var o, u := log.offset, log.entries;
      r := log.MaybeAppend(index, logTerm, tocommit, ents, l);
      if havePrev {
        StillOutstanding(phase, log.storage.ents, o, u, log.offset, log.entries, ready, handed, prevLasti, prevLastt);
      }
    }

    /** The application writes what it was handed to storage. */
    method Persist(ents: seq<Entry>)
      requires Valid() && phase == Taken && ents == handed
      modifies this`phase, log.storage
      ensures Valid() && phase == Persisted && log.Base() == old(log.Base()) && log.Whole() == old(log.Whole())
      ensures havePrev ==> log.storage.ents == ready
    {
      hide PartsOk, Spliced;
      if |ents| > 0 {
        var _ := log.Persist(ents, ready);
      }
      phase := Persisted;
    }

    /** Advance drops the unstable copies of what was handed out, if it is still there. */
    method Advance()
      requires Valid() && phase == Persisted && (havePrev ==> LogsAgree(log.Whole(), ready))
      modifies this, log`entries, log`offset
      ensures Valid() && phase == Idle && log.Base() == old(log.Base()) && log.Whole() == old(log.Whole())
      ensures old(havePrev) && old(log.offset) <= prevLasti <= LastOf(old(log.Whole()))
                && TermIn(old(log.Whole()), prevLasti) == prevLastt
              ==> log.offset == prevLasti + 1
    {
      hide PartsOk, Spliced, Contiguous;
      if havePrev {
        log.StableTo(prevLasti, prevLastt, ready);
        havePrev := false;
      }
      phase := Idle;
    }
  }

  /** A whole cycle, with any appends before the entries are written and any after it: the log ends
      up as if there had been no storage. */
  method Cycle(loop: StableLoop, before: seq<seq<Entry>>, after: seq<seq<Entry>>)
    requires loop.Valid() && loop.phase == Idle
    requires forall e | e in before + after && e != [] :: Contiguous(e)
    requires LogsAgree(AppendAll(loop.log.Whole(), loop.log.committed, before + after), loop.log.Whole())
    modifies loop, loop.log`entries, loop.log`offset, loop.log.storage
    ensures loop.Valid() && loop.phase == Idle
    ensures loop.log.Whole() == AppendAll(old(loop.log.Whole()), loop.log.committed, before + after)
    ensures old(loop.log.entries) != [] ==> loop.log.storage.ents == old(loop.log.Whole())
  {
    hide PartsOk, Spliced, Outstanding, Contiguous, AppendAll, LogsAgree, RaftLog.Valid;
    ghost var w, c := loop.log.Whole(), loop.log.committed;
    AppendBoth(w, c, before, after);
    var ents := loop.TakeReady();
    loop.AppendEach(before);
    loop.Persist(ents);
    loop.AppendEach(after);
    loop.Advance();
  }
}
