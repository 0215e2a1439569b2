/** How a background compaction proceeds, and what the store remembers of it for a restart. */
module MvccCompaction {
  import opened Options
  import opened MvccKeyIndex
  import opened MvccKeys
  import opened MvccHistory
  import opened MvccStore
  import opened MvccInvariant
  import opened MvccReadBack
  import MvccSafety

  // ----- One batch -----

  /** The records a batch of the oldest job looks at: the next ten thousand, or all that remain if there are fewer. */
  ghost predicate LooksAt(s: Store, j: Job, seen: set<Revision>) {
    && seen <= Remaining(s, j)
    && |seen| == (if |Remaining(s, j)| < 10000 then |Remaining(s, j)| else 10000)
    && forall a, b | a in seen && b in Remaining(s, j) - seen :: Before(a, b)
  }

  /** Of the records looked at exactly those to be kept are left. Fewer than ten thousand mean that the job is done,
      which is recorded; otherwise it goes on with the rest. */
  lemma BatchLooks(s: Store, t: Store) returns (seen: set<Revision>)
    requires Batches(s, t)
    ensures s.jobs != [] && LooksAt(s, s.jobs[0], seen)
    ensures t == s.(backend := t.backend, jobs := t.jobs, finished := t.finished)
    ensures forall r :: r in t.backend <==> r in s.backend && (r in seen ==> r in s.jobs[0].keep)
    ensures forall r | r in t.backend :: t.backend[r] == s.backend[r]
    ensures if |seen| < 10000 then t.jobs == s.jobs[1..] && t.finished == s.jobs[0].at
            else |t.jobs| == |s.jobs| && t.jobs[1..] == s.jobs[1..] && t.finished == s.finished &&
                 t.jobs[0].at == s.jobs[0].at && t.jobs[0].keep == s.jobs[0].keep &&
                 Remaining(s, t.jobs[0]) == Remaining(s, s.jobs[0]) - seen
  {
    var j := s.jobs[0];
    if |Remaining(s, j)| < BATCH_SIZE && t == AfterLastBatch(s, j) {
      seen := Remaining(s, j);
    } else {
      var u :| IsBatch(s, j, u) && t == AfterBatch(s, j, u);
      seen := set r | r in Remaining(s, j) && !Before(u, r);
      FewerSeen(seen, Remaining(s, j));
      assert t.jobs[0].last == Revision(u.main, u.sub + 1);
      forall r ensures Before(r, Revision(u.main, u.sub + 1)) <==> !Before(u, r) {}
      RestRemains(s, j, u);
    }
  }

  lemma FewerSeen(a: set<Revision>, b: set<Revision>)
    requires a <= b
    ensures |a| <= |b|
  {
    assert b == a + (b - a);
  }

  lemma RestRemains(s: Store, j: Job, u: Revision)
    requires u in Remaining(s, j)
    ensures Remaining(s, j.(last := Revision(u.main, u.sub + 1))) ==
            Remaining(s, j) - set r | r in Remaining(s, j) && !Before(u, r)
  {
  }

  // ----- What is remembered -----

  /** The revision asked for last is remembered as scheduled, and the last job is for it. */
  ghost predicate Scheduled(s: Store) {
    && s.scheduled == s.compacted && -1 <= s.finished <= s.compacted && (forall i | 0 <= i < |s.jobs| :: s.jobs[i].at <= s.compacted)
    && (s.jobs != [] ==> s.jobs[|s.jobs|-1].at == s.scheduled)
  }

  /** Nothing is left at or below the revision remembered as finished but what was live at it. */
  ghost predicate Tidied(s: Store, h: History) {
    forall r | r in s.backend && r.main <= s.finished :: IsLiveRev(h, s.finished, r)
  }

  lemma {:induction false} DeleteKeysKeepJobs(s: Store, ix: Index, r: int, ks: seq<Key>)
    requires DeleteKeys(s, ix, r, ks).Some?
    ensures var t := DeleteKeys(s, ix, r, ks).value; SameJobs(s, t)
    decreases |ks|
  {
    hide IndexTombstone, IndexGet;
    if ks != [] { DeleteKeysKeepJobs(Delete(s, ks[0], IndexGet(ix, ks[0], r).modified).value, ix, r, ks[1..]); }
  }

  /** Writing leaves compactions alone and adds records above the current revision only. */
  ghost predicate SameJobs(s: Store, t: Store) {
    && t.jobs == s.jobs && t.scheduled == s.scheduled && t.finished == s.finished && t.compacted == s.compacted
    && t.current.main == s.current.main && forall r | r in t.backend && r !in s.backend :: r.main > s.current.main
  }

  lemma WritesKeepJobs(s: Store, a: Act, t: Store)
    requires (a.ActPut? || a.ActDelete?) && Does(s, a, t)
    ensures SameJobs(s, t)
  {
    if a.ActDelete? {
      hide DeleteKeys, IndexKeys;
      DeleteKeysKeepJobs(s, s.index, ReadRev(s), IndexKeys(s.index, a.lo, a.end, ReadRev(s)));
    } else {
      hide IndexPut, PutKv;
    }
  }

  lemma DoesScheduled(s: Store, a: Act, t: Store)
    requires Scheduled(s) && Does(s, a, t)
    ensures Scheduled(t)
  {
    hide Batches, Compact, Put, DeleteRange;
    if a.ActPut? || a.ActDelete? {
      WritesKeepJobs(s, a, t);
    } else if a.ActCompact? {
      CompactSchedules(s, a.at);
    } else if a.ActBackground? && Batches(s, t) {
      var seen := BatchLooks(s, t);
      if |seen| >= 10000 {
        forall i | 0 < i < |t.jobs| ensures t.jobs[i] == s.jobs[i] { assert t.jobs[1..][i-1] == s.jobs[1..][i-1]; }
      }
    }
  }

  lemma CompactSchedules(s: Store, c: nat)
    requires Compact(s, c).Compacting?
    ensures var t := Compact(s, c).store;
            && t.compacted == t.scheduled == c > s.compacted && t.finished == s.finished && t.backend == s.backend && t.current == s.current
            && |t.jobs| == |s.jobs| + 1 && t.jobs[..|s.jobs|] == s.jobs && t.jobs[|s.jobs|].at == c
  {
    hide IndexCompact, IndexAvailable, IndexPanics;
  }

  lemma {:induction false} RunScheduled(run: seq<Store>, acts: seq<Act>, i: nat)
    requires IsPlay(run, acts) && i < |run|
    ensures Scheduled(run[i])
  {
    hide Does, Scheduled;
    if i == 0 {
      FirstScheduled();
    } else {
      RunScheduled(run, acts, i - 1);
      DoesScheduled(run[i-1], acts[i-1], run[i]);
    }
  }

  lemma FirstScheduled()
    ensures Scheduled(NEW_STORE)
  {
  }

  // ----- Tidy -----

  lemma {:induction false} LatestStable(h: History, g: History, k: Key, c: int)
    requires MvccSafety.Grows(h, g, c)
    ensures Latest(g, k, c) == Latest(h, k, c)
    decreases |g|
  {
    if h != g {
      var q := g[..|g|-1];
      assert h <= q && forall i | |h| <= i < |q| :: q[i] == g[i];
      LatestStable(h, q, k, c);
    }
  }

  lemma LiveStays(h: History, g: History, c: int, rev: Revision)
    requires IsLiveRev(h, c, rev) && MvccSafety.Grows(h, g, c)
    ensures IsLiveRev(g, c, rev)
  {
    hide Latest;
    var k :| IsLive(h, k, c) && Latest(h, k, c).value.rev == rev;
    LatestStable(h, g, k, c);
    assert IsLive(g, k, c) && Latest(g, k, c).value.rev == rev;
  }

  lemma TidiedByWrite(s: Store, h: History, t: Store, g: History)
    requires Tidied(s, h) && Scheduled(s) && SameJobs(s, t) && s.compacted <= s.current.main && MvccSafety.Grows(h, g, s.current.main)
    ensures Tidied(t, g)
  {
    hide IsLiveRev;
    forall r | r in t.backend && r.main <= t.finished ensures IsLiveRev(g, t.finished, r) {
      LiveStays(h, g, t.finished, r);
    }
  }

  /** The last batch of a job leaves what it keeps, which is what is live. */
  lemma TidiedByBatch(s: Store, h: History, t: Store)
    requires Tidied(s, h) && Inv(s, h) && Batches(s, t)
    ensures Tidied(t, h)
  {
    hide IndexOk, BackendOk, JobOk, NoGaps, MetaAt, IsHistory, Clock, IsLiveRev, Batches;
    var seen := BatchLooks(s, t);
    var j := s.jobs[0];
    assert JobTidy(j, s.backend, h);
    if |seen| < 10000 {
      AllSeen(s, j, seen);
      forall r | r in t.backend && r.main <= j.at ensures IsLiveRev(h, j.at, r) {
        assert r in j.keep;
      }
    }
  }

  lemma AllSeen(s: Store, j: Job, seen: set<Revision>)
    requires LooksAt(s, j, seen) && |seen| < 10000
    ensures seen == Remaining(s, j)
  {
    var rest := Remaining(s, j) - seen;
    assert Remaining(s, j) == seen + rest;
  }

  lemma PlayGrows(p: Played, a: Act)
    ensures MvccSafety.Grows(p.h, Play(p, a).h, p.rev.main)
  {
    hide PutEvent, Deletions, Ascending, LiveKeys;
    var g := Play(p, a).h;
    if a.ActPut? {
      PutEventIs(p.h, WriteRev(p), a.key, a.value, a.lease);
    } else if a.ActDelete? {
      var ks := Ascending(LiveKeys(p.h, a.lo, a.end, p.rev.main + 1));
      forall i | |p.h| <= i < |g| ensures g[i].rev.main > p.rev.main { MvccSafety.DeletionsAt(WriteRev(p), ks, i - |p.h|); }
    }
  }

  lemma DoesTidied(s: Store, p: Played, a: Act, t: Store)
    requires PlaysAs(s, p) && Tidied(s, p.h) && Scheduled(s) && Does(s, a, t)
    ensures Tidied(t, Play(p, a).h)
  {
    hide Inv, Put, DeleteRange, Compact, Batches, PutEvent, Deletions, Scheduled;
    InvBasics(s, p.h);
    if a.ActPut? || a.ActDelete? {
      WritesKeepJobs(s, a, t);
      PlayGrows(p, a);
      TidiedByWrite(s, p.h, t, Play(p, a).h);
    } else if a.ActCompact? {
      CompactSchedules(s, a.at);
    } else if a.ActBackground? && Batches(s, t) {
      TidiedByBatch(s, p.h, t);
    }
  }

  lemma {:induction false} RunTidied(run: seq<Store>, acts: seq<Act>, i: nat)
    requires IsPlay(run, acts) && i < |run|
    ensures Tidied(run[i], PlayAll(acts[..i]).h)
  {
    hide Does, Tidied, PlaysAs, Scheduled, Play;
    if i == 0 {
      FirstTidied();
    } else {
      RunTidied(run, acts, i - 1);
      RunPlays(run, acts, i - 1);
      RunScheduled(run, acts, i - 1);
      assert acts[..i][..i-1] == acts[..i-1];
      DoesTidied(run[i-1], PlayAll(acts[..i-1]), acts[i-1], run[i]);
    }
  }

  lemma FirstTidied()
    ensures Tidied(NEW_STORE, PlayAll([]).h)
  {
  }

  /** No step up to state i stops a compaction before it is finished. */
  ghost predicate NoneStopped(run: seq<Store>, i: nat) {
    forall k | 0 <= k < i && k + 1 < |run| :: run[k].jobs != [] && run[k+1].jobs == run[k].jobs[1..] ==> Batches(run[k], run[k+1])
  }

  lemma {:induction false} RunFinished(run: seq<Store>, acts: seq<Act>, i: nat)
    requires IsPlay(run, acts) && i < |run| && NoneStopped(run, i)
    ensures run[i].jobs == [] ==> run[i].finished == run[i].scheduled
  {
    hide Does, Scheduled, Batches;
    if i > 0 {
      RunFinished(run, acts, i - 1);
      RunScheduled(run, acts, i - 1);
      DoesFinished(run[i-1], acts[i-1], run[i]);
    }
  }

  lemma DoesFinished(s: Store, a: Act, t: Store)
    requires Scheduled(s) && (s.jobs == [] ==> s.finished == s.scheduled) && Does(s, a, t)
    requires s.jobs != [] && t.jobs == s.jobs[1..] ==> Batches(s, t)
    ensures t.jobs == [] ==> t.finished == t.scheduled
  {
    hide Batches, Compact, Put, DeleteRange;
    if a.ActPut? || a.ActDelete? {
      WritesKeepJobs(s, a, t);
    } else if a.ActCompact? {
      CompactSchedules(s, a.at);
    } else if a.ActBackground? && Batches(s, t) {
      var seen := BatchLooks(s, t);
    }
  }

  /** In every run: a restart finds the revision of the last compaction asked for, and the one finished last, at or below
      which nothing is left but what was live at it; unless a compaction was stopped, the two are the same once no
      compaction is under way. */
  lemma CompactionRemembered(run: seq<Store>, acts: seq<Act>, i: nat)
    requires IsPlay(run, acts) && i < |run|
    ensures run[i].finished <= run[i].scheduled == PlayAll(acts[..i]).compacted
    ensures forall r | r in run[i].backend && r.main <= run[i].finished :: IsLiveRev(PlayAll(acts[..i]).h, run[i].finished, r)
    ensures NoneStopped(run, i) && run[i].jobs == [] ==> run[i].finished == run[i].scheduled
  {
    hide Does, NoneStopped, PlayAll, IsLiveRev, Inv;
    RunPlays(run, acts, i);
    RunScheduled(run, acts, i);
    RunTidied(run, acts, i);
    if NoneStopped(run, i) { RunFinished(run, acts, i); }
  }
}
