/**
 * Reading across a restart: the store that is read back from the backend, with
 * compactions finished, scheduled or stopped halfway, answers every read above
 * the compaction revision as the store that was stopped.
 */
module MvccRestart {
  import opened Options
  import opened MvccKeyIndex
  import opened MvccKeys
  import opened MvccHistory
  import opened MvccStore
  import opened MvccInvariant
  import opened MvccRestore
  import MvccCompaction
  import MvccReadBack
  import MvccSafety

  // ----- What the backend keeps for a restart -----

  /** Some record of main revision m is left. */
  ghost predicate Recorded(b: map<Revision, Record>, m: int) { exists rev | rev in b :: rev.main == m }

  /** Compactions stay below the compaction revision, and the current revision is on record unless
      it has been compacted. */
  ghost predicate Restartable(s: Store) {
    && s.finished <= s.compacted <= s.current.main
    && (forall i | 0 <= i < |s.jobs| :: s.jobs[i].at <= s.compacted)
    && (1 < s.current.main && s.compacted < s.current.main ==> Recorded(s.backend, s.current.main))
    && (s.current.sub > 0 ==> Recorded(s.backend, s.current.main + 1))
  }

  /** One more record at the next revision. */
  lemma WriteRestartable(s: Store, t: Store, rec: Record)
    requires Restartable(s) && t.backend == s.backend[NextRev(s) := rec] && t.current == s.current.(sub := s.current.sub + 1)
    requires t.finished == s.finished && t.compacted == s.compacted && t.jobs == s.jobs
    ensures Restartable(t)
  {
    assert NextRev(s) in t.backend;
    if Recorded(s.backend, s.current.main) {
      var rev :| rev in s.backend && rev.main == s.current.main;
      assert rev in t.backend;
    }
  }

  lemma {:induction false} DeleteKeysRestartable(s: Store, ix: Index, r: int, ks: seq<Key>)
    requires Restartable(s) && DeleteKeys(s, ix, r, ks).Some?
    ensures Restartable(DeleteKeys(s, ix, r, ks).value)
    decreases |ks|
  {
    hide Restartable, IndexTombstone, IndexGet;
    if ks != [] {
      var t := Delete(s, ks[0], IndexGet(ix, ks[0], r).modified).value;
      WriteRestartable(s, t, t.backend[NextRev(s)]);
      DeleteKeysRestartable(t, ix, r, ks[1..]);
    }
  }

  lemma PutRestartable(s: Store, k: Key, value: seq<Byte>, lease: nat)
    requires Restartable(s) && Put(s, k, value, lease).Some?
    ensures Restartable(Put(s, k, value, lease).value)
  {
    hide Restartable, IndexPut, PutKv;
    var t := Put(s, k, value, lease).value;
    WriteRestartable(s, t, t.backend[NextRev(s)]);
  }

  /** Records above the compaction revision stay. */
  lemma KeptAbove(b: map<Revision, Record>, gone: set<Revision>, c: int, m: int)
    requires Recorded(b, m) && m > c && forall r | r in gone :: r.main <= c
    ensures Recorded(Without(b, gone), m)
  {
    var rev :| rev in b && rev.main == m;
    assert rev in Without(b, gone);
  }

  lemma BatchRestartable(s: Store, t: Store)
    requires Restartable(s) && Batches(s, t)
    ensures Restartable(t)
  {
    hide Recorded, IsBatch;
    var j, m := s.jobs[0], s.current.main;
    var gone: set<Revision>;
    if |Remaining(s, j)| < BATCH_SIZE && t == AfterLastBatch(s, j) {
      gone := Remaining(s, j) - j.keep;
    } else {
      var u :| IsBatch(s, j, u) && t == AfterBatch(s, j, u);
      gone := (set r | r in Remaining(s, j) && !Before(u, r)) - j.keep;
    }
    assert t.backend == Without(s.backend, gone);
    if 1 < m && s.compacted < m { KeptAbove(s.backend, gone, s.compacted, m); }
    if s.current.sub > 0 { KeptAbove(s.backend, gone, s.compacted, m + 1); }
  }

  lemma CompactRestartable(s: Store, c: nat)
    requires Restartable(s) && Compact(s, c).Compacting?
    ensures Restartable(Compact(s, c).store)
  {
    hide Recorded, IndexCompact, IndexAvailable, IndexPanics;
  }

  lemma NextRestartable(s: Store, t: Store)
    requires Restartable(s) && Next(s, t)
    ensures Restartable(t)
  {
    hide Put, DeleteRange, Compact, Batches, Recorded;
    if k, value, lease :| Put(s, k, value, lease) == Some(t) {
      PutRestartable(s, k, value, lease);
    } else if lo, end :| DeleteRange(s, lo, end) == Some(t) {
      DeleteRangeRestartable(s, lo, end);
    } else if c :| Compact(s, c) == Compacting(t) {
      CompactRestartable(s, c);
    } else if Batches(s, t) {
      BatchRestartable(s, t);
    }
  }

  lemma DeleteRangeRestartable(s: Store, lo: Key, end: Option<Key>)
    requires Restartable(s) && DeleteRange(s, lo, end).Some?
    ensures Restartable(DeleteRange(s, lo, end).value)
  {
    DeleteKeysRestartable(s, s.index, ReadRev(s), IndexKeys(s.index, lo, end, ReadRev(s)));
  }

  lemma {:induction false} RunRestartable(run: seq<Store>, i: nat)
    requires IsRun(run) && i < |run|
    ensures Restartable(run[i])
    decreases i
  {
    hide Next;
    if i > 0 {
      RunRestartable(run, i - 1);
      assert Next(run[i-1], run[i]);
      NextRestartable(run[i-1], run[i]);
    }
  }

  // ----- The revision after a restart -----

  lemma BackendIsHistory(s: Store, h: History, es: History)
    requires Inv(s, h) && IsListing(es, s.backend)
    ensures forall e | e in es :: e in h
  {
    hide Inv, IsListing;
    ListingIsSurviving(s, h, es);
    forall e | e in es ensures e in h { SurvivingAre(h, s.backend, e); }
  }

  /** Unless everything has been compacted, a restart between transactions comes back to the same revision. */
  lemma RevisionRestored(s: Store, h: History, es: History)
    requires Inv(s, h) && Restartable(s) && s.current.sub == 0 && s.compacted < s.current.main && IsListing(es, s.backend)
    ensures if es == [] then s.current.main == 1 else es[|es|-1].rev.main == s.current.main
  {
    hide Inv;
    BackendIsHistory(s, h, es);
    InvBasics(s, h);
    if es != [] { assert es[|es|-1] in es; }
    if 1 < s.current.main {
      var rev :| rev in s.backend && rev.main == s.current.main;
      var e := Event(rev, s.backend[rev]);
      assert e in es;
      var i :| 0 <= i < |es| && es[i] == e;
    }
  }

  // ----- Reads -----

  lemma KeysRestored(s: Store, h: History, es: History, lo: Key, end: Option<Key>, r: int)
    requires Inv(s, h) && IsListing(es, s.backend) && s.compacted <= r
    ensures RestoreIndex(es).Some? && IndexKeys(RestoreIndex(es).value, lo, end, r) == IndexKeys(s.index, lo, end, r)
    ensures forall k :: SameLookup(IndexGet(RestoreIndex(es).value, k, r), IndexGet(s.index, k, r))
  {
    hide Inv, IsListing, Get, RestoreIndex, Ascending;
    RestoreRefines(s, h, es, [], r);
    var ix := RestoreIndex(es).value;
    forall k ensures SameLookup(IndexGet(ix, k, r), IndexGet(s.index, k, r)) { RestoreRefines(s, h, es, k, r); }
    assert (set k | k in ix && InRange(k, lo, end) && IndexGet(ix, k, r).Found?) ==
           (set k | k in s.index && InRange(k, lo, end) && IndexGet(s.index, k, r).Found?);
  }

  /** Snapshot reads survive a restart: stopped at any moment between transactions, also between two
      batches of a compaction, and read back, the store returns for every revision above the
      compaction revision what it returned before. */
  lemma RestartReadsStable(run: seq<Store>, i: nat, es: History, lo: Key, end: Option<Key>, limit: int, r: int)
    requires IsRun(run) && i < |run| && run[i].current.sub == 0 && IsListing(es, run[i].backend)
    requires run[i].compacted < r && 0 < r <= run[i].current.main
    ensures Reopened(run[i].backend, run[i].finished, run[i].scheduled, es).Some?
    ensures var t := BeginTxn(Reopened(run[i].backend, run[i].finished, run[i].scheduled, es).value);
            && t.current.main == run[i].current.main
            && Range(t, lo, end, limit, r) == Range(run[i], lo, end, limit, r)
            && Range(t, lo, end, limit, r).Kvs?
  {
    hide IsRun, Inv, IsListing, RestoreIndex, IndexKeys, Restartable, RangeAt, IndexGet, AllPresent, Fetch;
    var s := run[i];
    var hs := MvccSafety.RunHistories(run);
    RunRestartable(run, i);
    FinishedBelow(s);
    RevisionRestored(s, hs[i], es);
    KeysRestored(s, hs[i], es, lo, end, r);
    RangeIs(s, hs[i], lo, end, limit, r);
    var t := BeginTxn(Reopened(s.backend, s.finished, s.scheduled, es).value);
    SameFetched(s, t, r, Limited(IndexKeys(s.index, lo, end, r), limit));
  }

  lemma FinishedBelow(s: Store)
    requires Restartable(s)
    ensures s.finished <= s.compacted
  {
  }

  lemma SameFetched(s: Store, t: Store, r: int, ks: seq<Key>)
    requires t.backend == s.backend && forall k :: SameLookup(IndexGet(t.index, k, r), IndexGet(s.index, k, r))
    ensures AllPresent(t, r, ks) == AllPresent(s, r, ks)
    ensures AllPresent(s, r, ks) ==> Fetch(t, r, ks) == Fetch(s, r, ks)
  {
    hide IndexGet;
    forall k | k in ks ensures SameLookup(IndexGet(t.index, k, r), IndexGet(s.index, k, r)) {}
  }

  // ----- Resuming a compaction -----

  /** Only the last generation may be without revisions, and it is not the only one. */
  ghost predicate Sound(ki: KeyIndex) {
    ki.generations != [] && !IsEmpty(ki) && forall j | 0 <= j < |ki.generations| - 1 :: ki.generations[j].revs != []
  }

  lemma {:induction false} SoundSearch(gs: seq<Generation>, c: int, i: nat)
    requires i < |gs| && forall j | 0 <= j < |gs| - 1 :: gs[j].revs != []
    ensures CanSearch(gs, c, i)
    decreases |gs| - i
  {
    if i < |gs| - 1 { SoundSearch(gs, c, i + 1); }
  }

  lemma SoundCompacts(ki: KeyIndex, c: int)
    requires Sound(ki)
    ensures !CompactPanics(ki, c)
  {
    SoundSearch(ki.generations, c, 0);
  }

  lemma SoundWrites(ki: KeyIndex, rev: Revision)
    requires Sound(ki)
    ensures KeyPut(ki, rev).Some? ==> Sound(KeyPut(ki, rev).value)
    ensures Tombstone(ki, rev).Tombed? ==> Sound(Tombstone(ki, rev).ki)
  {
  }

  lemma {:induction false} RestoredSound(es: History)
    requires RestoreIndex(es).Some?
    ensures forall k | k in RestoreIndex(es).value :: Sound(RestoreIndex(es).value[k])
  {
    if es != [] {
      var p, e := es[..|es|-1], es[|es|-1];
      hide Sound, KeyPut, Tombstone;
      RestoredSound(p);
      var ix, k := RestoreIndex(p).value, KeyOf(e);
      if k in ix { SoundWrites(ix[k], e.rev); }
      FirstSound(Revision(e.record.kv.create, 0), e.rev, e.record.kv.version);
    }
  }

  lemma FirstSound(created: Revision, modified: Revision, ver: int)
    ensures Sound(Restored(created, modified, ver))
  {
  }

  /** A restart between transactions finds the compaction that was finished last, and resumes the one asked for last
      exactly if it was not finished: the request is always accepted and leads to the compaction revision there was. */
  lemma CompactionResumed(run: seq<Store>, i: nat, es: History)
    requires IsRun(run) && i < |run| && run[i].current.sub == 0 && IsListing(es, run[i].backend) && run[i].compacted < run[i].current.main
    ensures Reopened(run[i].backend, run[i].finished, run[i].scheduled, es).Some?
    ensures var t := BeginTxn(Reopened(run[i].backend, run[i].finished, run[i].scheduled, es).value);
            && t.compacted == run[i].finished && t.scheduled == run[i].compacted && t.jobs == []
            && (t.scheduled > t.compacted ==>
                  t.scheduled >= 0 && Compact(t, t.scheduled).Compacting? && Compact(t, t.scheduled).store.compacted == run[i].compacted)
  {
    hide IsRun, Inv, IsListing, RestoreIndex, Restartable, CompactPanics, IndexCompact, IndexAvailable, Sound;
    var s := run[i];
    var hs := MvccSafety.RunHistories(run);
    RunRestartable(run, i);
    FinishedBelow(s);
    RevisionRestored(s, hs[i], es);
    KeysRestored(s, hs[i], es, [], None, s.current.main);
    var acts := MvccReadBack.EveryRunPlays(run);
    MvccCompaction.RunScheduled(run, acts, i);
    RestoredSound(es);
    var t := BeginTxn(Reopened(s.backend, s.finished, s.scheduled, es).value);
    forall k | k in t.index ensures !CompactPanics(t.index[k], t.scheduled) { SoundCompacts(t.index[k], t.scheduled); }
  }
}
