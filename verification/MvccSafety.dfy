/** What holds over every run of the store. */
module MvccSafety {
  import opened Options
  import opened MvccKeyIndex
  import opened MvccKeys
  import opened MvccHistory
  import opened MvccStore
  import opened MvccInvariant

  /** The history only grows, by events after revision r. */
  ghost predicate Grows(h: History, g: History, r: int) {
    h <= g && forall i | |h| <= i < |g| :: g[i].rev.main > r
  }

  lemma {:induction false} DeletionsAt(rev: Revision, ks: seq<Key>, i: nat)
    requires i < |Deletions(rev, ks)|
    ensures Deletions(rev, ks)[i].rev.main == rev.main
    decreases |ks|
  {
    if i > 0 { DeletionsAt(rev.(sub := rev.sub + 1), ks[1..], i - 1); }
  }

  /** t follows s: the invariant holds with a longer history, and nothing moves backwards. */
  ghost predicate Advances(s: Store, h: History, t: Store, g: History) {
    Inv(t, g) && Grows(h, g, s.current.main) && s.current.main <= t.current.main && s.compacted <= t.compacted
  }

  lemma PutAdvances(s: Store, h: History, k: Key, value: seq<Byte>, lease: nat) returns (g: History)
    requires Inv(s, h) && Put(s, k, value, lease).Some?
    ensures Advances(s, h, Put(s, k, value, lease).value, g)
  {
    hide Inv, Put, PutKv;
    PutKeeps(s, h, k, value, lease);
    PutMoves(s, k, value, lease);
    g := h + [PutEvent(h, NextRev(s), k, value, lease)];
  }

  lemma DeleteRangeAdvances(s: Store, h: History, lo: Key, end: Option<Key>) returns (g: History)
    requires Inv(s, h) && DeleteRange(s, lo, end).Some?
    ensures Advances(s, h, DeleteRange(s, lo, end).value, g)
  {
    hide Inv, DeleteRange, Ascending;
    DeleteRangeKeeps(s, h, lo, end);
    DeleteRangeMoves(s, lo, end);
    var ks := Ascending(LiveKeys(h, lo, end, ReadRev(s)));
    g := h + Deletions(NextRev(s), ks);
    forall i | |h| <= i < |g| ensures g[i].rev.main > s.current.main { DeletionsAt(NextRev(s), ks, i - |h|); }
  }

  lemma CompactAdvances(s: Store, h: History, c: nat)
    requires Inv(s, h) && Compact(s, c).Compacting?
    ensures Advances(s, h, Compact(s, c).store, h)
  {
    hide Inv, Compact;
    CompactKeeps(s, h, c);
    CompactMoves(s, c);
  }

  lemma BatchAdvances(s: Store, h: History, t: Store)
    requires Inv(s, h) && (Batches(s, t) || t == EndTxn(s) || (s.jobs != [] && t == s.(jobs := s.jobs[1..])))
    ensures Advances(s, h, t, h)
  {
    hide Inv, Batches;
    if Batches(s, t) {
      BatchKeeps(s, h, t);
      BatchMoves(s, t);
    } else if t == EndTxn(s) {
      EndTxnKeeps(s, h);
    } else {
      StopKeeps(s, h);
    }
  }

  /** Every step keeps the invariant and appends to the history. */
  lemma NextKeeps(s: Store, h: History, t: Store) returns (g: History)
    requires Inv(s, h) && Next(s, t)
    ensures Advances(s, h, t, g)
  {
    hide Inv, Put, DeleteRange, Compact, Batches, Advances, EndTxn;
    if k, value, lease :| Put(s, k, value, lease) == Some(t) {
      g := PutAdvances(s, h, k, value, lease);
    } else if lo, end :| DeleteRange(s, lo, end) == Some(t) {
      g := DeleteRangeAdvances(s, h, lo, end);
    } else if c :| Compact(s, c) == Compacting(t) {
      CompactAdvances(s, h, c);
      g := h;
    } else {
      BatchAdvances(s, h, t);
      g := h;
    }
  }

  lemma PutMoves(s: Store, k: Key, value: seq<Byte>, lease: nat)
    requires Put(s, k, value, lease).Some?
    ensures var t := Put(s, k, value, lease).value; t.current.main == s.current.main && t.compacted == s.compacted
  {
  }

  lemma {:induction false} DeleteKeysMoves(s: Store, ix: Index, r: int, ks: seq<Key>)
    requires DeleteKeys(s, ix, r, ks).Some?
    ensures var t := DeleteKeys(s, ix, r, ks).value; t.current.main == s.current.main && t.compacted == s.compacted
    decreases |ks|
  {
    hide IndexTombstone;
    if ks != [] { DeleteKeysMoves(Delete(s, ks[0], IndexGet(ix, ks[0], r).modified).value, ix, r, ks[1..]); }
  }

  lemma DeleteRangeMoves(s: Store, lo: Key, end: Option<Key>)
    requires DeleteRange(s, lo, end).Some?
    ensures var t := DeleteRange(s, lo, end).value; t.current.main == s.current.main && t.compacted == s.compacted
  {
    DeleteKeysMoves(s, s.index, ReadRev(s), IndexKeys(s.index, lo, end, ReadRev(s)));
  }

  lemma CompactMoves(s: Store, c: nat)
    requires Compact(s, c).Compacting?
    ensures Compact(s, c).store.current == s.current && s.compacted <= Compact(s, c).store.compacted
  {
    hide IndexCompact, IndexAvailable;
  }

  lemma BatchMoves(s: Store, t: Store)
    requires Batches(s, t)
    ensures t.current == s.current && t.compacted == s.compacted
  {
  }

  lemma StopKeeps(s: Store, h: History)
    requires Inv(s, h) && s.jobs != []
    ensures Inv(s.(jobs := s.jobs[1..]), h)
  {
    hide IndexOk, JobOk, MetaAt, JobTidy, NoGaps, IsHistory, Clock, BackendOk;
  }

  // ----- Runs -----

  ghost predicate Histories(run: seq<Store>, hs: seq<History>) {
    && |hs| == |run|
    && (forall i | 0 <= i < |run| :: Inv(run[i], hs[i]))
    && (forall i | 0 <= i < |run| - 1 :: StepGrows(run, hs, i))
  }

  ghost predicate StepGrows(run: seq<Store>, hs: seq<History>, i: nat)
    requires i + 1 < |run| == |hs|
  {
    && Grows(hs[i], hs[i+1], run[i].current.main)
    && run[i].current.main <= run[i+1].current.main && run[i].compacted <= run[i+1].compacted
  }

  lemma {:induction false} RunHistories(run: seq<Store>) returns (hs: seq<History>)
    requires IsRun(run)
    ensures Histories(run, hs)
  {
    hide Inv, Next, Grows;
    var last := |run| - 1;
    if last == 0 {
      InitialInv();
      hs := [[]];
    } else {
      var pre := run[..last];
      assert forall i | 0 <= i < |pre| :: pre[i] == run[i];
      var hs' := RunHistories(pre);
      assert Next(run[last-1], run[last]);
      var g := NextKeeps(run[last-1], hs'[last-1], run[last]);
      hs := hs' + [g];
      forall i | 0 <= i < last ensures StepGrows(run, hs, i) {
        if i < last - 1 { assert StepGrows(pre, hs', i); }
      }
    }
  }

  lemma {:induction false} HistoryGrows(run: seq<Store>, hs: seq<History>, i: nat, j: nat)
    requires Histories(run, hs) && i <= j < |run|
    ensures Grows(hs[i], hs[j], run[i].current.main)
    ensures run[i].current.main <= run[j].current.main && run[i].compacted <= run[j].compacted
    decreases j
  {
    hide Inv;
    if i < j {
      HistoryGrows(run, hs, i, j - 1);
      assert StepGrows(run, hs, j - 1);
    }
  }

  lemma {:induction false} RangeUnchanged(h: History, g: History, lo: Key, end: Option<Key>, r: int)
    requires Grows(h, g, r)
    ensures RangeAt(g, lo, end, r) == RangeAt(h, lo, end, r)
    decreases |g|
  {
    if |h| < |g| {
      var n := |g| - 1;
      assert g == g[..n] + [g[n]];
      RangeStable(g[..n], g[n], lo, end, r);
      RangeUnchanged(h, g[..n], lo, end, r);
    } else {
      assert h == g;
    }
  }

  /** Snapshot reads are stable: once revision r has been reached, every range read at r returns
      the same key-values at all later times, through puts, deletes, transactions, compactions and
      partly executed background compactions, until r itself is compacted. */
  lemma SnapshotReadsStable(run: seq<Store>, i: nat, j: nat, lo: Key, end: Option<Key>, limit: int, r: int)
    requires IsRun(run) && i <= j < |run| && 0 < r <= run[i].current.main && run[j].compacted < r
    ensures Range(run[i], lo, end, limit, r).Kvs? && Range(run[j], lo, end, limit, r).Kvs?
    ensures Range(run[i], lo, end, limit, r).kvs == Range(run[j], lo, end, limit, r).kvs
  {
    hide IsRun, Inv, Range, RangeAt;
    var hs := RunHistories(run);
    HistoryGrows(run, hs, i, j);
    RangeIs(run[i], hs[i], lo, end, limit, r);
    RangeIs(run[j], hs[j], lo, end, limit, r);
    RangeUnchanged(hs[i], hs[j], lo, end, r);
  }

  /** No operation of any run ends the process: no record that is looked up is missing, and the
      index never refuses a write or a compaction. */
  lemma NeverFatal(run: seq<Store>, i: nat, k: Key, value: seq<Byte>, lease: nat, end: Option<Key>, limit: int, r: int, c: nat)
    requires IsRun(run) && i < |run|
    ensures Put(run[i], k, value, lease).Some? && DeleteRange(run[i], k, end).Some?
    ensures Range(run[i], k, end, limit, r) != Fatal && Compact(run[i], c) != CompactFatal
  {
    hide IsRun, Inv, Put, DeleteRange, IndexPanics, IndexCompact, IndexAvailable;
    var hs := RunHistories(run);
    var s := run[i];
    PutKeeps(s, hs[i], k, value, lease);
    DeleteRangeKeeps(s, hs[i], k, end);
    IndexCompacts(s, hs[i], c);
    InvBasics(s, hs[i]);
    if r <= ReadRev(s) {
      var rev: int := if r <= 0 then ReadRev(s) else r;
      if s.compacted < rev {
        RangeIs(s, hs[i], k, end, limit, rev);
        assert Range(s, k, end, limit, r) == Range(s, k, end, limit, rev);
      }
    }
  }
}
