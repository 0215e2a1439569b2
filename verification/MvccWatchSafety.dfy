/** A watcher that keeps up with compaction receives every event of its range exactly once, in order. */
module MvccWatchSafety {
  import opened Options
  import opened MvccKeyIndex
  import opened MvccKeys
  import opened MvccHistory
  import opened MvccStore
  import opened MvccInvariant
  import opened MvccRestore
  import opened MvccWatch
  import MvccSafety

  // ----- Expected events -----

  lemma ExpectedAppend(h: History, e: Event, lo: Key, end: Option<Key>, a: int, b: int)
    ensures Expected(h + [e], lo, end, a, b) ==
            Expected(h, lo, end, a, b) + if Concerns(e, lo, end, a, b) then [ToWatch(e)] else []
  {
    assert (h + [e])[..|h|] == h;
  }

  lemma {:induction false} ExpectedConcat(h: History, g: History, lo: Key, end: Option<Key>, a: int, b: int)
    ensures Expected(h + g, lo, end, a, b) == Expected(h, lo, end, a, b) + Expected(g, lo, end, a, b)
    decreases |g|
  {
    if g == [] {
      assert h + g == h;
    } else {
      var p, e := g[..|g|-1], g[|g|-1];
      assert h + g == (h + p) + [e] && g == p + [e];
      ExpectedConcat(h, p, lo, end, a, b);
      ExpectedAppend(h + p, e, lo, end, a, b);
      ExpectedAppend(p, e, lo, end, a, b);
    }
  }

  lemma {:induction false} ExpectedNone(h: History, lo: Key, end: Option<Key>, a: int, b: int)
    requires forall e | e in h :: !(a <= e.rev.main <= b)
    ensures Expected(h, lo, end, a, b) == []
  {
    if h != [] {
      assert h[|h|-1] in h;
      ExpectedNone(h[..|h|-1], lo, end, a, b);
    }
  }

  /** Bounds that differ only where there are no events do not matter. */
  lemma {:induction false} ExpectedSame(h: History, lo: Key, end: Option<Key>, a: int, b: int, a': int, b': int)
    requires forall e | e in h :: (a <= e.rev.main <= b) == (a' <= e.rev.main <= b')
    ensures Expected(h, lo, end, a, b) == Expected(h, lo, end, a', b')
  {
    if h != [] {
      assert h[|h|-1] in h;
      ExpectedSame(h[..|h|-1], lo, end, a, b, a', b');
    }
  }

  lemma {:induction false} ExpectedSplit(h: History, lo: Key, end: Option<Key>, a: int, m: int, b: int)
    requires Increasing(h) && a <= m <= b + 1
    ensures Expected(h, lo, end, a, b) == Expected(h, lo, end, a, m - 1) + Expected(h, lo, end, m, b)
  {
    if h != [] {
      var p, e := h[..|h|-1], h[|h|-1];
      ExpectedSplit(p, lo, end, a, m, b);
      if e.rev.main < m {
        forall f | f in p ensures f.rev.main < m {
          var i :| 0 <= i < |p| && p[i] == f;
          assert Before(h[i].rev, h[|h|-1].rev);
        }
        ExpectedNone(p, lo, end, m, b);
      }
    }
  }

  /** Every event carries the revision it happened at. */
  ghost predicate Dated(h: History) {
    forall e | e in h :: e.rev.main > 0 && ToWatch(e).kv.mod == e.rev.main
  }

  ghost predicate Between(evs: seq<WatchEvent>, a: int, b: int) {
    forall i | 0 <= i < |evs| :: a <= evs[i].kv.mod <= b
  }

  lemma {:induction false} ExpectedOrdered(h: History, lo: Key, end: Option<Key>, a: int, b: int)
    requires Increasing(h) && Dated(h)
    ensures Ordered(Expected(h, lo, end, a, b)) && Between(Expected(h, lo, end, a, b), a, b)
    ensures h != [] ==> Between(Expected(h, lo, end, a, b), a, h[|h|-1].rev.main)
  {
    if h != [] {
      var p, e := h[..|h|-1], h[|h|-1];
      assert forall f | f in p :: f in h;
      assert e in h;
      ExpectedOrdered(p, lo, end, a, b);
      if p != [] { assert Before(h[|p|-1].rev, h[|p|].rev); }
    }
  }

  /** Where the revisions pass m. */
  lemma CutAt(x: seq<WatchEvent>, y: seq<WatchEvent>, n: nat, m: nat)
    requires 0 < n < |x + y| && (x + y)[n-1].kv.mod < m <= (x + y)[n].kv.mod
    requires (forall i | 0 <= i < |x| :: x[i].kv.mod < m) && (forall i | 0 <= i < |y| :: y[i].kv.mod >= m)
    ensures |x| == n && (x + y)[..n] == x
  {
  }

  /** A full batch holds exactly the expected events before moreRev. */
  lemma BatchIsExpected(h: History, lo: Key, end: Option<Key>, a: int, b: int)
    requires Increasing(h) && Dated(h)
    ensures var evs := Expected(h, lo, end, a, b);
            var eb := BatchOf(evs);
            && (evs == [] <==> eb.evs == [])
            && (eb.moreRev == 0 ==> eb.evs == evs)
            && (eb.moreRev != 0 ==> a <= eb.moreRev <= b && eb.evs == Expected(h, lo, end, a, eb.moreRev - 1))
  {
    hide Expected, BatchOf;
    var evs := Expected(h, lo, end, a, b);
    var eb := BatchOf(evs);
    ExpectedOrdered(h, lo, end, a, b);
    BatchSplits(evs);
    if eb.moreRev != 0 {
      var m, n := eb.moreRev, |eb.evs|;
      ExpectedSplit(h, lo, end, a, m, b);
      ExpectedOrdered(h, lo, end, a, m - 1);
      ExpectedOrdered(h, lo, end, m, b);
      var x, y := Expected(h, lo, end, a, m - 1), Expected(h, lo, end, m, b);
      CutAt(x, y, n, m);
    }
  }

  // ----- Both paths yield the expected events -----

  function WatchAll(es: History): seq<WatchEvent> {
    seq(|es|, i requires 0 <= i < |es| => ToWatch(es[i]))
  }

  lemma MatchingSnoc(w: Watcher, evs: seq<WatchEvent>, ev: WatchEvent)
    ensures Matching(w, evs + [ev]) ==
            Matching(w, evs) + if InRange(ev.kv.key, w.lo, w.end) && ev.kv.mod >= w.cur then [ev] else []
  {
    assert (evs + [ev])[..|evs|] == evs;
  }

  /** Notification: the matching events of a transaction. */
  lemma {:induction false} MatchingIsExpected(w: Watcher, es: History, b: int)
    requires Dated(es) && forall e | e in es :: e.rev.main <= b
    ensures Matching(w, WatchAll(es)) == Expected(es, w.lo, w.end, w.cur, b)
  {
    if es != [] {
      var p, e := es[..|es|-1], es[|es|-1];
      assert e in es && forall f | f in p :: f in es;
      MatchingIsExpected(w, p, b);
      assert WatchAll(es) == WatchAll(p) + [ToWatch(e)];
      MatchingSnoc(w, WatchAll(p), ToWatch(e));
    }
  }

  /** Catching up: what matches in the surviving records is what the history holds, if everything
      from cur on has survived. */
  lemma {:induction false} CatchUpIsExpected(ws: Watchers, id: nat, h: History, b: map<Revision, Record>, minRev: int, curRev: int)
    requires id in ws && !ws[id].synced && minRev <= ws[id].cur && Dated(h)
    requires forall e | e in h && e.rev.main >= ws[id].cur :: e.rev in b
    ensures Matching(ws[id], CatchUp(ws, Surviving(h, b), minRev, curRev)) ==
            Expected(h, ws[id].lo, ws[id].end, ws[id].cur, curRev)
  {
    if h != [] {
      hide InRange, CatchUp, Matching, Expected;
      var w, p, e := ws[id], h[..|h|-1], h[|h|-1];
      assert h == p + [e];
      assert e in h && forall f | f in p :: f in h;
      CatchUpIsExpected(ws, id, p, b, minRev, curRev);
      ExpectedAppend(p, e, w.lo, w.end, w.cur, curRev);
      var s := Surviving(p, b);
      if e.rev in b {
        CatchUpSnoc(ws, s, e, minRev, curRev);
        if minRev <= e.rev.main <= curRev && Watched(ws, KeyOf(e)) {
          MatchingSnoc(w, CatchUp(ws, s, minRev, curRev), ToWatch(e));
        } else {
          assert CatchUp(ws, s + [e], minRev, curRev) == CatchUp(ws, s, minRev, curRev);
          assert InRange(KeyOf(e), w.lo, w.end) ==> Watched(ws, KeyOf(e));
        }
      }
    } else {
      assert Surviving(h, b) == [] && CatchUp(ws, [], minRev, curRev) == [] && Matching(ws[id], []) == [];
    }
  }

  lemma CatchUpSnoc(ws: Watchers, es: History, e: Event, minRev: int, curRev: int)
    ensures CatchUp(ws, es + [e], minRev, curRev) == CatchUp(ws, es, minRev, curRev) +
              if minRev <= e.rev.main <= curRev && Watched(ws, KeyOf(e)) then [ToWatch(e)] else []
  {
    assert (es + [e])[..|es|] == es;
  }

  // ----- What has been sent -----

  function Flat(sent: seq<seq<WatchEvent>>): seq<WatchEvent> {
    if sent == [] then [] else Flat(sent[..|sent|-1]) + sent[|sent|-1]
  }

  /** Batches are not empty, and no revision is spread over two of them. */
  ghost predicate Unsplit(sent: seq<seq<WatchEvent>>) {
    && (forall i | 0 <= i < |sent| :: sent[i] != [])
    && (forall i, j | 0 <= i < j < |sent| :: AllBefore(sent[i], sent[j]))
  }

  ghost predicate AllBefore(a: seq<WatchEvent>, b: seq<WatchEvent>) {
    forall i, j | 0 <= i < |a| && 0 <= j < |b| :: a[i].kv.mod < b[j].kv.mod
  }

  lemma {:induction false} PartBetween(sent: seq<seq<WatchEvent>>, i: nat, a: int, b: int)
    requires i < |sent| && Between(Flat(sent), a, b)
    ensures Between(sent[i], a, b)
  {
    var p := sent[..|sent|-1];
    var x, y := Flat(p), sent[|sent|-1];
    assert forall k | 0 <= k < |x| :: (x + y)[k] == x[k];
    assert forall k | 0 <= k < |y| :: (x + y)[|x| + k] == y[k];
    if i < |p| { PartBetween(p, i, a, b); }
  }

  lemma SendKeeps(sent: seq<seq<WatchEvent>>, batch: seq<WatchEvent>, a: int, m: int, b: int)
    requires Unsplit(sent) && batch != [] && Between(Flat(sent), a, m - 1) && Between(batch, m, b)
    ensures Unsplit(sent + [batch]) && Flat(sent + [batch]) == Flat(sent) + batch
  {
    assert (sent + [batch])[..|sent|] == sent;
    forall i | 0 <= i < |sent| ensures AllBefore(sent[i], batch) { PartBetween(sent, i, a, m - 1); }
  }

  /** A watcher has received everything from its start up to the current revision, or up to where
      it stands if it is catching up. */
  ghost predicate WatcherOk(w: Watcher, h: History, cur: nat) {
    && Unsplit(w.sent) && w.cur >= 1
    && (w.synced ==> w.from == w.cur || w.from <= w.cur <= cur)
    && (!w.synced ==> w.from <= w.cur <= cur)
    && Flat(w.sent) == Expected(h, w.lo, w.end, w.from, if w.synced then cur else w.cur - 1)
  }

  lemma NewWatcherOk(s: Store, h: History, lo: Key, end: Option<Key>, start: nat)
    requires Inv(s, h) && s.current.sub == 0
    ensures var w := NewWatcher(lo, end, start, s.current.main);
            && WatcherOk(w, h, s.current.main) && w.lo == lo && w.end == end && w.sent == []
            && w.from == w.cur == (if start == 0 then s.current.main + 1 else start)
            && (w.synced <==> start == 0 || start > s.current.main)
  {
    hide IndexOk, BackendOk, JobOk, JobTidy, NoGaps, MetaAt, IsHistory;
    var w := NewWatcher(lo, end, start, s.current.main);
    ExpectedNone(h, lo, end, w.from, if w.synced then s.current.main else w.cur - 1);
  }

  // ----- Transactions -----

  /** The transaction so far: ext are its events, all at the next revision. */
  ghost predicate InTxn(s: Store, h: History, t: Store, ext: History) {
    && Inv(t, h + ext) && t.current.main == s.current.main && t.compacted == s.compacted
    && t.changes == KvsOf(ext) && t.current.sub == |ext|
    && forall e | e in ext :: e.rev.main == s.current.main + 1
  }

  function KvsOf(es: History): seq<KeyValue> {
    seq(|es|, i requires 0 <= i < |es| => es[i].record.kv)
  }

  lemma {:induction false} DeleteKeysRecords(s: Store, ix: Index, r: int, ks: seq<Key>)
    requires DeleteKeys(s, ix, r, ks).Some?
    ensures var t, ext := DeleteKeys(s, ix, r, ks).value, Deletions(NextRev(s), ks);
            && t.changes == s.changes + KvsOf(ext) && t.current == s.current.(sub := s.current.sub + |ext|)
            && t.compacted == s.compacted
    decreases |ks|
  {
    hide IndexTombstone, IndexGet;
    if ks != [] {
      var t := Delete(s, ks[0], IndexGet(ix, ks[0], r).modified).value;
      DeleteKeysRecords(t, ix, r, ks[1..]);
      var rest := Deletions(NextRev(t), ks[1..]);
      assert Deletions(NextRev(s), ks) == [Event(NextRev(s), TombRecord(ks[0]))] + rest;
      assert KvsOf(Deletions(NextRev(s), ks)) == [TombRecord(ks[0]).kv] + KvsOf(rest);
    }
  }

  /** What an operation adds to the history, from its arguments and the history alone: a put its
      record, a deletion a tombstone for each live key of the range, in order. */
  ghost function OpEvents(h: History, rev: Revision, op: Op): History {
    match op
    case OpPut(k, v, l) => [PutEvent(h, rev, k, v, l)]
    case OpDelete(lo, end) => Deletions(rev, Ascending(LiveKeys(h, lo, end, rev.main)))
  }

  /** What a transaction at main revision main adds to the history. */
  ghost function OpsEvents(h: History, main: nat, ops: seq<Op>): History {
    if ops == [] then []
    else
      var p := OpsEvents(h, main, ops[..|ops|-1]);
      p + OpEvents(h + p, Revision(main, |p|), ops[|ops|-1])
  }

  lemma OpInTxn(s: Store, h: History, t: Store, ext: History, op: Op)
    requires InTxn(s, h, t, ext) && RunOp(t, op).Some?
    ensures InTxn(s, h, RunOp(t, op).value, ext + OpEvents(h + ext, NextRev(t), op))
  {
    hide Inv, Put, DeleteRange, IndexGet, InTxn;
    match op
    case OpPut(k, v, l) => PutInTxn(s, h, t, ext, k, v, l);
    case OpDelete(lo, end) => DeleteInTxn(s, h, t, ext, lo, end);
  }

  lemma PutInTxn(s: Store, h: History, t: Store, ext: History, k: Key, v: seq<Byte>, l: nat)
    requires InTxn(s, h, t, ext) && Put(t, k, v, l).Some?
    ensures InTxn(s, h, Put(t, k, v, l).value, ext + OpEvents(h + ext, NextRev(t), OpPut(k, v, l)))
  {
    hide Inv, PutKv, IndexPut, PutEvent;
    PutKeeps(t, h + ext, k, v, l);
    var e := PutEvent(h + ext, NextRev(t), k, v, l);
    PutMeta(t, h + ext, k, v, l);
    PutEventIs(h + ext, NextRev(t), k, v, l);
    var ext' := ext + [e];
    assert (h + ext) + [e] == h + ext';
    assert KvsOf(ext') == KvsOf(ext) + [e.record.kv];
  }

  lemma DeleteInTxn(s: Store, h: History, t: Store, ext: History, lo: Key, end: Option<Key>)
    requires InTxn(s, h, t, ext) && DeleteRange(t, lo, end).Some?
    ensures InTxn(s, h, DeleteRange(t, lo, end).value, ext + OpEvents(h + ext, NextRev(t), OpDelete(lo, end)))
  {
    hide Inv, Ascending, DeleteKeys, IndexKeys;
    var ks := Ascending(LiveKeys(h + ext, lo, end, ReadRev(t)));
    DeleteRangeKeeps(t, h + ext, lo, end);
    InvBasics(t, h + ext);
    IndexKeysAre(t, h + ext, lo, end, ReadRev(t));
    LiveKeysNow(t, h + ext, lo, end);
    DeleteKeysRecords(t, t.index, ReadRev(t), ks);
    var del := Deletions(NextRev(t), ks);
    var ext' := ext + del;
    assert (h + ext) + del == h + ext';
    assert KvsOf(ext') == KvsOf(ext) + KvsOf(del);
    forall e | e in ext' ensures e.rev.main == s.current.main + 1 {
      if e in del {
        var i :| 0 <= i < |del| && del[i] == e;
        MvccSafety.DeletionsAt(NextRev(t), ks, i);
      }
    }
  }

  lemma {:induction false} OpsInTxn(s: Store, h: History, ops: seq<Op>)
    requires Inv(s, h) && s.current.sub == 0 && s.changes == [] && RunOps(s, ops).Some?
    ensures InTxn(s, h, RunOps(s, ops).value, OpsEvents(h, s.current.main + 1, ops))
  {
    hide Inv, RunOp, OpEvents;
    if ops == [] {
      assert h + [] == h;
    } else {
      hide InTxn;
      var p := ops[..|ops|-1];
      OpsInTxn(s, h, p);
      TxnRev(s, h, RunOps(s, p).value, OpsEvents(h, s.current.main + 1, p));
      OpInTxn(s, h, RunOps(s, p).value, OpsEvents(h, s.current.main + 1, p), ops[|ops|-1]);
    }
  }

  lemma TxnRev(s: Store, h: History, t: Store, ext: History)
    requires InTxn(s, h, t, ext)
    ensures NextRev(t) == Revision(s.current.main + 1, |ext|)
  {
  }

  // ----- One step of one watcher -----

  lemma InvDated(s: Store, h: History)
    requires Inv(s, h)
    ensures Increasing(h) && Dated(h)
  {
    hide IndexOk, BackendOk, JobOk, JobTidy, NoGaps, WellFormed;
    forall e | e in h ensures e.rev.main > 0 && ToWatch(e).kv.mod == e.rev.main { assert MetaAt(h, e); }
  }

  /** The changes of a transaction, as events, are what its writes look like to a watcher. */
  lemma TxnEventsAre(t: Store, h: History, ext: History, rev: nat)
    requires Inv(t, h + ext) && forall e | e in ext :: e.rev.main == rev
    ensures TxnEvents(KvsOf(ext), rev) == WatchAll(ext)
  {
    hide IndexOk, BackendOk, JobOk, JobTidy, NoGaps;
    forall i | 0 <= i < |ext| ensures TxnEvents(KvsOf(ext), rev)[i] == WatchAll(ext)[i] {
      var e := ext[i];
      assert e in ext && e in h + ext;
      assert MetaAt(h + ext, e);
      if !e.record.tomb { CreatedSomewhere(t, h + ext, e); }
    }
  }

  lemma CreatedSomewhere(s: Store, h: History, e: Event)
    requires Inv(s, h) && e in h && !e.record.tomb
    ensures e.record.kv.create > 0
  {
    hide IndexOk, BackendOk, JobOk, JobTidy, NoGaps, Writes, WellFormed;
    assert MetaAt(h, e);
    var w := Writes(h, KeyOf(e));
    var n: nat :| IsPut(w, n, e);
    WritesBound(h, KeyOf(e), Start(w, n));
  }

  ghost predicate AllAt(ext: History, rev: nat) { forall e | e in ext :: e.rev.main == rev }
  ghost predicate AllUpto(h: History, rev: int) { forall e | e in h :: e.rev.main <= rev }

  /** What the transaction at revision rev adds to what a watcher expects. */
  lemma ExpectedByTxn(h: History, ext: History, w: Watcher, rev: nat)
    requires AllUpto(h, rev - 1) && AllAt(ext, rev) && rev > 0 && (w.from == w.cur || w.from <= w.cur < rev)
    ensures Expected(h + ext, w.lo, w.end, w.from, rev) ==
            Expected(h, w.lo, w.end, w.from, rev - 1) + Expected(ext, w.lo, w.end, w.cur, rev)
  {
    hide Expected;
    ExpectedConcat(h, ext, w.lo, w.end, w.from, rev);
    ExpectedSame(h, w.lo, w.end, w.from, rev, w.from, rev - 1);
    ExpectedSame(ext, w.lo, w.end, w.from, rev, w.cur, rev);
  }

  lemma ExpectedBeforeTxn(h: History, ext: History, w: Watcher, rev: nat, upto: int)
    requires AllAt(ext, rev) && upto < rev
    ensures Expected(h + ext, w.lo, w.end, w.from, upto) == Expected(h, w.lo, w.end, w.from, upto)
  {
    hide Expected;
    ExpectedConcat(h, ext, w.lo, w.end, w.from, upto);
    ExpectedNone(ext, w.lo, w.end, w.from, upto);
  }

  lemma NotifyOk(h: History, ext: History, w: Watcher, cur: nat, full: bool)
    requires Increasing(h + ext) && Dated(h + ext) && AllUpto(h, cur) && AllAt(ext, cur + 1)
    requires WatcherOk(w, h, cur)
    ensures WatcherOk(Notify(w, cur + 1, WatchAll(ext), full), h + ext, cur + 1)
    ensures w.synced && Matching(w, WatchAll(ext)) != [] ==> BatchOf(Matching(w, WatchAll(ext))).revs == 1
  {
    hide Expected, Matching, BatchOf, Unsplit, Flat;
    var rev, m := cur + 1, Matching(w, WatchAll(ext));
    NoBatch();
    if !w.synced {
      ExpectedBeforeTxn(h, ext, w, rev, w.cur - 1);
    } else {
      ExtDated(h, ext);
      MatchingIsExpected(w, ext, rev);
      ExpectedByTxn(h, ext, w, rev);
      ExpectedBeforeTxn(h, ext, w, rev, cur);
      if m != [] {
        MatchingAt(w, ext, rev);
        OneRevision(m, rev);
        if !full {
          SentBetween(h, ext, w, cur);
          SendKeeps(w.sent, m, w.from, rev, rev);
        }
      }
    }
  }

  lemma NoBatch()
    ensures BatchOf([]).evs == []
  {
  }

  lemma ExtDated(h: History, ext: History)
    requires Dated(h + ext)
    ensures Dated(ext)
  {
    assert forall e | e in ext :: e in h + ext;
  }

  lemma MatchingAt(w: Watcher, ext: History, rev: nat)
    requires AllAt(ext, rev) && Dated(ext) && Matching(w, WatchAll(ext)) != []
    ensures w.cur <= rev && forall i | 0 <= i < |Matching(w, WatchAll(ext))| :: Matching(w, WatchAll(ext))[i].kv.mod == rev
  {
    hide Expected, Matching;
    MatchingIsExpected(w, ext, rev);
    if w.cur > rev { ExpectedNone(ext, w.lo, w.end, w.cur, rev); }
    ExpectedAt(ext, w.lo, w.end, w.cur, rev);
  }

  lemma {:induction false} ExpectedAt(ext: History, lo: Key, end: Option<Key>, a: int, rev: nat)
    requires AllAt(ext, rev) && Dated(ext)
    ensures forall i | 0 <= i < |Expected(ext, lo, end, a, rev)| :: Expected(ext, lo, end, a, rev)[i].kv.mod == rev
  {
    if ext != [] {
      assert ext[|ext|-1] in ext;
      assert forall e | e in ext[..|ext|-1] :: e in ext;
      ExpectedAt(ext[..|ext|-1], lo, end, a, rev);
    }
  }

  lemma SentBetween(h: History, ext: History, w: Watcher, cur: nat)
    requires Increasing(h + ext) && Dated(h + ext) && WatcherOk(w, h, cur)
    ensures Between(Flat(w.sent), w.from, if w.synced then cur else w.cur - 1)
  {
    hide Expected, Unsplit, Flat;
    assert forall e | e in h :: e in h + ext;
    assert forall i | 0 <= i < |h| :: (h + ext)[i] == h[i];
    ExpectedOrdered(h, w.lo, w.end, w.from, if w.synced then cur else w.cur - 1);
  }

  lemma SyncOk(h: History, w: Watcher, evs: seq<WatchEvent>, cur: nat, compactRev: int, full: bool)
    requires Increasing(h) && Dated(h) && WatcherOk(w, h, cur) && !w.synced && compactRev < w.cur
    requires Matching(w, evs) == Expected(h, w.lo, w.end, w.cur, cur)
    ensures Sync(w, evs, cur, compactRev, full).Some? && WatcherOk(Sync(w, evs, cur, compactRev, full).value, h, cur)
  {
    hide Expected, Matching, BatchOf, Unsplit, Flat;
    var m := Matching(w, evs);
    var eb := BatchOf(m);
    BatchIsExpected(h, w.lo, w.end, w.cur, cur);
    ExpectedSplit(h, w.lo, w.end, w.from, w.cur, cur);
    assert h + [] == h;
    SentBetween(h, [], w, cur);
    if eb.evs != [] && !full {
      if eb.moreRev != 0 {
        ExpectedSplit(h, w.lo, w.end, w.from, w.cur, eb.moreRev - 1);
        ExpectedOrdered(h, w.lo, w.end, w.cur, eb.moreRev - 1);
        SendKeeps(w.sent, eb.evs, w.from, w.cur, eb.moreRev - 1);
      } else {
        ExpectedOrdered(h, w.lo, w.end, w.cur, cur);
        SendKeeps(w.sent, eb.evs, w.from, w.cur, cur);
      }
    }
  }

  // ----- One step of the watchable store -----

  ghost predicate StoreOk(s: State, h: History) {
    Inv(s.store, h) && s.store.current.sub == 0 && s.store.changes == []
  }

  /** The watcher is not at or behind the compaction revision. */
  predicate KeepsUp(s: State, id: nat) {
    id in s.watchers && !s.watchers[id].synced ==> s.watchers[id].cur > s.store.compacted
  }

  ghost predicate Served(s: State, h: History, id: nat) {
    id in s.watchers ==> WatcherOk(s.watchers[id], h, s.store.current.main)
  }

  ghost predicate ServedStill(s: State, h: History, t: State, g: History, id: nat) {
    Served(s, h, id) && KeepsUp(s, id) ==> Served(t, g, id)
  }

  ghost predicate AllServedStill(s: State, h: History, t: State, g: History) {
    forall id :: ServedStill(s, h, t, g, id)
  }

  lemma StoreUpto(s: State, h: History)
    requires StoreOk(s, h)
    ensures AllUpto(h, s.store.current.main)
  {
    hide IndexOk, BackendOk, JobOk, JobTidy, NoGaps, MetaAt, IsHistory;
  }

  lemma TxnServes(s: State, h: History, t: State, ops: seq<Op>, full: set<nat>)
    requires StoreOk(s, h) && Txns(s, t, ops, full)
    ensures StoreOk(t, h + OpsEvents(h, s.store.current.main + 1, ops)) && AllServedStill(s, h, t, h + OpsEvents(h, s.store.current.main + 1, ops))
  {
    hide Inv, RunOps, WatcherOk, TxnEvents, Notify, OpsEvents;
    OpsInTxn(s.store, h, ops);
    var ext := OpsEvents(h, s.store.current.main + 1, ops);
    var g := h + ext;
    var r := RunOps(s.store, ops).value;
    var cur := s.store.current.main;
    EndTxnKeeps(r, g);
    ChangesDontMatter(EndTxn(r), g);
    if ext == [] {
      assert g == h;
      forall id ensures ServedStill(s, h, t, g, id) {
        if id in s.watchers { NotifyNothing(s.watchers[id], EndTxn(r).current.main, EndTxn(r).changes, id in full); }
      }
    } else {
      StoreUpto(s, h);
      InvDated(r, g);
      TxnEventsAre(r, h, ext, cur + 1);
      forall id ensures ServedStill(s, h, t, g, id) {
        if id in s.watchers && Served(s, h, id) { NotifyOk(h, ext, s.watchers[id], cur, id in full); }
      }
    }
  }

  lemma NotifyNothing(w: Watcher, rev: nat, changes: seq<KeyValue>, full: bool)
    requires changes == []
    ensures Notify(w, rev, TxnEvents(changes, rev), full) == w
  {
  }

  lemma ChangesDontMatter(s: Store, h: History)
    requires Inv(s, h)
    ensures Inv(s.(changes := []), h)
  {
    hide IndexOk, BackendOk, JobOk, JobTidy, NoGaps, MetaAt, IsHistory, Clock;
  }

  lemma SyncServes(s: State, h: History, t: State, es: History, minRev: int, full: set<nat>)
    requires StoreOk(s, h) && Syncs(s, t, es, minRev, full)
    ensures StoreOk(t, h) && AllServedStill(s, h, t, h)
  {
    hide Inv, WatcherOk, Sync, CatchUp, IsListing;
    InvDated(s.store, h);
    ListingIsSurviving(s.store, h, es);
    var cur, c := s.store.current.main, s.store.compacted;
    var evs := CatchUp(s.watchers, es, minRev, cur);
    forall id ensures ServedStill(s, h, t, h, id) {
      if id in t.watchers && id in s.watchers && Served(s, h, id) && KeepsUp(s, id) {
        var w := s.watchers[id];
        if w.synced {
          SyncedStays(w, evs, cur, c, id in full);
        } else {
          assert Waits(s.watchers, c, id);
          LateSurvives(s.store, h, w.cur);
          CatchUpIsExpected(s.watchers, id, h, s.store.backend, minRev, cur);
          SyncOk(h, w, evs, cur, c, id in full);
        }
      }
    }
  }

  lemma SyncedStays(w: Watcher, evs: seq<WatchEvent>, cur: nat, c: int, full: bool)
    requires w.synced
    ensures Sync(w, evs, cur, c, full) == Some(w)
  {
  }

  lemma LateSurvives(s: Store, h: History, cur: int)
    requires Inv(s, h) && cur > s.compacted
    ensures forall e | e in h && e.rev.main >= cur :: e.rev in s.backend
  {
    hide IndexOk, JobOk, JobTidy, NoGaps, MetaAt, IsHistory, Clock;
    forall e | e in h && e.rev.main >= cur ensures e.rev in s.backend { assert Stored(s.backend, h, e, s.compacted); }
  }

  lemma CompactServes(s: State, h: History, t: State)
    requires StoreOk(s, h) && Compacts(s, t)
    ensures StoreOk(t, h) && AllServedStill(s, h, t, h)
  {
    hide Inv, WatcherOk, Compact, Batches;
    if c :| Compact(s.store, c) == Compacting(t.store) {
      CompactKeeps(s.store, h, c);
      MvccSafety.CompactMoves(s.store, c);
      CompactKeepsChanges(s.store, c);
    } else if Batches(s.store, t.store) {
      BatchKeeps(s.store, h, t.store);
      MvccSafety.BatchMoves(s.store, t.store);
      BatchKeepsChanges(s.store, t.store);
    } else {
      MvccSafety.StopKeeps(s.store, h);
    }
  }

  lemma CompactKeepsChanges(s: Store, c: nat)
    requires Compact(s, c).Compacting?
    ensures Compact(s, c).store.changes == s.changes
  {
    hide IndexCompact, IndexAvailable;
  }

  lemma BatchKeepsChanges(s: Store, t: Store)
    requires Batches(s, t)
    ensures t.changes == s.changes
  {
  }

  /** The step from s to t is a transaction of these operations. */
  ghost predicate TxnOf(s: State, t: State, ops: seq<Op>) { exists full :: Txns(s, t, ops, full) }

  /** A transaction extends the history by its own events; any other step leaves it alone. */
  ghost predicate Extends(s: State, h: History, t: State, g: History) {
    if exists ops :: TxnOf(s, t, ops) then exists ops :: TxnOf(s, t, ops) && g == h + OpsEvents(h, s.store.current.main + 1, ops)
    else g == h
  }

  lemma WatchNextServes(s: State, h: History, t: State) returns (g: History)
    requires StoreOk(s, h) && WatchNext(s, t)
    ensures StoreOk(t, g) && Extends(s, h, t, g) && AllServedStill(s, h, t, g)
  {
    hide StoreOk, WatcherOk, Txns, Syncs, Compacts, OpsEvents, AllServedStill;
    g := h;
    if ops, full :| Txns(s, t, ops, full) {
      g := h + OpsEvents(h, s.store.current.main + 1, ops);
      TxnServes(s, h, t, ops, full);
      assert TxnOf(s, t, ops);
    } else if es, minRev, full :| Syncs(s, t, es, minRev, full) {
      SyncServes(s, h, t, es, minRev, full);
    } else if id, lo, end, start :| Registers(s, t, id, lo, end, start) {
      RegisterServes(s, h, t, id, lo, end, start);
    } else if id :| Cancels(s, t, id) {
      CancelServes(s, h, t, id);
    } else {
      CompactServes(s, h, t);
    }
  }

  lemma RegisterServes(s: State, h: History, t: State, id: nat, lo: Key, end: Option<Key>, start: nat)
    requires StoreOk(s, h) && Registers(s, t, id, lo, end, start)
    ensures StoreOk(t, h) && AllServedStill(s, h, t, h)
  {
    hide Inv, WatcherOk;
    NewWatcherOk(s.store, h, lo, end, start);
  }

  lemma CancelServes(s: State, h: History, t: State, id: nat)
    requires StoreOk(s, h) && Cancels(s, t, id)
    ensures StoreOk(t, h) && AllServedStill(s, h, t, h)
  {
    hide Inv, WatcherOk;
  }

  // ----- Runs -----

  ghost predicate StepServes(run: seq<State>, hs: seq<History>, i: nat)
    requires i + 1 < |run| == |hs|
  {
    Extends(run[i], hs[i], run[i+1], hs[i+1]) && AllServedStill(run[i], hs[i], run[i+1], hs[i+1])
  }

  /** The history of every state of a run: nothing at first, extended by each transaction's own events. */
  ghost predicate WatchHistories(run: seq<State>, hs: seq<History>) {
    && |hs| == |run| && (run != [] ==> hs[0] == [])
    && (forall i | 0 <= i < |run| :: StoreOk(run[i], hs[i]))
    && (forall i | 0 <= i < |run| - 1 :: StepServes(run, hs, i))
  }

  lemma {:induction false} RunWatch(run: seq<State>) returns (hs: seq<History>)
    requires IsWatchRun(run)
    ensures WatchHistories(run, hs)
  {
    hide StoreOk, WatchNext, ServedStill, Extends;
    var last := |run| - 1;
    if last == 0 {
      hs := [[]];
      InitialStore(run[0]);
    } else {
      var pre := run[..last];
      assert forall i | 0 <= i < |pre| :: pre[i] == run[i];
      var hs' := RunWatch(pre);
      assert WatchNext(run[last-1], run[last]);
      var g := WatchNextServes(run[last-1], hs'[last-1], run[last]);
      hs := hs' + [g];
      forall i | 0 <= i < last ensures StepServes(run, hs, i) {
        if i < last - 1 { assert StepServes(pre, hs', i); }
      }
    }
  }

  lemma InitialStore(s: State)
    requires s == State(NEW_STORE, map[])
    ensures StoreOk(s, [])
  {
    InitialInv();
  }

  /** Range and start of a watcher are those it was registered with. */
  ghost predicate Asked(s: State, id: nat, lo: Key, end: Option<Key>, from: nat) {
    id in s.watchers ==> s.watchers[id].lo == lo && s.watchers[id].end == end && s.watchers[id].from == from
  }

  lemma NotifyAsked(w: Watcher, rev: nat, evs: seq<WatchEvent>, full: bool)
    ensures var v := Notify(w, rev, evs, full); v.lo == w.lo && v.end == w.end && v.from == w.from
  {
    hide BatchOf, Matching;
  }

  lemma SyncAsked(w: Watcher, evs: seq<WatchEvent>, curRev: nat, compactRev: int, full: bool)
    ensures var v := Sync(w, evs, curRev, compactRev, full);
            v.Some? ==> v.value.lo == w.lo && v.value.end == w.end && v.value.from == w.from
  {
    hide BatchOf, Matching;
  }

  lemma StillAsked(s: State, t: State, id: nat, lo: Key, end: Option<Key>, from: nat)
    requires WatchNext(s, t) && id in s.watchers && Asked(s, id, lo, end, from)
    ensures Asked(t, id, lo, end, from)
  {
    hide RunOps, Notify, Sync, CatchUp, TxnEvents, IsListing, Batches, Compact;
    var w := s.watchers[id];
    forall rev, evs, full ensures var v := Notify(w, rev, evs, full); v.lo == w.lo && v.end == w.end && v.from == w.from {
      NotifyAsked(w, rev, evs, full);
    }
    forall evs, cur, c, full ensures var v := Sync(w, evs, cur, c, full);
        v.Some? ==> v.value.lo == w.lo && v.value.end == w.end && v.value.from == w.from
    {
      SyncAsked(w, evs, cur, c, full);
    }
  }

  lemma {:induction false} AskedSince(run: seq<State>, j: nat, i: nat, id: nat, lo: Key, end: Option<Key>, from: nat)
    requires IsWatchRun(run) && j <= i < |run| && Asked(run[j], id, lo, end, from)
    requires forall k | j <= k <= i :: id in run[k].watchers
    ensures Asked(run[i], id, lo, end, from)
    decreases i
  {
    hide WatchNext, Asked;
    if j < i {
      AskedSince(run, j, i - 1, id, lo, end, from);
      assert WatchNext(run[i-1], run[i]);
      StillAsked(run[i-1], run[i], id, lo, end, from);
    }
  }

  /** The revision a new watcher is promised events from: the one asked for, or the next. */
  lemma PromisedFrom(lo: Key, end: Option<Key>, start: nat, currentRev: nat)
    ensures var w := NewWatcher(lo, end, start, currentRev);
            && w.lo == lo && w.end == end && w.sent == [] && w.from == w.cur == (if start == 0 then currentRev + 1 else start)
            && (w.synced <==> start == 0 || start > currentRev)
  {
  }

  /** Exactly-once ordered watch: a watcher registered at step j for a range from a start revision,
      0 meaning the next, and never at or behind the compaction revision while catching up, has
      received, batch after batch, precisely the events of that range from that revision to where it
      stands, each once and in order, and no revision is split over two batches. */
  lemma ExactlyOnceWatch(run: seq<State>, j: nat, i: nat, id: nat, lo: Key, end: Option<Key>, start: nat) returns (hs: seq<History>)
    requires IsWatchRun(run) && j < i < |run| && Registers(run[j], run[j+1], id, lo, end, start)
    requires forall k | j < k <= i :: id in run[k].watchers && (k < i ==> KeepsUp(run[k], id))
    ensures WatchHistories(run, hs)
    ensures var w := run[i].watchers[id];
            var first := if start == 0 then run[j].store.current.main + 1 else start;
            && Flat(w.sent) == Expected(hs[i], lo, end, first, if w.synced then run[i].store.current.main else w.cur - 1)
            && Unsplit(w.sent)
  {
    hide WatchHistories, WatchNext;
    hs := RunWatch(run);
    var first := if start == 0 then run[j].store.current.main + 1 else start;
    PromisedFrom(lo, end, start, run[j].store.current.main);
    assert Asked(run[j+1], id, lo, end, first);
    AskedSince(run, j + 1, i, id, lo, end, first);
    ServedSince(run, hs, j, i, id);
  }

  lemma {:induction false} ServedSince(run: seq<State>, hs: seq<History>, j: nat, i: nat, id: nat)
    requires WatchHistories(run, hs) && j <= i < |run| && id !in run[j].watchers && forall k | j <= k < i :: KeepsUp(run[k], id)
    ensures Served(run[i], hs[i], id)
    decreases i
  {
    hide StoreOk, WatcherOk, KeepsUp;
    if j < i {
      ServedSince(run, hs, j, i - 1, id);
      assert StepServes(run, hs, i - 1);
      assert ServedStill(run[i-1], hs[i-1], run[i], hs[i], id);
    }
  }

  // ----- What the events say -----

  /** A deletion is delivered as a deletion of its key at its revision, a put with its record. */
  ghost predicate Tells(ev: WatchEvent, e: Event) {
    && ev.delete == e.record.tomb && ev.kv.key == e.record.kv.key && ev.kv.mod == e.rev.main
    && (!e.record.tomb ==> ev.kv == e.record.kv)
  }

  /** at are the positions of the events of the range from one revision to another, in their order. */
  ghost predicate Lists(at: seq<nat>, h: History, lo: Key, end: Option<Key>, a: int, b: int) {
    && (forall i, j | 0 <= i < j < |at| :: at[i] < at[j]) && (forall i | 0 <= i < |at| :: at[i] < |h|)
    && forall n: nat | n < |h| :: n in at <==> InRange(h[n].record.kv.key, lo, end) && a <= h[n].rev.main <= b
  }

  ghost predicate TellsEach(evs: seq<WatchEvent>, h: History, at: seq<nat>) {
    |evs| == |at| && forall i | 0 <= i < |at| :: at[i] < |h| && Tells(evs[i], h[at[i]])
  }

  lemma ListsNext(at: seq<nat>, h: History, e: Event, lo: Key, end: Option<Key>, a: int, b: int)
    requires Lists(at, h, lo, end, a, b)
    ensures Lists(if Concerns(e, lo, end, a, b) then at + [|h|] else at, h + [e], lo, end, a, b)
  {
    var g := h + [e];
    assert g[|h|] == e;
    forall n: nat | n < |h| ensures g[n] == h[n] {}
    if Concerns(e, lo, end, a, b) {
      var next := at + [|h|];
      assert next[|at|] == |h|;
      forall i | 0 <= i < |at| ensures next[i] == at[i] {}
    }
  }

  lemma DatedNext(h: History, e: Event)
    requires Dated(h + [e])
    ensures Dated(h) && Tells(ToWatch(e), e)
  {
    assert e in h + [e];
  }

  lemma TellsNext(evs: seq<WatchEvent>, h: History, at: seq<nat>, e: Event)
    requires TellsEach(evs, h, at)
    ensures TellsEach(evs, h + [e], at)
    ensures Tells(ToWatch(e), e) ==> TellsEach(evs + [ToWatch(e)], h + [e], at + [|h|])
  {
    hide Tells, ToWatch;
  }

  /** The expected events tell of the events of the range from one revision to another, one by one
      and in their order. */
  lemma {:induction false} ExpectedTells(h: History, lo: Key, end: Option<Key>, a: int, b: int) returns (at: seq<nat>)
    requires Dated(h)
    ensures Lists(at, h, lo, end, a, b) && TellsEach(Expected(h, lo, end, a, b), h, at)
  {
    hide Lists, TellsEach, InRange, Expected, Dated, Tells, ToWatch;
    at := [];
    if h == [] {
      NothingTold(lo, end, a, b);
    } else {
      var p, e := h[..|h|-1], h[|h|-1];
      assert h == p + [e];
      DatedNext(p, e);
      at := ExpectedTells(p, lo, end, a, b);
      ListsNext(at, p, e, lo, end, a, b);
      TellsNext(Expected(p, lo, end, a, b), p, at, e);
      ExpectedAppend(p, e, lo, end, a, b);
      assert Expected(p, lo, end, a, b) + [] == Expected(p, lo, end, a, b);
      if Concerns(e, lo, end, a, b) { at := at + [|p|]; }
    }
  }

  lemma NothingTold(lo: Key, end: Option<Key>, a: int, b: int)
    ensures Lists([], [], lo, end, a, b) && TellsEach(Expected([], lo, end, a, b), [], [])
  {
  }

  // ----- Catching up -----

  /** Catching up moves an unsynced watcher on whenever its channel takes what there is: behind what it
      was sent, and to the current revision if that is everything. */
  lemma SyncMovesOn(h: History, w: Watcher, evs: seq<WatchEvent>, cur: nat, compactRev: int)
    requires Increasing(h) && Dated(h) && WatcherOk(w, h, cur) && !w.synced && compactRev <= w.cur
    requires Matching(w, evs) == Expected(h, w.lo, w.end, w.cur, cur)
    ensures var v := Sync(w, evs, cur, compactRev, false);
            && v.Some?
            && (if BatchOf(Matching(w, evs)).moreRev == 0
                then v.value.synced && v.value.cur == cur && Flat(v.value.sent) == Flat(w.sent) + Matching(w, evs)
                else !v.value.synced && v.value.cur > w.cur && |v.value.sent| == |w.sent| + 1)
  {
    hide BatchOf, Expected, Matching;
    ExpectedOrdered(h, w.lo, w.end, w.cur, cur);
    BatchIsExpected(h, w.lo, w.end, w.cur, cur);
    BatchSplits(Matching(w, evs));
    assert (w.sent + [BatchOf(Matching(w, evs)).evs])[..|w.sent|] == w.sent;
    assert Flat(w.sent) + [] == Flat(w.sent);
  }

  /** A synchronisation drops exactly the unsynced watchers behind the compaction whose channels take the message that
      says so, keeps all others with their range, and reads from the least revision an unsynced watcher not behind
      the compaction is at. */
  lemma SyncStep(s: State, t: State, es: History, minRev: int, full: set<nat>)
    requires Syncs(s, t, es, minRev, full)
    ensures t.store == s.store
    ensures forall id | id in s.watchers ::
              id !in t.watchers <==> !s.watchers[id].synced && s.watchers[id].cur < s.store.compacted && id !in full
    ensures forall id | id in t.watchers ::
              id in s.watchers && t.watchers[id].lo == s.watchers[id].lo && t.watchers[id].end == s.watchers[id].end
    ensures forall id | id in s.watchers && !s.watchers[id].synced && s.store.compacted <= s.watchers[id].cur ::
              && minRev <= s.watchers[id].cur
              && exists j | j in s.watchers :: !s.watchers[j].synced && s.store.compacted <= s.watchers[j].cur == minRev
  {
    hide BatchOf, Matching, CatchUp, IsListing;
    forall id | id in s.watchers && !s.watchers[id].synced && s.store.compacted <= s.watchers[id].cur ensures
        && minRev <= s.watchers[id].cur
        && exists j | j in s.watchers :: !s.watchers[j].synced && s.store.compacted <= s.watchers[j].cur == minRev
    {
      assert Waits(s.watchers, s.store.compacted, id);
      var j :| Waits(s.watchers, s.store.compacted, j) && minRev == s.watchers[j].cur;
      assert j in s.watchers;
    }
  }

  /** The distinct revisions of events. */
  function Revs(evs: seq<WatchEvent>): set<nat> { set i | 0 <= i < |evs| :: evs[i].kv.mod }

  lemma RevsNext(evs: seq<WatchEvent>, ev: WatchEvent)
    ensures Revs(evs + [ev]) == Revs(evs) + {ev.kv.mod}
  {
    var all := evs + [ev];
    assert all[|evs|] == ev;
    forall i | 0 <= i < |evs| ensures all[i] == evs[i] {}
    forall r | r in Revs(evs) ensures r in Revs(all) { var i :| 0 <= i < |evs| && evs[i].kv.mod == r; assert all[i].kv.mod == r; }
    assert ev.kv.mod in Revs(all);
  }

  /** A batch holds the events of the first thousand revisions, or all. */
  lemma {:induction false} BatchHolds(evs: seq<WatchEvent>)
    requires Ordered(evs)
    ensures HoldsFirst(evs, BatchOf(evs))
  {
    if evs == [] {
      assert Revs(evs) == {};
    } else {
      hide HoldsFirst, Splits;
      var p, ev := evs[..|evs|-1], evs[|evs|-1];
      assert evs == p + [ev];
      OrderedPrefix(p, ev);
      BatchHolds(p);
      BatchSplits(p);
      AddHolds(p, ev, BatchOf(p));
    }
  }

  ghost predicate HoldsFirst(evs: seq<WatchEvent>, eb: EventBatch) {
    if |Revs(evs)| <= 1000 then eb.moreRev == 0 && eb.evs == evs && eb.revs == |Revs(evs)|
    else eb.moreRev != 0 && eb.revs == 1001 && |Revs(eb.evs)| == 1000
  }

  lemma OrderedPrefix(p: seq<WatchEvent>, ev: WatchEvent)
    requires Ordered(p + [ev])
    ensures Ordered(p)
  {
    forall i | 0 <= i < |p| ensures (p + [ev])[i] == p[i] {}
  }

  lemma AddHolds(p: seq<WatchEvent>, ev: WatchEvent, eb: EventBatch)
    requires Ordered(p + [ev]) && HoldsFirst(p, eb) && Splits(p, eb)
    ensures HoldsFirst(p + [ev], AddEvent(eb, ev))
  {
    hide Revs;
    RevsNext(p, ev);
    NewRevision(p, ev);
    NoRevs();
    assert (p + [ev])[|p|] == ev && ev.kv.mod > 0;
    if p != [] {
      assert (p + [ev])[|p|-1] == p[|p|-1];
    }
  }

  lemma NoRevs()
    ensures Revs([]) == {}
  {
  }

  lemma NewRevision(p: seq<WatchEvent>, ev: WatchEvent)
    requires Ordered(p + [ev])
    ensures p != [] ==> (ev.kv.mod in Revs(p) <==> ev.kv.mod == p[|p|-1].kv.mod)
    ensures |Revs(p) + {ev.kv.mod}| == |Revs(p)| + if ev.kv.mod in Revs(p) then 0 else 1
  {
    var all := p + [ev];
    forall i | 0 <= i < |p| ensures all[i] == p[i] {}
    assert all[|p|] == ev;
    if ev.kv.mod in Revs(p) { assert Revs(p) + {ev.kv.mod} == Revs(p); }
  }

  // ----- Unsynced watchers never run ahead -----

  predicate NotAhead(s: State) {
    forall id | id in s.watchers && !s.watchers[id].synced :: s.watchers[id].cur <= s.store.current.main
  }

  ghost predicate ModsUpto(evs: seq<WatchEvent>, b: nat) { forall i | 0 <= i < |evs| :: evs[i].kv.mod <= b }

  lemma {:induction false} MoreRevBound(evs: seq<WatchEvent>, b: nat)
    requires ModsUpto(evs, b)
    ensures BatchOf(evs).moreRev <= b
  {
    if evs != [] { MoreRevBound(evs[..|evs|-1], b); }
  }

  lemma {:induction false} MatchingBound(w: Watcher, evs: seq<WatchEvent>, b: nat)
    requires ModsUpto(evs, b)
    ensures ModsUpto(Matching(w, evs), b)
  {
    if evs != [] { MatchingBound(w, evs[..|evs|-1], b); }
  }

  lemma {:induction false} CatchUpBound(ws: Watchers, es: History, minRev: int, curRev: nat)
    requires forall e | e in es :: ToWatch(e).kv.mod == e.rev.main
    ensures ModsUpto(CatchUp(ws, es, minRev, curRev), curRev)
  {
    if es != [] {
      assert es[|es|-1] in es;
      assert forall e | e in es[..|es|-1] :: e in es;
      CatchUpBound(ws, es[..|es|-1], minRev, curRev);
    }
  }

  lemma SyncNotAhead(s: State, h: History, t: State, es: History, minRev: int, full: set<nat>)
    requires StoreOk(s, h) && Syncs(s, t, es, minRev, full) && NotAhead(s)
    ensures NotAhead(t)
  {
    hide Inv, CatchUp, Matching, BatchOf, IsListing;
    InvDated(s.store, h);
    ListingIsSurviving(s.store, h, es);
    forall e | e in es ensures ToWatch(e).kv.mod == e.rev.main { SurvivingAre(h, s.store.backend, e); }
    var cur := s.store.current.main;
    CatchUpBound(s.watchers, es, minRev, cur);
    var evs := CatchUp(s.watchers, es, minRev, cur);
    forall id | id in t.watchers && !t.watchers[id].synced ensures t.watchers[id].cur <= cur {
      MatchingBound(s.watchers[id], evs, cur);
      MoreRevBound(Matching(s.watchers[id], evs), cur);
    }
  }

  lemma WatchNextNotAhead(s: State, h: History, t: State)
    requires StoreOk(s, h) && WatchNext(s, t) && NotAhead(s)
    ensures NotAhead(t)
  {
    hide Inv, Syncs, Compact, Batches, BatchOf, Matching, RunOps, TxnEvents;
    if ops, full :| Txns(s, t, ops, full) {
      OpsInTxn(s.store, h, ops);
    } else if es, minRev, full :| Syncs(s, t, es, minRev, full) {
      SyncNotAhead(s, h, t, es, minRev, full);
    } else if Compacts(s, t) {
      if c :| Compact(s.store, c) == Compacting(t.store) {
        MvccSafety.CompactMoves(s.store, c);
      } else if Batches(s.store, t.store) {
        MvccSafety.BatchMoves(s.store, t.store);
      }
    }
  }

  /** The panic about a watcher ahead of the store is unreachable. */
  lemma {:induction false} UnsyncedNotAhead(run: seq<State>, i: nat)
    requires IsWatchRun(run) && i < |run|
    ensures NotAhead(run[i])
    decreases i
  {
    hide WatchNext, StoreOk;
    if i > 0 {
      UnsyncedNotAhead(run, i - 1);
      var hs := RunWatch(run);
      assert WatchNext(run[i-1], run[i]);
      WatchNextNotAhead(run[i-1], hs[i-1], run[i]);
    }
  }
}
