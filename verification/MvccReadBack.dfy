/**
 * The store against the simplest one there could be: the list of operations it
 * was given. Every read of every run is determined by that list, and a key reads
 * as the arguments of the last put to it.
 */
module MvccReadBack {
  import opened Options
  import opened MvccKeyIndex
  import opened MvccKeys
  import opened MvccHistory
  import opened MvccStore
  import opened MvccInvariant
  import MvccSafety

  /** What a store is asked to do; background work is the progress or end of a compaction. */
  datatype Act =
    | ActPut(key: Key, value: seq<Byte>, lease: nat)
    | ActDelete(lo: Key, end: Option<Key>)
    | ActEnd
    | ActCompact(at: nat)
    | ActBackground

  ghost predicate Does(s: Store, a: Act, t: Store) {
    match a
    case ActPut(k, v, l) => Put(s, k, v, l) == Some(t)
    case ActDelete(lo, end) => DeleteRange(s, lo, end) == Some(t)
    case ActEnd => t == EndTxn(s)
    case ActCompact(c) => Compact(s, c) == Compacting(t)
    case ActBackground => Batches(s, t) || (s.jobs != [] && t == s.(jobs := s.jobs[1..]))
  }

  ghost predicate IsPlay(run: seq<Store>, acts: seq<Act>) {
    && |run| == |acts| + 1 && run[0] == NEW_STORE
    && forall i | 0 <= i < |acts| :: Does(run[i], acts[i], run[i+1])
  }

  /** Every run is the play of some acts. */
  lemma {:induction false} EveryRunPlays(run: seq<Store>) returns (acts: seq<Act>)
    requires IsRun(run)
    ensures IsPlay(run, acts)
  {
    hide Next, Does;
    var last := |run| - 1;
    acts := [];
    if last > 0 {
      var pre := run[..last];
      assert forall i | 0 <= i < |pre| :: pre[i] == run[i];
      acts := EveryRunPlays(pre);
      assert Next(run[last-1], run[last]);
      var a := ActOf(run[last-1], run[last]);
      acts := acts + [a];
    }
  }

  lemma ActOf(s: Store, t: Store) returns (a: Act)
    requires Next(s, t)
    ensures Does(s, a, t)
  {
    hide Put, DeleteRange, Compact, Batches;
    if k, v, l :| Put(s, k, v, l) == Some(t) {
      a := ActPut(k, v, l);
    } else if lo, end :| DeleteRange(s, lo, end) == Some(t) {
      a := ActDelete(lo, end);
    } else if t == EndTxn(s) {
      a := ActEnd;
    } else if c :| Compact(s, c) == Compacting(t) {
      a := ActCompact(c);
    } else {
      a := ActBackground;
    }
  }

  // ----- The list of operations as a store -----

  /** The current revision, the compaction revision and all events. */
  datatype Played = Played(rev: Revision, compacted: int, h: History)

  /** The revision the next write gets. */
  function WriteRev(p: Played): Revision { Revision(p.rev.main + 1, p.rev.sub) }

  ghost function Play(p: Played, a: Act): Played {
    match a
    case ActPut(k, v, l) =>
      Played(p.rev.(sub := p.rev.sub + 1), p.compacted, p.h + [PutEvent(p.h, WriteRev(p), k, v, l)])
    case ActDelete(lo, end) =>
      var gone := Deletions(WriteRev(p), Ascending(LiveKeys(p.h, lo, end, p.rev.main + 1)));
      Played(p.rev.(sub := p.rev.sub + |gone|), p.compacted, p.h + gone)
    case ActEnd => p.(rev := Revision(if p.rev.sub == 0 then p.rev.main else p.rev.main + 1, 0))
    case ActCompact(c) => p.(compacted := c)
    case ActBackground => p
  }

  ghost function PlayAll(acts: seq<Act>): Played {
    if acts == [] then Played(Revision(1, 0), -1, []) else Play(PlayAll(acts[..|acts|-1]), acts[|acts|-1])
  }

  ghost predicate PlaysAs(s: Store, p: Played) {
    Inv(s, p.h) && s.current == p.rev && s.compacted == p.compacted
  }

  lemma PutPlays(s: Store, p: Played, k: Key, v: seq<Byte>, l: nat, t: Store)
    requires PlaysAs(s, p) && Put(s, k, v, l) == Some(t)
    ensures PlaysAs(t, Play(p, ActPut(k, v, l)))
  {
    hide Inv, PutEvent;
    PutKeeps(s, p.h, k, v, l);
  }

  lemma {:induction false} DeleteKeysCurrent(s: Store, ix: Index, r: int, ks: seq<Key>)
    requires DeleteKeys(s, ix, r, ks).Some?
    ensures var t := DeleteKeys(s, ix, r, ks).value;
            t.current == s.current.(sub := s.current.sub + |Deletions(NextRev(s), ks)|) && t.compacted == s.compacted
    decreases |ks|
  {
    hide IndexTombstone, IndexGet;
    if ks != [] {
      var t := Delete(s, ks[0], IndexGet(ix, ks[0], r).modified).value;
      DeleteKeysCurrent(t, ix, r, ks[1..]);
      assert Deletions(NextRev(s), ks) == [Event(NextRev(s), TombRecord(ks[0]))] + Deletions(NextRev(t), ks[1..]);
    }
  }

  lemma DeletePlays(s: Store, p: Played, lo: Key, end: Option<Key>, t: Store)
    requires PlaysAs(s, p) && DeleteRange(s, lo, end) == Some(t)
    ensures PlaysAs(t, Play(p, ActDelete(lo, end)))
  {
    hide Inv, Ascending, LiveKeys, Deletions, DeleteKeys;
    DeleteRangeKeeps(s, p.h, lo, end);
    InvBasics(s, p.h);
    IndexKeysAre(s, p.h, lo, end, ReadRev(s));
    LiveKeysNow(s, p.h, lo, end);
    DeleteKeysCurrent(s, s.index, ReadRev(s), IndexKeys(s.index, lo, end, ReadRev(s)));
  }

  lemma DoesPlays(s: Store, p: Played, a: Act, t: Store)
    requires PlaysAs(s, p) && Does(s, a, t)
    ensures PlaysAs(t, Play(p, a))
  {
    hide Inv, Put, DeleteRange, Compact, Batches, PutEvent, Deletions;
    match a
    case ActPut(k, v, l) => PutPlays(s, p, k, v, l, t);
    case ActDelete(lo, end) => DeletePlays(s, p, lo, end, t);
    case ActEnd => EndTxnKeeps(s, p.h);
    case ActCompact(c) =>
      CompactKeeps(s, p.h, c);
      CompactMovesTo(s, c);
    case ActBackground =>
      if Batches(s, t) {
        BatchKeeps(s, p.h, t);
        MvccSafety.BatchMoves(s, t);
      } else {
        MvccSafety.StopKeeps(s, p.h);
      }
  }

  lemma CompactMovesTo(s: Store, c: nat)
    requires Compact(s, c).Compacting?
    ensures Compact(s, c).store.current == s.current && Compact(s, c).store.compacted == c
  {
    hide IndexCompact, IndexAvailable, IndexPanics;
  }

  lemma {:induction false} RunPlays(run: seq<Store>, acts: seq<Act>, i: nat)
    requires IsPlay(run, acts) && i < |run|
    ensures PlaysAs(run[i], PlayAll(acts[..i]))
  {
    hide Does, PlaysAs, Play;
    if i == 0 {
      FirstPlays();
    } else {
      RunPlays(run, acts, i - 1);
      assert acts[..i][..i-1] == acts[..i-1];
      DoesPlays(run[i-1], PlayAll(acts[..i-1]), acts[i-1], run[i]);
    }
  }

  lemma FirstPlays()
    ensures PlaysAs(NEW_STORE, PlayAll([]))
  {
    InitialInv();
  }

  // ----- Reads -----

  /** What a read must answer, by the operations alone: revisions ahead of the current one and those
      compacted are refused, none or a negative one means the current, and of the live keys of the
      range, in order and each with its last write, the first limit are returned. */
  ghost function ReadOf(p: Played, lo: Key, end: Option<Key>, limit: int, r: int): RangeResult {
    var now := if p.rev.sub > 0 then p.rev.main + 1 else p.rev.main;
    var at := if r <= 0 then now else r;
    if at > now then ErrFutureRev(p.rev.main)
    else if at <= p.compacted then ErrCompacted
    else
      var kvs := RangeAt(p.h, lo, end, at);
      Kvs(if limit <= 0 || limit > |kvs| then kvs else kvs[..limit], now)
  }

  lemma ReadPlays(s: Store, p: Played, lo: Key, end: Option<Key>, limit: int, r: int)
    requires PlaysAs(s, p)
    ensures Range(s, lo, end, limit, r) == ReadOf(p, lo, end, limit, r)
  {
    hide Inv, RangeAt, IndexKeys, AllPresent, Fetch;
    InvBasics(s, p.h);
    var now := ReadRev(s);
    var at: int := if r <= 0 then now else r;
    if p.compacted < at <= now {
      RangeIs(s, p.h, lo, end, limit, at);
      assert Range(s, lo, end, limit, r) == Range(s, lo, end, limit, at);
    }
  }

  /** Every read of every run answers what the operations so far call for. */
  lemma ReadBack(run: seq<Store>, acts: seq<Act>, i: nat, lo: Key, end: Option<Key>, limit: int, r: int)
    requires IsPlay(run, acts) && i < |run|
    ensures Range(run[i], lo, end, limit, r) == ReadOf(PlayAll(acts[..i]), lo, end, limit, r)
  {
    hide Does, Range, ReadOf, PlaysAs, PlayAll;
    RunPlays(run, acts, i);
    ReadPlays(run[i], PlayAll(acts[..i]), lo, end, limit, r);
  }

  // ----- The last put -----

  /** The revision the writes of act j get. */
  ghost function RevOf(acts: seq<Act>, j: nat): Revision
    requires j <= |acts|
  {
    WriteRev(PlayAll(acts[..j]))
  }

  /** Act j put this key-value. */
  ghost predicate PutAt(acts: seq<Act>, j: nat, e: Event) {
    j < |acts| && acts[j] == ActPut(KeyOf(e), e.record.kv.value, e.record.kv.lease) && RevOf(acts, j) == e.rev
  }

  lemma RevOfPrefix(acts: seq<Act>, n: nat, j: nat)
    requires j <= n <= |acts|
    ensures RevOf(acts[..n], j) == RevOf(acts, j)
  {
    assert acts[..n][..j] == acts[..j];
  }

  /** Later writes get later revisions. */
  lemma {:induction false} RevGrows(acts: seq<Act>, j: nat, m: nat)
    requires j < m <= |acts| && acts[j].ActPut?
    ensures Before(RevOf(acts, j), RevOf(acts, m))
    decreases m
  {
    hide PutEvent, Deletions;
    assert acts[..m][..m-1] == acts[..m-1];
    if j < m - 1 { RevGrows(acts, j, m - 1); }
  }

  /** Every put on record was asked for, with this value and lease, at this revision. */
  lemma {:induction false} RecordedWasPut(acts: seq<Act>, e: Event)
    requires e in PlayAll(acts).h && !e.record.tomb
    ensures exists j: nat :: PutAt(acts, j, e)
  {
    hide PutEvent, Deletions, Ascending, LiveKeys;
    var n := |acts| - 1;
    var p, a := PlayAll(acts[..n]), acts[n];
    if e in p.h {
      RecordedWasPut(acts[..n], e);
      var j: nat :| PutAt(acts[..n], j, e);
      RevOfPrefix(acts, n, j);
      assert PutAt(acts, j, e);
    } else if a.ActPut? {
      PutEventIs(p.h, WriteRev(p), a.key, a.value, a.lease);
      assert PutAt(acts, n, e);
    } else {
      assert a.ActDelete?;
      DeletionsTomb(WriteRev(p), Ascending(LiveKeys(p.h, a.lo, a.end, p.rev.main + 1)), e);
      assert false;
    }
  }

  lemma {:induction false} DeletionsTomb(rev: Revision, ks: seq<Key>, e: Event)
    requires e in Deletions(rev, ks)
    ensures e.record.tomb
    decreases |ks|
  {
    if e != Deletions(rev, ks)[0] { DeletionsTomb(rev.(sub := rev.sub + 1), ks[1..], e); }
  }

  /** Every put is on record under its revision. */
  lemma {:induction false} PutIsRecorded(acts: seq<Act>, j: nat)
    requires j < |acts| && acts[j].ActPut?
    ensures exists e | e in PlayAll(acts).h :: e.rev == RevOf(acts, j) && KeyOf(e) == acts[j].key
  {
    hide PutEvent, Deletions, Ascending, LiveKeys;
    var n := |acts| - 1;
    var p := PlayAll(acts[..n]);
    if j < n {
      PutIsRecorded(acts[..n], j);
      RevOfPrefix(acts, n, j);
      var e :| e in p.h && e.rev == RevOf(acts, j) && KeyOf(e) == acts[j].key;
      assert e in PlayAll(acts).h;
    } else {
      var e := PutEvent(p.h, WriteRev(p), acts[j].key, acts[j].value, acts[j].lease);
      PutEventIs(p.h, WriteRev(p), acts[j].key, acts[j].value, acts[j].lease);
      assert PlayAll(acts).h[|p.h|] == e;
    }
  }

  /** What a read returns for a key are the value and lease of the last put to it at or before the
      revision read. */
  lemma ReadsLastPut(run: seq<Store>, acts: seq<Act>, i: nat, lo: Key, end: Option<Key>, limit: int, r: int, kv: KeyValue) returns (j: nat)
    requires IsPlay(run, acts) && i < |run|
    requires Range(run[i], lo, end, limit, r).Kvs? && kv in Range(run[i], lo, end, limit, r).kvs
    ensures j < i && acts[j] == ActPut(kv.key, kv.value, kv.lease) && RevOf(acts, j).main == kv.mod && InRange(kv.key, lo, end)
    ensures r > 0 ==> kv.mod <= r
    ensures forall m | j < m < i && acts[m].ActPut? && acts[m].key == kv.key :: 0 < r < RevOf(acts, m).main
  {
    hide Range, PlayAll, PlaysAs, RangeAt, Does;
    var as' := acts[..i];
    RunPlays(run, acts, i);
    ReadBack(run, acts, i, lo, end, limit, r);
    var p := PlayAll(as');
    var now := if p.rev.sub > 0 then p.rev.main + 1 else p.rev.main;
    var at := if r <= 0 then now else r;
    assert kv in RangeAt(p.h, lo, end, at);
    var e := ReadIsLatest(p.h, lo, end, at, kv);
    RecordedWasPut(as', e);
    j :| PutAt(as', j, e);
    RevOfPrefix(acts, i, j);
    PlayedInOrder(run[i], p, e);
    forall m | j < m < i && acts[m].ActPut? && acts[m].key == kv.key ensures 0 < r < RevOf(acts, m).main {
      RevOfPrefix(acts, i, m);
      RevGrows(as', j, m);
      PutIsRecorded(as', m);
      var f :| f in p.h && f.rev == RevOf(as', m) && KeyOf(f) == kv.key;
      PlayedInOrder(run[i], p, f);
      if f.rev.main <= at { LatestBound(p.h, kv.key, at, f); }
    }
  }

  lemma PlayedInOrder(s: Store, p: Played, e: Event)
    requires PlaysAs(s, p) && e in p.h
    ensures Increasing(p.h) && e.rev.main <= (if p.rev.sub > 0 then p.rev.main + 1 else p.rev.main)
    ensures !e.record.tomb ==> e.record.kv.mod == e.rev.main
  {
    hide IndexOk, BackendOk, JobOk, JobTidy, NoGaps, WellFormed;
    assert MetaAt(p.h, e);
  }

  lemma ReadIsLatest(h: History, lo: Key, end: Option<Key>, r: int, kv: KeyValue) returns (e: Event)
    requires kv in RangeAt(h, lo, end, r)
    ensures IsLive(h, KeyOf(e), r) && Latest(h, KeyOf(e), r) == Some(e) && e.record.kv == kv && e in h && InRange(kv.key, lo, end)
  {
    hide Ascending, Latest;
    var live := LiveKeys(h, lo, end, r);
    AscendingSorted(live);
    var ks := Ascending(live);
    var i :| 0 <= i < |ks| && KvsAt(h, ks, r)[i] == kv;
    assert ks[i] in ks;
    e := Latest(h, ks[i], r).value;
  }

  // ----- The last word on a key -----

  predicate Touches(a: Act, k: Key) {
    (a.ActPut? && a.key == k) || (a.ActDelete? && InRange(k, a.lo, a.end))
  }

  /** The last operation that put the key or deleted a range it is in. */
  function LastWord(acts: seq<Act>, k: Key): Option<Act> {
    if acts == [] then None
    else if Touches(acts[|acts|-1], k) then Some(acts[|acts|-1])
    else LastWord(acts[..|acts|-1], k)
  }

  /** What is found of a key is what the last word on it says. */
  ghost predicate Obeys(o: Option<Event>, k: Key, w: Option<Act>) {
    if w.Some? && w.value.ActPut?
    then o.Some? && !o.value.record.tomb && KeyOf(o.value) == k &&
         o.value.record.kv.value == w.value.value && o.value.record.kv.lease == w.value.lease
    else o.None? || o.value.record.tomb
  }

  lemma {:induction false} LatestDeletions(h: History, rev: Revision, ks: seq<Key>, k: Key, r: int)
    requires rev.main <= r
    ensures k !in ks ==> Latest(h + Deletions(rev, ks), k, r) == Latest(h, k, r)
    ensures k in ks ==> Latest(h + Deletions(rev, ks), k, r).Some? && Latest(h + Deletions(rev, ks), k, r).value.record.tomb
    decreases |ks|
  {
    if ks == [] {
      assert h + Deletions(rev, ks) == h;
    } else {
      var e := Event(rev, TombRecord(ks[0]));
      assert h + Deletions(rev, ks) == (h + [e]) + Deletions(rev.(sub := rev.sub + 1), ks[1..]);
      hide Latest, Deletions;
      LatestAppend(h, e, k, r);
      LatestDeletions(h + [e], rev.(sub := rev.sub + 1), ks[1..], k, r);
    }
  }

  lemma {:induction false} LastWordHolds(acts: seq<Act>, k: Key, r: int)
    requires r > PlayAll(acts).rev.main
    ensures Obeys(Latest(PlayAll(acts).h, k, r), k, LastWord(acts, k))
  {
    hide PutEvent, Deletions, Ascending, Latest;
    if acts == [] {
      NothingLatest(k, r);
    } else {
      var p, a := PlayAll(acts[..|acts|-1]), acts[|acts|-1];
      LastWordHolds(acts[..|acts|-1], k, r);
      if a.ActPut? {
        PutEventIs(p.h, WriteRev(p), a.key, a.value, a.lease);
        LatestAppend(p.h, PutEvent(p.h, WriteRev(p), a.key, a.value, a.lease), k, r);
      } else if a.ActDelete? {
        LastWordHolds(acts[..|acts|-1], k, p.rev.main + 1);
        var live := LiveKeys(p.h, a.lo, a.end, p.rev.main + 1);
        if IsLive(p.h, k, p.rev.main + 1) { LiveIsKey(p.h, k, p.rev.main + 1); }
        LatestDeletions(p.h, WriteRev(p), Ascending(live), k, r);
      }
    }
  }

  lemma NothingLatest(k: Key, r: int)
    ensures Latest([], k, r) == None
  {
  }

  lemma LiveIsKey(h: History, k: Key, r: int)
    requires IsLive(h, k, r)
    ensures k in Keys(h)
  {
  }

  /** The last word on a key decides what is read of it: the value and lease of a put, or nothing. */
  lemma LastWordRead(run: seq<Store>, acts: seq<Act>, i: nat, k: Key)
    requires IsPlay(run, acts) && i < |run|
    ensures var x, p, w := Range(run[i], k, None, 0, 0), PlayAll(acts[..i]), LastWord(acts[..i], k);
            if (if p.rev.sub > 0 then p.rev.main + 1 else p.rev.main) <= p.compacted then x == ErrCompacted
            else
              && x.Kvs?
              && if w.Some? && w.value.ActPut?
                 then |x.kvs| == 1 && x.kvs[0].key == k && x.kvs[0].value == w.value.value && x.kvs[0].lease == w.value.lease
                 else x.kvs == []
  {
    hide Range, PlayAll, PlaysAs, RangeAt, Does, LastWord, Obeys;
    RunPlays(run, acts, i);
    ReadBack(run, acts, i, k, None, 0, 0);
    var p := PlayAll(acts[..i]);
    var now := if p.rev.sub > 0 then p.rev.main + 1 else p.rev.main;
    LastWordHolds(acts[..i], k, p.rev.main + 1);
    forall e | e in p.h ensures e.rev.main <= now { PlayedInOrder(run[i], p, e); }
    LatestNow(p.h, k, now, p.rev.main + 1);
    OneKey(p.h, k, now, LastWord(acts[..i], k));
  }

  lemma OneKey(h: History, k: Key, r: int, w: Option<Act>)
    requires Obeys(Latest(h, k, r), k, w)
    ensures var kvs := RangeAt(h, k, None, r);
            if w.Some? && w.value.ActPut?
            then |kvs| == 1 && kvs[0].key == k && kvs[0].value == w.value.value && kvs[0].lease == w.value.lease
            else kvs == []
  {
    hide Latest, Ascending;
    var live := LiveKeys(h, k, None, r);
    if IsLive(h, k, r) {
      LiveIsKey(h, k, r);
      assert live == {k};
      assert Ascending(live)[0] in Ascending(live);
    } else {
      assert live == {};
    }
  }

  /** What a compaction request is answered, by the operations alone; it never ends the process. */
  lemma CompactionAnswered(run: seq<Store>, acts: seq<Act>, i: nat, c: nat)
    requires IsPlay(run, acts) && i < |run|
    ensures var x, p := Compact(run[i], c), PlayAll(acts[..i]);
            && (x.CompactErrCompacted? <==> c <= p.compacted)
            && (x.CompactErrFutureRev? <==> p.compacted < c && c > p.rev.main)
            && (x.Compacting? <==> p.compacted < c <= p.rev.main)
  {
    hide Does, PlayAll, IndexPanics, IndexCompact, IndexAvailable, Inv;
    RunPlays(run, acts, i);
    IndexCompacts(run[i], PlayAll(acts[..i]).h, c);
  }
}
