/**
 * What every step of the store keeps: the index and the backend together hold
 * the history, except for records that no read at or above the compaction
 * revision can see.
 */
module MvccInvariant {
  import opened Options
  import opened MvccKeyIndex
  import opened MvccKeys
  import opened MvccHistory
  import opened MvccStore

  /** The events are those up to the current revision and those of the open transaction. */
  ghost predicate Clock(current: Revision, h: History) {
    current.main >= 1 && forall e | e in h :: 1 < e.rev.main && Before(e.rev, Revision(current.main + 1, current.sub))
  }

  ghost predicate IndexOk(ix: Index, h: History, k: Key, c: int) {
    var w := Writes(h, k);
    if k in ix then Refines(ix[k], w, Dropped(w, c)) else Dropped(w, c) == |w|
  }

  /** The record was replaced or deleted at or before revision c. */
  ghost predicate Gone(h: History, e: Event, c: int) {
    e.rev.main <= c && !(IsLive(h, KeyOf(e), c) && Latest(h, KeyOf(e), c).value == e)
  }

  ghost predicate Stored(b: map<Revision, Record>, h: History, e: Event, c: int) {
    (e.rev in b && b[e.rev] == e.record) || Gone(h, e, c)
  }

  ghost predicate BackendOk(b: map<Revision, Record>, h: History, c: int) {
    && (forall r | r in b :: Event(r, b[r]) in h)
    && (forall e | e in h :: Stored(b, h, e, c))
  }

  ghost predicate Keeps(keep: set<Revision>, h: History, k: Key, c: int) {
    IsLive(h, k, c) ==> Latest(h, k, c).value.rev in keep
  }

  ghost predicate JobOk(j: Job, h: History, c: int) {
    j.at <= c && forall k :: Keeps(j.keep, h, k, j.at)
  }

  /** A put records its revision, the revision that created the key and the number of puts since;
      a tombstone records the key alone. */
  ghost predicate MetaAt(h: History, e: Event) {
    var w := Writes(h, KeyOf(e));
    if e.record.tomb then e.record == TombRecord(KeyOf(e))
    else e.record.kv.mod == e.rev.main && exists n: nat :: IsPut(w, n, e)
  }

  ghost predicate IsPut(w: seq<Write>, n: nat, e: Event) {
    && n < |w| && w[n] == Write(e.rev, false)
    && e.record.kv.create == w[Start(w, n)].rev.main && e.record.kv.version == n + 1 - Start(w, n)
  }

  /** The records missing of a key are its first ones. */
  ghost predicate NoGap(b: map<Revision, Record>, e: Event, f: Event) {
    KeyOf(e) == KeyOf(f) && Before(e.rev, f.rev) && e.rev in b ==> f.rev in b
  }

  ghost predicate NoGaps(b: map<Revision, Record>, h: History) {
    forall e, f | e in h && f in h :: NoGap(b, e, f)
  }

  ghost predicate IsLiveRev(h: History, c: int, rev: Revision) {
    exists k :: IsLive(h, k, c) && Latest(h, k, c).value.rev == rev
  }

  /** A job keeps only what is live, and has already dropped everything else before last. */
  ghost predicate JobTidy(j: Job, b: map<Revision, Record>, h: History) {
    && (forall r | r in j.keep :: IsLiveRev(h, j.at, r))
    && (forall r | r in b && Before(r, j.last) && r.main <= j.at :: r in j.keep)
  }

  ghost predicate Inv(s: Store, h: History) {
    && IsHistory(h) && Clock(s.current, h) && s.compacted <= s.current.main
    && (forall k :: IndexOk(s.index, h, k, s.compacted))
    && BackendOk(s.backend, h, s.compacted)
    && (forall i | 0 <= i < |s.jobs| :: JobOk(s.jobs[i], h, s.compacted))
    && (forall i | 0 <= i < |s.jobs| :: JobTidy(s.jobs[i], s.backend, h))
    && NoGaps(s.backend, h)
    && (forall e | e in h :: MetaAt(h, e))
  }

  lemma InitialInv()
    ensures Inv(NEW_STORE, [])
  {
  }

  // ----- Lookups -----

  /** The index answers for every key as its history does. */
  lemma IndexGetIs(s: Store, h: History, k: Key, r: int)
    requires Inv(s, h) && s.compacted <= r
    ensures IndexGet(s.index, k, r) == FlatGet(Writes(h, k), r)
    ensures IndexGet(s.index, k, r).Found? <==> IsLive(h, k, r)
    ensures IsLive(h, k, r) ==> IndexGet(s.index, k, r).modified == Latest(h, k, r).value.rev
  {
    hide BackendOk, JobOk, MetaAt, JobTidy, NoGaps, Clock, FlatGet, Refines, Dropped, Get;
    var w := Writes(h, k);
    assert IndexOk(s.index, h, k, s.compacted);
    assert WellFormed(w);
    LookupIsLatest(h, k, r);
    if k in s.index { GetRefines(s.index[k], w, Dropped(w, s.compacted), s.compacted, r); } else { AllDropped(w, s.compacted, r); }
  }

  lemma AllDropped(w: seq<Write>, c: int, r: int)
    requires WellFormed(w) && Dropped(w, c) == |w| && c <= r
    ensures FlatGet(w, r) == NotFound
  {
    UptoGrows(w, c, r);
  }

  /** What is live at or above the compaction revision is in the backend. */
  lemma LiveIsStored(s: Store, h: History, k: Key, r: int)
    requires Inv(s, h) && s.compacted <= r && IsLive(h, k, r)
    ensures var e := Latest(h, k, r).value; e.rev in s.backend && s.backend[e.rev] == e.record
  {
    hide IndexOk, JobOk, MetaAt, JobTidy, NoGaps, Clock;
    var e := Latest(h, k, r).value;
    assert Stored(s.backend, h, e, s.compacted);
    if e.rev.main <= s.compacted { LatestBetween(h, k, s.compacted, r); }
  }

  lemma {:induction false} LatestBetween(h: History, k: Key, c: int, r: int)
    requires c <= r && Latest(h, k, r).Some? && Latest(h, k, r).value.rev.main <= c
    ensures Latest(h, k, c) == Latest(h, k, r)
  {
    var n := |h| - 1;
    if !(KeyOf(h[n]) == k && h[n].rev.main <= r) { LatestBetween(h[..n], k, c, r); }
  }

  lemma IndexKeysAre(s: Store, h: History, lo: Key, end: Option<Key>, r: int)
    requires Inv(s, h) && s.compacted <= r
    ensures IndexKeys(s.index, lo, end, r) == Ascending(LiveKeys(h, lo, end, r))
  {
    hide Inv;
    var a := set k | k in s.index && InRange(k, lo, end) && IndexGet(s.index, k, r).Found?;
    forall k ensures k in a <==> k in LiveKeys(h, lo, end, r) {
      IndexGetIs(s, h, k, r);
      if IsLive(h, k, r) { assert Latest(h, k, r).value in h; }
    }
    assert a == LiveKeys(h, lo, end, r);
  }

  lemma FetchAll(s: Store, h: History, r: int, ks: seq<Key>)
    requires Inv(s, h) && s.compacted <= r && forall k | k in ks :: IsLive(h, k, r)
    ensures AllPresent(s, r, ks) && Fetch(s, r, ks) == KvsAt(h, ks, r)
  {
    hide Inv, IsLive, Latest, IndexGet, KvAt;
    forall k | k in ks
      ensures IndexGet(s.index, k, r).Found? && IndexGet(s.index, k, r).modified in s.backend
      ensures s.backend[IndexGet(s.index, k, r).modified].kv == KvAt(h, k, r)
    {
      FetchOne(s, h, k, r);
    }
    forall i | 0 <= i < |ks| ensures Fetch(s, r, ks)[i] == KvsAt(h, ks, r)[i] {
      assert ks[i] in ks;
    }
  }

  lemma LimitedKvs(h: History, ks: seq<Key>, r: int, limit: int)
    ensures KvsAt(h, Limited(ks, limit), r) == Limited(KvsAt(h, ks, r), limit)
  {
    hide KvAt;
  }

  /** A range read above the compaction revision returns exactly what the history says, and never
      fails to find a record. */
  lemma RangeIs(s: Store, h: History, lo: Key, end: Option<Key>, limit: int, r: int)
    requires Inv(s, h) && s.compacted < r && 0 < r <= ReadRev(s)
    ensures Range(s, lo, end, limit, r) == Kvs(Limited(RangeAt(h, lo, end, r), limit), ReadRev(s))
  {
    hide Inv, IsLive, AllPresent, Fetch, IndexKeys, Ascending, KvsAt;
    var all := Ascending(LiveKeys(h, lo, end, r));
    var ks := Limited(all, limit);
    IndexKeysAre(s, h, lo, end, r);
    assert forall k | k in ks :: k in all;
    assert forall k | k in all :: k in LiveKeys(h, lo, end, r);
    FetchAll(s, h, r, ks);
    LimitedKvs(h, all, r, limit);
  }

  lemma FetchOne(s: Store, h: History, k: Key, r: int)
    requires Inv(s, h) && s.compacted <= r && IsLive(h, k, r)
    ensures IndexGet(s.index, k, r).Found? && IndexGet(s.index, k, r).modified in s.backend
    ensures !s.backend[IndexGet(s.index, k, r).modified].tomb
    ensures s.backend[IndexGet(s.index, k, r).modified].kv == KvAt(h, k, r)
  {
    hide Inv;
    IndexGetIs(s, h, k, r);
    LiveIsStored(s, h, k, r);
  }

  // ----- Writing -----

  /** A write may follow the history: its revision is the next one, and a delete needs a live key. */
  ghost predicate Follows(s: Store, h: History, e: Event) {
    && e.rev == NextRev(s)
    && (e.record.tomb ==> IsLive(h, KeyOf(e), e.rev.main))
  }

  lemma FollowsHistory(s: Store, h: History, e: Event)
    requires Inv(s, h) && Follows(s, h, e)
    ensures IsHistory(h + [e])
  {
    hide IndexOk, BackendOk, JobOk, MetaAt, JobTidy, NoGaps, Writes, WellFormed, IsLive;
    var g := h + [e];
    forall i, j | 0 <= i < j < |g| ensures Before(g[i].rev, g[j].rev) {
      if j == |h| { assert g[i] in h; }
    }
    forall k ensures WellFormed(Writes(g, k)) {
      WritesAppend(h, e, k);
      assert WellFormed(Writes(h, k));
      if k == KeyOf(e) { FollowsWrites(s, h, e); } else { assert Writes(g, k) == Writes(h, k); }
    }
  }

  lemma FollowsWrites(s: Store, h: History, e: Event)
    requires Inv(s, h) && Follows(s, h, e)
    ensures WellFormed(Writes(h, KeyOf(e)) + [Write(e.rev, e.record.tomb)])
  {
    hide IndexOk, BackendOk, JobOk, MetaAt, JobTidy, NoGaps, Writes, IsLive, Upto;
    var k, w := KeyOf(e), Writes(h, KeyOf(e));
    assert WellFormed(w);
    forall i | 0 <= i < |w| ensures Before(w[i].rev, e.rev) {
      WritesBound(h, k, i);
      var f :| f in h && KeyOf(f) == k && Write(f.rev, f.record.tomb) == w[i];
    }
    if e.record.tomb { LiveEnd(s, h, k); }
  }

  /** A key live at the next revision has a put as its last write. */
  lemma LiveEnd(s: Store, h: History, k: Key)
    requires Inv(s, h)
    ensures var w := Writes(h, k);
            && Upto(w, NextRev(s).main) == |w|
            && (IsLive(h, k, NextRev(s).main) <==> w != [] && !w[|w|-1].tomb)
  {
    hide IndexOk, BackendOk, JobOk, MetaAt, JobTidy, NoGaps, Writes;
    var w := Writes(h, k);
    assert WellFormed(w);
    LatestIsWrite(h, k, NextRev(s).main);
    if w != [] {
      WritesBound(h, k, |w| - 1);
      var f :| f in h && KeyOf(f) == k && Write(f.rev, f.record.tomb) == w[|w|-1];
      UptoIs(w, NextRev(s).main, |w|);
    }
  }

  /** Events after c change nothing at c. */
  lemma OldStaysGone(b: map<Revision, Record>, h: History, e: Event, f: Event, c: int)
    requires Stored(b, h, f, c) && e.rev.main > c && e.rev !in b && f.rev != e.rev
    ensures Stored(b[e.rev := e.record], h + [e], f, c)
  {
    LatestAppend(h, e, KeyOf(f), c);
  }

  lemma NextIsNew(s: Store, h: History)
    requires Inv(s, h)
    ensures NextRev(s) !in s.backend
  {
    hide IndexOk, JobOk, MetaAt, JobTidy, NoGaps, Stored, IsHistory;
    assert forall r | r in s.backend :: Event(r, s.backend[r]) in h && Before(r, NextRev(s));
  }

  lemma BackendAppend(s: Store, h: History, e: Event)
    requires Inv(s, h) && Follows(s, h, e)
    ensures e.rev !in s.backend && BackendOk(s.backend[e.rev := e.record], h + [e], s.compacted)
  {
    hide IndexOk, JobOk, MetaAt, JobTidy, NoGaps, Stored, IsHistory;
    var b, g := s.backend[e.rev := e.record], h + [e];
    NextIsNew(s, h);
    forall r | r in b ensures Event(r, b[r]) in g {
      if r == e.rev { assert g[|h|] == e; } else { assert Event(r, s.backend[r]) in h; }
    }
    forall f | f in g ensures Stored(b, g, f, s.compacted) {
      if f in h {
        assert Stored(s.backend, h, f, s.compacted);
        OldStaysGone(s.backend, h, e, f, s.compacted);
      } else {
        assert f == e;
        StoredNow(b, g, e, s.compacted);
      }
    }
  }

  lemma StoredNow(b: map<Revision, Record>, h: History, e: Event, c: int)
    requires e.rev in b && b[e.rev] == e.record
    ensures Stored(b, h, e, c)
  {
  }

  lemma JobAppend(j: Job, h: History, e: Event, c: int)
    requires JobOk(j, h, c) && e.rev.main > c
    ensures JobOk(j, h + [e], c)
  {
    forall k ensures Keeps(j.keep, h + [e], k, j.at) {
      assert Keeps(j.keep, h, k, j.at);
      LatestAppend(h, e, k, j.at);
    }
  }

  lemma JobTidyAppend(j: Job, b: map<Revision, Record>, h: History, e: Event, c: int)
    requires JobOk(j, h, c) && JobTidy(j, b, h) && e.rev.main > c
    ensures JobTidy(j, b[e.rev := e.record], h + [e])
  {
    hide Latest;
    forall r | r in j.keep ensures IsLiveRev(h + [e], j.at, r) {
      assert IsLiveRev(h, j.at, r);
      var k :| IsLive(h, k, j.at) && Latest(h, k, j.at).value.rev == r;
      LatestAppend(h, e, k, j.at);
    }
  }

  lemma NoGapsAppend(s: Store, h: History, e: Event)
    requires Inv(s, h) && e.rev == NextRev(s)
    ensures NoGaps(s.backend[e.rev := e.record], h + [e])
  {
    hide IndexOk, JobOk, MetaAt, JobTidy, BackendOk, IsHistory;
    var b := s.backend[e.rev := e.record];
    forall x, y | x in h + [e] && y in h + [e] ensures NoGap(b, x, y) {
      if x in h && y in h { assert NoGap(s.backend, x, y); } else { assert x == e || y == e; }
    }
  }

  lemma MetaAppend(h: History, e: Event, f: Event)
    requires MetaAt(h, f)
    ensures MetaAt(h + [e], f)
  {
    if !f.record.tomb {
      hide Writes, Start;
      var k := KeyOf(f);
      var w := Writes(h, k);
      var n: nat :| IsPut(w, n, f);
      WritesAppend(h, e, k);
      if KeyOf(e) == k {
        StartAppend(w, Write(e.rev, e.record.tomb), n);
        assert IsPut(w + [Write(e.rev, e.record.tomb)], n, f);
      } else {
        assert Writes(h + [e], k) == w;
      }
    }
  }

  lemma IndexAppendOther(ix: Index, h: History, e: Event, k: Key, c: int)
    requires IndexOk(ix, h, k, c) && KeyOf(e) != k
    ensures IndexOk(ix, h + [e], k, c)
  {
    WritesAppend(h, e, k);
    assert Writes(h + [e], k) == Writes(h, k);
  }

  /** A write that follows the history keeps the invariant, whatever did the bookkeeping. */
  lemma WriteKeeps(s: Store, h: History, e: Event, ix: Index, t: Store)
    requires Inv(s, h) && Follows(s, h, e) && MetaAt(h + [e], e)
    requires IndexOk(ix, h + [e], KeyOf(e), s.compacted)
    requires forall k | k != KeyOf(e) :: (k in ix <==> k in s.index) && (k in ix ==> ix[k] == s.index[k])
    requires t.backend == s.backend[e.rev := e.record] && t.index == ix && t.compacted == s.compacted
    requires t.jobs == s.jobs && t.current == s.current.(sub := s.current.sub + 1)
    ensures Inv(t, h + [e])
  {
    hide IndexOk, BackendOk, JobOk, MetaAt, JobTidy, NoGaps, IsHistory, Follows;
    FollowsHistory(s, h, e);
    BackendAppend(s, h, e);
    FollowsRev(s, h, e);
    forall f | f in h + [e] ensures 1 < f.rev.main && Before(f.rev, NextRev(t)) {
      if f in h { assert Before(f.rev, NextRev(s)); } else { assert f == e; }
    }
    forall k ensures IndexOk(ix, h + [e], k, s.compacted) {
      if k != KeyOf(e) {
        assert IndexOk(s.index, h, k, s.compacted);
        SameIndex(s.index, ix, h, k, s.compacted);
        IndexAppendOther(ix, h, e, k, s.compacted);
      }
    }
    forall i | 0 <= i < |t.jobs| ensures JobOk(t.jobs[i], h + [e], t.compacted) {
      assert JobOk(s.jobs[i], h, s.compacted);
      JobAppend(s.jobs[i], h, e, s.compacted);
    }
    forall i | 0 <= i < |t.jobs| ensures JobTidy(t.jobs[i], t.backend, h + [e]) {
      assert JobOk(s.jobs[i], h, s.compacted) && JobTidy(s.jobs[i], s.backend, h);
      JobTidyAppend(s.jobs[i], s.backend, h, e, s.compacted);
    }
    NoGapsAppend(s, h, e);
    forall f | f in h + [e] ensures MetaAt(h + [e], f) {
      if f in h { MetaAppend(h, e, f); }
    }
  }

  lemma FollowsRev(s: Store, h: History, e: Event)
    requires Follows(s, h, e)
    ensures e.rev == NextRev(s)
  {
  }

  lemma SameIndex(a: Index, b: Index, h: History, k: Key, c: int)
    requires IndexOk(a, h, k, c) && (k in a <==> k in b) && (k in a ==> a[k] == b[k])
    ensures IndexOk(b, h, k, c)
  {
  }

  lemma PutIndex(s: Store, h: History, e: Event)
    requires Inv(s, h) && Follows(s, h, e) && !e.record.tomb
    ensures IndexPut(s.index, KeyOf(e), e.rev).Some?
    ensures IndexOk(IndexPut(s.index, KeyOf(e), e.rev).value, h + [e], KeyOf(e), s.compacted)
  {
    hide BackendOk, JobOk, MetaAt, JobTidy, NoGaps, Writes, Refines, KeyPut, Dropped;
    var k, w, c := KeyOf(e), Writes(h, KeyOf(e)), s.compacted;
    assert IndexOk(s.index, h, k, c);
    FollowsWrites(s, h, e);
    WritesAppend(h, e, k);
    FlatGetAppend(w, Write(e.rev, false), c);
    if k in s.index {
      PutRefines(s.index[k], w, Dropped(w, c), e.rev);
    } else {
      AllDroppedEnds(w, c);
      NewKeyRefines(w, e.rev);
    }
  }

  lemma AllDroppedEnds(w: seq<Write>, c: int)
    requires Dropped(w, c) == |w|
    ensures w == [] || w[|w|-1].tomb
  {
  }

  lemma TombstoneIndex(s: Store, h: History, e: Event)
    requires Inv(s, h) && Follows(s, h, e) && e.record.tomb
    ensures IndexTombstone(s.index, KeyOf(e), e.rev).Some?
    ensures IndexOk(IndexTombstone(s.index, KeyOf(e), e.rev).value, h + [e], KeyOf(e), s.compacted)
  {
    hide BackendOk, JobOk, MetaAt, JobTidy, NoGaps, Writes, Refines, Tombstone, Dropped;
    var k, w, c := KeyOf(e), Writes(h, KeyOf(e)), s.compacted;
    assert IndexOk(s.index, h, k, c);
    FollowsWrites(s, h, e);
    WritesAppend(h, e, k);
    FlatGetAppend(w, Write(e.rev, true), c);
    LiveEnd(s, h, k);
    if k in s.index {
      TombstoneRefines(s.index[k], w, Dropped(w, c), e.rev);
    } else {
      AllDroppedEnds(w, c);
    }
  }

  /** The event of a put, from its arguments and the writes before it alone: created by this put or
      by the first since the last deletion, and counting the puts since. */
  ghost function PutEvent(h: History, rev: Revision, k: Key, value: seq<Byte>, lease: nat): Event {
    var w := Writes(h, k);
    if w == [] || w[|w|-1].tomb then Event(rev, Record(false, KeyValue(k, value, rev.main, rev.main, 1, lease)))
    else
      var first := Start(w, |w| - 1);
      Event(rev, Record(false, KeyValue(k, value, w[first].rev.main, rev.main, |w| - first + 1, lease)))
  }

  lemma PutEventIs(h: History, rev: Revision, k: Key, value: seq<Byte>, lease: nat)
    ensures var e := PutEvent(h, rev, k, value, lease);
            && e.rev == rev && !e.record.tomb && e.record.kv.key == k && e.record.kv.value == value && e.record.kv.lease == lease
            && e.record.kv.mod == rev.main
  {
  }

  /** The record of a put is the one its arguments and the history call for. */
  lemma PutMeta(s: Store, h: History, k: Key, value: seq<Byte>, lease: nat)
    requires Inv(s, h)
    ensures var e := PutEvent(h, NextRev(s), k, value, lease);
            PutKv(s, k, value, lease) == Some(e.record.kv) && KeyOf(e) == k && Follows(s, h, e) && MetaAt(h + [e], e)
  {
    hide IndexOk, BackendOk, JobOk, MetaAt, JobTidy, NoGaps, Writes, IndexGet;
    var main := s.current.main + 1;
    IndexGetIs(s, h, k, main);
    if IsLive(h, k, main) { FetchOne(s, h, k, main); }
    LiveEnd(s, h, k);
    var e := PutEvent(h, NextRev(s), k, value, lease);
    assert PutKv(s, k, value, lease) == Some(e.record.kv);
    MetaOfPut(s, h, e);
  }

  lemma MetaOfPut(s: Store, h: History, e: Event)
    requires Inv(s, h) && e.rev == NextRev(s) && !e.record.tomb && e.record.kv.mod == e.rev.main
    requires match FlatGet(Writes(h, KeyOf(e)), e.rev.main)
             case Found(_, created, ver) => e.record.kv.create == created.main && e.record.kv.version == ver + 1
             case _ => e.record.kv.create == e.rev.main && e.record.kv.version == 1
    ensures MetaAt(h + [e], e)
  {
    hide IndexOk, BackendOk, JobOk, Writes, Upto, IsHistory, Clock, Latest, WellFormed;
    var k, w, x := KeyOf(e), Writes(h, KeyOf(e)), Write(e.rev, false);
    WritesAppend(h, e, k);
    LiveEnd(s, h, k);
    var n := |w|;
    if n > 0 && !w[n-1].tomb {
      StartAppend(w, x, n - 1);
      StartSame(w + [x], n - 1, n);
    }
    assert IsPut(w + [x], n, e);
  }

  /** A put appends one event to the history and never fails. */
  lemma PutKeeps(s: Store, h: History, k: Key, value: seq<Byte>, lease: nat)
    requires Inv(s, h)
    ensures Put(s, k, value, lease).Some?
    ensures Inv(Put(s, k, value, lease).value, h + [PutEvent(h, NextRev(s), k, value, lease)])
  {
    hide Inv, Follows, MetaAt, JobTidy, NoGaps, IndexOk, PutKv, PutEvent;
    PutMeta(s, h, k, value, lease);
    PutEventIs(h, NextRev(s), k, value, lease);
    var e := PutEvent(h, NextRev(s), k, value, lease);
    PutIndex(s, h, e);
    WriteKeeps(s, h, e, IndexPut(s.index, k, e.rev).value, Put(s, k, value, lease).value);
  }

  lemma DeleteKeeps(s: Store, h: History, k: Key, old_: Revision)
    requires Inv(s, h) && IsLive(h, k, NextRev(s).main) && old_ == Latest(h, k, NextRev(s).main).value.rev
    ensures Delete(s, k, old_).Some? && Inv(Delete(s, k, old_).value, h + [Event(NextRev(s), TombRecord(k))])
  {
    hide Inv, MetaAt, JobTidy, NoGaps, IndexOk, Latest;
    var e := Event(NextRev(s), TombRecord(k));
    InvBasics(s, h);
    LiveIsStored(s, h, k, NextRev(s).main);
    TombstoneIndex(s, h, e);
    BackendAppend(s, h, e);
    assert MetaAt(h + [e], e) by { TombMeta(h + [e], e); }
    WriteKeeps(s, h, e, IndexTombstone(s.index, k, e.rev).value, Delete(s, k, old_).value);
  }

  lemma TombMeta(h: History, e: Event)
    requires e.record == TombRecord(KeyOf(e))
    ensures MetaAt(h, e)
  {
  }

  lemma InvBasics(s: Store, h: History)
    requires Inv(s, h)
    ensures IsHistory(h) && Clock(s.current, h) && s.compacted <= s.current.main
  {
  }

  // ----- Deleting a range -----

  /** What deleting the given keys adds to the history. */
  function Deletions(rev: Revision, ks: seq<Key>): History
    decreases |ks|
  {
    if ks == [] then [] else [Event(rev, TombRecord(ks[0]))] + Deletions(rev.(sub := rev.sub + 1), ks[1..])
  }

  /** Reads of the open transaction see all writes there are. */
  lemma LiveKeysNow(s: Store, h: History, lo: Key, end: Option<Key>)
    requires Inv(s, h)
    ensures LiveKeys(h, lo, end, ReadRev(s)) == LiveKeys(h, lo, end, NextRev(s).main)
  {
    hide Inv;
    InvBasics(s, h);
    forall k ensures Latest(h, k, ReadRev(s)) == Latest(h, k, NextRev(s).main) { LatestNow(h, k, ReadRev(s), NextRev(s).main); }
  }

  lemma {:induction false} LatestNow(h: History, k: Key, r: int, t: int)
    requires r <= t && forall e | e in h :: e.rev.main <= r || e.rev.main > t
    ensures Latest(h, k, r) == Latest(h, k, t)
  {
    if h != [] {
      assert h[|h|-1] in h;
      LatestNow(h[..|h|-1], k, r, t);
    }
  }

  /** Deleting one key leaves the others live, with the same record. */
  lemma DeleteLeaves(h: History, e: Event, k: Key, r: int)
    requires KeyOf(e) != k
    ensures Latest(h + [e], k, r) == Latest(h, k, r) && IsLive(h + [e], k, r) == IsLive(h, k, r)
  {
    LatestAppend(h, e, k, r);
  }

  ghost predicate Distinct(ks: seq<Key>) { forall i, j | 0 <= i < j < |ks| :: ks[i] != ks[j] }

  /** The keys are live now, and were looked up correctly in ix. */
  ghost predicate Deletable(s: Store, h: History, ix: Index, r: int, ks: seq<Key>) {
    && Distinct(ks)
    && forall k | k in ks ::
         && IsLive(h, k, NextRev(s).main) && IndexGet(ix, k, r).Found?
         && IndexGet(ix, k, r).modified == Latest(h, k, NextRev(s).main).value.rev
  }

  lemma DeletableRest(s: Store, t: Store, h: History, ix: Index, r: int, ks: seq<Key>)
    requires ks != [] && Deletable(s, h, ix, r, ks) && t.current.main == s.current.main
    ensures Deletable(t, h + [Event(NextRev(s), TombRecord(ks[0]))], ix, r, ks[1..])
  {
    hide Latest, IndexGet;
    var e := Event(NextRev(s), TombRecord(ks[0]));
    assert Distinct(ks[1..]) by {
      forall i, j | 0 <= i < j < |ks[1..]| ensures ks[1..][i] != ks[1..][j] { assert ks[i+1] != ks[j+1]; }
    }
    forall k | k in ks[1..]
      ensures IsLive(h + [e], k, NextRev(t).main) && IndexGet(ix, k, r).Found?
      ensures IndexGet(ix, k, r).modified == Latest(h + [e], k, NextRev(t).main).value.rev
    {
      var i :| 0 <= i < |ks[1..]| && ks[1..][i] == k;
      assert ks[0] != ks[i+1] && ks[i+1] in ks;
      DeleteLeaves(h, e, k, NextRev(s).main);
    }
  }

  lemma {:induction false} DeleteKeysKeeps(s: Store, h: History, ix: Index, r: int, ks: seq<Key>)
    requires Inv(s, h) && Deletable(s, h, ix, r, ks)
    ensures DeleteKeys(s, ix, r, ks).Some?
    ensures Inv(DeleteKeys(s, ix, r, ks).value, h + Deletions(NextRev(s), ks))
    decreases |ks|
  {
    hide Inv, Deletable, Delete, IndexGet;
    if ks == [] {
      assert h + Deletions(NextRev(s), ks) == h;
    } else {
      var rev := IndexGet(ix, ks[0], r).modified by { DeletableFirst(s, h, ix, r, ks); }
      DeletableFirst(s, h, ix, r, ks);
      DeleteKeeps(s, h, ks[0], rev);
      var t, e := Delete(s, ks[0], rev).value, Event(NextRev(s), TombRecord(ks[0]));
      assert t.current == s.current.(sub := s.current.sub + 1) by { DeleteMoves(s, ks[0], rev); }
      DeletableRest(s, t, h, ix, r, ks);
      DeleteKeysKeeps(t, h + [e], ix, r, ks[1..]);
      assert h + Deletions(NextRev(s), ks) == (h + [e]) + Deletions(NextRev(t), ks[1..]);
    }
  }

  lemma DeletableFirst(s: Store, h: History, ix: Index, r: int, ks: seq<Key>)
    requires ks != [] && Deletable(s, h, ix, r, ks)
    ensures IsLive(h, ks[0], NextRev(s).main) && IndexGet(ix, ks[0], r).Found?
    ensures IndexGet(ix, ks[0], r).modified == Latest(h, ks[0], NextRev(s).main).value.rev
  {
    assert ks[0] in ks;
  }

  lemma DeleteMoves(s: Store, k: Key, old_: Revision)
    requires Delete(s, k, old_).Some?
    ensures Delete(s, k, old_).value.current == s.current.(sub := s.current.sub + 1)
  {
  }

  /** Between transactions nothing is written at the next revision yet. */
  lemma ReadsAll(s: Store, h: History, k: Key)
    requires Inv(s, h)
    ensures Latest(h, k, ReadRev(s)) == Latest(h, k, NextRev(s).main)
  {
    hide IndexOk, BackendOk, JobOk, MetaAt, JobTidy, NoGaps, IsHistory;
    if s.current.sub == 0 { NoneAbove(h, k, ReadRev(s), NextRev(s).main); }
  }

  lemma {:induction false} NoneAbove(h: History, k: Key, c: int, r: int)
    requires c <= r && forall e | e in h :: e.rev.main <= c
    ensures Latest(h, k, c) == Latest(h, k, r)
  {
    if h != [] {
      assert h[|h|-1] in h;
      NoneAbove(h[..|h|-1], k, c, r);
    }
  }

  lemma RangeDeletable(s: Store, h: History, lo: Key, end: Option<Key>)
    requires Inv(s, h)
    ensures IndexKeys(s.index, lo, end, ReadRev(s)) == Ascending(LiveKeys(h, lo, end, ReadRev(s)))
    ensures Deletable(s, h, s.index, ReadRev(s), Ascending(LiveKeys(h, lo, end, ReadRev(s))))
  {
    hide Inv, IndexGet, Ascending, Latest;
    var ks, r := Ascending(LiveKeys(h, lo, end, ReadRev(s))), ReadRev(s);
    InvBasics(s, h);
    IndexKeysAre(s, h, lo, end, r);
    AscendingSorted(LiveKeys(h, lo, end, r));
    SortedDistinct(ks);
    forall k | k in ks
      ensures IsLive(h, k, NextRev(s).main) && IndexGet(s.index, k, r).Found?
      ensures IndexGet(s.index, k, r).modified == Latest(h, k, NextRev(s).main).value.rev
    {
      assert k in LiveKeys(h, lo, end, r);
      IndexGetIs(s, h, k, r);
      ReadsAll(s, h, k);
    }
  }

  /** Deleting a range deletes exactly the keys that are live in it, in ascending order. */
  lemma DeleteRangeKeeps(s: Store, h: History, lo: Key, end: Option<Key>)
    requires Inv(s, h)
    ensures DeleteRange(s, lo, end).Some?
    ensures Inv(DeleteRange(s, lo, end).value,
                h + Deletions(NextRev(s), Ascending(LiveKeys(h, lo, end, ReadRev(s)))))
  {
    hide Inv, Deletable, Ascending, DeleteKeys;
    RangeDeletable(s, h, lo, end);
    DeleteKeysKeeps(s, h, s.index, ReadRev(s), Ascending(LiveKeys(h, lo, end, ReadRev(s))));
  }

  lemma SortedDistinct(ks: seq<Key>)
    requires StrictlyAscending(ks)
    ensures Distinct(ks)
  {
    forall i, j | 0 <= i < j < |ks| ensures ks[i] != ks[j] {
      assert KeyLess(ks[i], ks[j]);
      LessTotal(ks[i], ks[i]);
    }
  }

  lemma EndTxnKeeps(s: Store, h: History)
    requires Inv(s, h)
    ensures Inv(EndTxn(s), h)
  {
    hide IndexOk, BackendOk, JobOk, MetaAt, JobTidy, NoGaps, IsHistory;
  }

  // ----- Compaction -----

  lemma CompactIndexOk(s: Store, h: History, c: nat, k: Key)
    requires Inv(s, h) && s.compacted <= c
    ensures IndexOk(IndexCompact(s.index, c), h, k, c)
    ensures k in s.index ==> CompactKey(s.index[k], c).1 == LiveAt(Writes(h, k), c)
  {
    hide BackendOk, JobOk, MetaAt, JobTidy, NoGaps, Writes, Refines, KeyCompact, Dropped, LiveAt, Clock;
    var w := Writes(h, k);
    assert IndexOk(s.index, h, k, s.compacted) && WellFormed(w);
    if k in s.index {
      DroppedGrows(w, s.compacted, c);
      CompactRefines(s.index[k], w, Dropped(w, s.compacted), c, {});
      if Dropped(w, c) < |w| { RefinesNotEmpty(KeyCompact(s.index[k], c, {}).0, w, Dropped(w, c)); }
      DroppedBound(w, c);
    } else {
      StaysDropped(w, s.compacted, c);
    }
  }

  /** Compaction of the index never meets a key it cannot compact. */
  lemma IndexCompacts(s: Store, h: History, c: int)
    requires Inv(s, h)
    ensures !IndexPanics(s.index, c)
  {
    hide BackendOk, JobOk, MetaAt, JobTidy, NoGaps, Clock, IsHistory, Writes, Refines, CompactPanics, Dropped;
    forall k | k in s.index ensures !CompactPanics(s.index[k], c) {
      assert IndexOk(s.index, h, k, s.compacted);
      NeverCompactPanics(s.index[k], Writes(h, k), Dropped(Writes(h, k), s.compacted), c);
    }
  }

  lemma DroppedBound(w: seq<Write>, c: int)
    ensures Dropped(w, c) <= |w|
  {
  }

  lemma StaysDropped(w: seq<Write>, c: int, d: int)
    requires WellFormed(w) && Dropped(w, c) == |w| && c <= d
    ensures Dropped(w, d) == |w|
  {
    UptoGrows(w, c, d);
  }

  /** The index reports exactly the revisions live at c as available. */
  lemma AvailableIsLive(s: Store, h: History, c: nat, rev: Revision)
    requires Inv(s, h) && s.compacted <= c
    ensures rev in IndexAvailable(s.index, c) <==> exists k :: IsLive(h, k, c) && Latest(h, k, c).value.rev == rev
  {
    hide Inv, CompactKey, LiveAt, Latest;
    InvBasics(s, h);
    forall k | k in s.index && rev in CompactKey(s.index[k], c).1
      ensures IsLive(h, k, c) && Latest(h, k, c).value.rev == rev
    {
      CompactIndexOk(s, h, c, k);
      LookupIsLatest(h, k, c);
    }
    forall k | IsLive(h, k, c) && Latest(h, k, c).value.rev == rev
      ensures k in s.index && rev in CompactKey(s.index[k], c).1
    {
      CompactIndexOk(s, h, c, k);
      LookupIsLatest(h, k, c);
      IndexGetIs(s, h, k, c);
    }
  }

  lemma StaysGone(b: map<Revision, Record>, h: History, e: Event, c: int, d: int)
    requires Stored(b, h, e, c) && c <= d
    ensures Stored(b, h, e, d)
  {
    if Gone(h, e, c) && IsLive(h, KeyOf(e), d) && Latest(h, KeyOf(e), d).value == e {
      LatestBetween(h, KeyOf(e), c, d);
    }
  }

  lemma CompactKeeps(s: Store, h: History, c: nat)
    requires Inv(s, h) && Compact(s, c).Compacting?
    ensures Inv(Compact(s, c).store, h)
  {
    hide IndexOk, JobOk, MetaAt, JobTidy, NoGaps, IsHistory, Clock, Stored, IndexCompact, IndexAvailable;
    var t := Compact(s, c).store;
    forall k ensures IndexOk(t.index, h, k, c) { CompactIndexOk(s, h, c, k); }
    forall e | e in h ensures Stored(t.backend, h, e, c) {
      assert Stored(s.backend, h, e, s.compacted);
      StaysGone(s.backend, h, e, s.compacted, c);
    }
    NewJobOk(s, h, c);
    forall i | 0 <= i < |t.jobs| ensures JobOk(t.jobs[i], h, c) && JobTidy(t.jobs[i], t.backend, h) {
      if i < |s.jobs| {
        assert JobOk(s.jobs[i], h, s.compacted) && JobTidy(s.jobs[i], s.backend, h);
        JobStays(s.jobs[i], h, s.compacted, c);
      }
    }
  }

  lemma JobStays(j: Job, h: History, c: int, d: int)
    requires JobOk(j, h, c) && c <= d
    ensures JobOk(j, h, d)
  {
  }

  lemma NewJobOk(s: Store, h: History, c: nat)
    requires Inv(s, h) && s.compacted <= c
    ensures JobOk(Job(c, IndexAvailable(s.index, c), ZERO), h, c)
    ensures JobTidy(Job(c, IndexAvailable(s.index, c), ZERO), s.backend, h)
  {
    hide Inv, IndexAvailable, Latest;
    forall k ensures Keeps(IndexAvailable(s.index, c), h, k, c) {
      if IsLive(h, k, c) { AvailableIsLive(s, h, c, Latest(h, k, c).value.rev); }
    }
    forall r | r in IndexAvailable(s.index, c) ensures IsLiveRev(h, c, r) { AvailableIsLive(s, h, c, r); }
  }

  /** Records that a job drops were gone already. */
  lemma DropsGone(s: Store, h: History, j: Job, e: Event)
    requires Inv(s, h) && JobOk(j, h, s.compacted) && e in h && e.rev.main <= j.at && e.rev !in j.keep
    ensures Gone(h, e, s.compacted)
  {
    hide Inv;
    var k := KeyOf(e);
    assert Keeps(j.keep, h, k, j.at);
    if IsLive(h, k, s.compacted) && Latest(h, k, s.compacted).value == e {
      LatestBetween(h, k, j.at, s.compacted);
    }
  }

  /** A job drops, with a record, everything earlier of the same key that is still there. */
  lemma DropsEarlier(s: Store, h: History, j: Job, e: Event, f: Event)
    requires Inv(s, h) && JobTidy(j, s.backend, h) && e in h && f in h && KeyOf(e) == KeyOf(f)
    requires Before(e.rev, f.rev) && e.rev in s.backend && f.rev.main <= j.at
    ensures e.rev !in j.keep && e.rev in Remaining(s, j)
  {
    hide IndexOk, JobOk, MetaAt, Clock, NoGaps;
    if e.rev in j.keep {
      assert IsLiveRev(h, j.at, e.rev);
      var k :| IsLive(h, k, j.at) && Latest(h, k, j.at).value.rev == e.rev;
      SameEvent(h, Latest(h, k, j.at).value, e);
      LatestBound(h, k, j.at, f);
    }
  }

  lemma SameEvent(h: History, e: Event, f: Event)
    requires Increasing(h) && e in h && f in h && e.rev == f.rev
    ensures e == f
  {
    var i :| 0 <= i < |h| && h[i] == e;
    var j :| 0 <= j < |h| && h[j] == f;
    assert i == j;
  }

  /** The records that a batch of job j drops when it has dealt with everything before last. */
  function BatchDrops(s: Store, j: Job, last: Revision): set<Revision> {
    (set r | r in Remaining(s, j) && Before(r, last)) - j.keep
  }

  lemma DropNoGaps(s: Store, h: History, j: Job, last: Revision)
    requires Inv(s, h) && JobTidy(j, s.backend, h)
    ensures NoGaps(Without(s.backend, BatchDrops(s, j, last)), h)
  {
    hide IndexOk, JobOk, MetaAt, JobTidy, IsHistory, Clock;
    var gone := BatchDrops(s, j, last);
    var b := Without(s.backend, gone);
    forall e, f | e in h && f in h ensures NoGap(b, e, f) {
      assert NoGap(s.backend, e, f);
      if KeyOf(e) == KeyOf(f) && Before(e.rev, f.rev) && e.rev in b && f.rev in gone {
        DropsEarlier(s, h, j, e, f);
        assert false;
      }
    }
  }

  lemma DropTidy(j: Job, b: map<Revision, Record>, h: History, gone: set<Revision>)
    requires JobTidy(j, b, h)
    ensures JobTidy(j, Without(b, gone), h)
  {
  }

  lemma DropMoves(s: Store, j: Job, h: History, last: Revision)
    requires JobTidy(j, s.backend, h)
    ensures JobTidy(j.(last := last), Without(s.backend, BatchDrops(s, j, last)), h)
  {
    hide IsLiveRev;
  }

  lemma WithoutKeeps(s: Store, h: History, j: Job, last: Revision, t: Store)
    requires Inv(s, h) && JobOk(j, h, s.compacted) && JobTidy(j, s.backend, h)
    requires t.backend == Without(s.backend, BatchDrops(s, j, last))
    requires t.index == s.index && t.compacted == s.compacted && t.current == s.current
    requires forall i | 0 <= i < |t.jobs| :: JobOk(t.jobs[i], h, s.compacted) && JobTidy(t.jobs[i], t.backend, h)
    ensures Inv(t, h)
  {
    hide IndexOk, JobOk, MetaAt, JobTidy, NoGaps, IsHistory, Clock, Gone;
    forall e | e in h ensures Stored(t.backend, h, e, s.compacted) {
      assert Stored(s.backend, h, e, s.compacted);
      if e.rev in BatchDrops(s, j, last) { DropsGone(s, h, j, e); }
    }
    DropNoGaps(s, h, j, last);
  }

  lemma JobsLeft(s: Store, h: History, gone: set<Revision>, i: nat)
    requires Inv(s, h) && i < |s.jobs|
    ensures JobOk(s.jobs[i], h, s.compacted) && JobTidy(s.jobs[i], s.backend, h)
    ensures JobTidy(s.jobs[i], Without(s.backend, gone), h)
  {
    hide IndexOk, JobOk, MetaAt, NoGaps, IsHistory, Clock, BackendOk;
    assert JobTidy(s.jobs[i], s.backend, h);
    DropTidy(s.jobs[i], s.backend, h, gone);
  }

  lemma BatchKeeps(s: Store, h: History, t: Store)
    requires Inv(s, h) && Batches(s, t)
    ensures Inv(t, h)
  {
    hide Inv, JobOk, JobTidy, Without, Remaining;
    var j := s.jobs[0];
    JobsLeft(s, h, {}, 0);
    if |Remaining(s, j)| < BATCH_SIZE && t == AfterLastBatch(s, j) {
      var last := Revision(j.at + 1, 0);
      LastBatchDrops(s, j);
      forall i | 0 <= i < |t.jobs| ensures JobOk(t.jobs[i], h, s.compacted) && JobTidy(t.jobs[i], t.backend, h) {
        JobsLeft(s, h, BatchDrops(s, j, last), i + 1);
      }
      WithoutKeeps(s, h, j, last, t);
    } else {
      var u :| IsBatch(s, j, u) && t == AfterBatch(s, j, u);
      var last := Revision(u.main, u.sub + 1);
      BatchIsDrops(s, j, u);
      SameJob(j, h, s.compacted, last);
      DropMoves(s, j, h, last);
      forall i | 0 <= i < |t.jobs| ensures JobOk(t.jobs[i], h, s.compacted) && JobTidy(t.jobs[i], t.backend, h) {
        if i > 0 { JobsLeft(s, h, BatchDrops(s, j, last), i); }
      }
      WithoutKeeps(s, h, j, last, t);
    }
  }

  lemma LastBatchDrops(s: Store, j: Job)
    ensures Remaining(s, j) - j.keep == BatchDrops(s, j, Revision(j.at + 1, 0))
  {
  }

  lemma BatchIsDrops(s: Store, j: Job, u: Revision)
    ensures (set r | r in Remaining(s, j) && !Before(u, r)) - j.keep == BatchDrops(s, j, Revision(u.main, u.sub + 1))
  {
  }

  lemma SameJob(j: Job, h: History, c: int, last: Revision)
    requires JobOk(j, h, c)
    ensures JobOk(j.(last := last), h, c)
  {
    forall k ensures Keeps(j.(last := last).keep, h, k, j.at) { assert Keeps(j.keep, h, k, j.at); }
  }
}
