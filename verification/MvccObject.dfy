/** The store as the object whose fields the operations update in place. */
module MvccObject {
  import opened Options
  import opened MvccKeyIndex
  import opened MvccKeys
  import opened MvccHistory
  import opened MvccStore
  import opened MvccInvariant
  import opened MvccRestore

  /** Appending a key above all others. */
  lemma AscendingSnoc(s: set<Key>, k: Key)
    requires forall x | x in s :: KeyLess(x, k)
    ensures Ascending(s + {k}) == Ascending(s) + [k]
  {
    var r := Ascending(s) + [k];
    AscendingSorted(s);
    forall i, j | 0 <= i < j < |r| ensures KeyLess(r[i], r[j]) {
      if j == |r| - 1 { assert r[i] in Ascending(s); }
    }
    AscendingUnique(s + {k}, r);
  }

  /** The least key of a set, as an ascending walk of the tree meets it next. */
  method LeastKey(s: set<Key>) returns (m: Key)
    requires s != {}
    ensures IsMin(s, m)
  {
    m :| m in s;
    LessTotal(m, m);
    var todo := s - {m};
    while todo != {}
      invariant todo <= s && IsMin(s - todo, m)
      decreases todo
    {
      var k :| k in todo;
      LessTotal(k, k);
      LessTotal(k, m);
      if KeyLess(k, m) {
        forall x | x in s - todo ensures !KeyLess(x, k) {
          if KeyLess(x, k) { LessTransitive(x, k, m); }
        }
        m := k;
      }
      todo := todo - {k};
    }
    assert s - todo == s;
  }

  predicate IsFirst(s: set<Revision>, m: Revision) { m in s && forall r | r in s :: !Before(r, m) }

  /** The first revision of a set, as a cursor of the backend meets it next. */
  method FirstRev(s: set<Revision>) returns (m: Revision)
    requires s != {}
    ensures IsFirst(s, m)
  {
    m :| m in s;
    var todo := s - {m};
    while todo != {}
      invariant todo <= s && IsFirst(s - todo, m)
      decreases todo
    {
      var r :| r in todo;
      assert s - (todo - {r}) == (s - todo) + {r};
      forall x | x in s - todo ensures Before(r, m) ==> !Before(x, r) { assert !Before(x, m); }
      if Before(r, m) { m := r; }
      todo := todo - {r};
    }
    assert s - todo == s;
  }

  /** The first n revisions of a set, or all if there are fewer, and the last of those. */
  method FirstRevs(all: set<Revision>, n: nat) returns (batch: set<Revision>, rev: Revision)
    requires n > 0
    ensures batch <= all && |batch| <= n && (|batch| < n ==> batch == all)
    ensures |batch| == n ==> rev in batch && batch == set r | r in all && !Before(rev, r)
  {
    batch, rev := {}, ZERO;
    while |batch| < n && batch != all
      invariant batch <= all && |batch| <= n
      invariant batch != {} ==> rev in batch && forall r | r in all :: r in batch <==> !Before(rev, r)
      decreases n - |batch|
    {
      var next := FirstRev(all - batch);
      forall r | r in all ensures r in batch + {next} <==> !Before(next, r) {
        if r in all - batch { assert !Before(r, next); }
      }
      rev := next;
      batch := batch + {next};
    }
  }

  /** The keys of a set as an ascending walk of the tree lists them. */
  method Walked(s: set<Key>) returns (ks: seq<Key>)
    ensures ks == Ascending(s)
  {
    hide Ascending, KeyLess;
    ks := [];
    var todo := s;
    AscendingUnique({}, []);
    while todo != {}
      invariant todo <= s && ks == Ascending(s - todo)
      invariant forall x, y | x in s - todo && y in todo :: KeyLess(x, y)
      decreases todo
    {
      var k := LeastKey(todo);
      forall y | y in todo - {k} ensures KeyLess(k, y) { LessTotal(k, y); }
      AscendingSnoc(s - todo, k);
      assert s - (todo - {k}) == (s - todo) + {k};
      todo := todo - {k};
      ks := ks + [k];
    }
    assert s - todo == s;
  }

  /** rev is the revision of key k at r. */
  predicate IsRev(ix: Index, r: int, k: Key, rev: Revision) {
    IndexGet(ix, k, r).Found? && rev == IndexGet(ix, k, r).modified
  }

  /** The keys of a listing that are live at r. */
  function LiveOnly(ix: Index, ks: seq<Key>, r: int): seq<Key> {
    if ks == [] then []
    else
      var k := ks[|ks|-1];
      LiveOnly(ix, ks[..|ks|-1], r) + if IndexGet(ix, k, r).Found? then [k] else []
  }

  lemma {:induction false} LiveOnlyAre(ix: Index, ks: seq<Key>, r: int)
    requires StrictlyAscending(ks)
    ensures StrictlyAscending(LiveOnly(ix, ks, r))
    ensures forall k :: k in LiveOnly(ix, ks, r) <==> k in ks && IndexGet(ix, k, r).Found?
  {
    hide KeyLess, IndexGet;
    if ks != [] {
      var p, k := ks[..|ks|-1], ks[|ks|-1];
      assert ks == p + [k];
      LiveOnlyAre(ix, p, r);
      var live := LiveOnly(ix, p, r);
      forall i | 0 <= i < |live| ensures KeyLess(live[i], k) {
        assert live[i] in live;
        var j :| 0 <= j < |p| && p[j] == live[i];
        assert KeyLess(ks[j], ks[|ks|-1]);
      }
    }
  }

  lemma LiveOnlySnoc(ix: Index, ks: seq<Key>, k: Key, r: int)
    ensures LiveOnly(ix, ks + [k], r) == LiveOnly(ix, ks, r) + if IndexGet(ix, k, r).Found? then [k] else []
  {
    assert (ks + [k])[..|ks|] == ks;
  }

  lemma LiveOnlyNone(ix: Index, r: int)
    ensures LiveOnly(ix, [], r) == []
  {
  }

  lemma LiveOnlyIsRange(ix: Index, lo: Key, end: Option<Key>, r: int)
    ensures LiveOnly(ix, Ascending((set k | k in ix && InRange(k, lo, end))), r) == IndexKeys(ix, lo, end, r)
  {
    hide KeyLess, IndexGet, Ascending, InRange;
    var all := set k | k in ix && InRange(k, lo, end);
    AscendingSorted(all);
    LiveOnlyAre(ix, Ascending(all), r);
    var live := set k | k in ix && InRange(k, lo, end) && IndexGet(ix, k, r).Found?;
    AscendingUnique(live, LiveOnly(ix, Ascending(all), r));
  }

  class StoreObject {
    var current: Revision
    var compacted: int
    var index: Index
    var backend: map<Revision, Record>
    var changes: seq<KeyValue>
    var jobs: seq<Job>
    var scheduled: int
    var finished: int

    ghost function View(): Store
      reads this
    {
      Store(current, compacted, index, backend, changes, jobs, scheduled, finished)
    }

    constructor ()
      ensures View() == NEW_STORE
    {
      current, compacted, index, backend := Revision(1, 0), -1, map[], map[];
      changes, jobs, scheduled, finished := [], [], -1, -1;
    }

    /** The keys of the index in a range that are live at r, in order, with their revisions. */
    method RangeIndex(lo: Key, end: Option<Key>, r: int) returns (keys: seq<Key>, revs: seq<Revision>)
      ensures keys == IndexKeys(index, lo, end, r) && |revs| == |keys|
      ensures forall i | 0 <= i < |keys| :: IsRev(index, r, keys[i], revs[i])
    {
      hide Get, IndexKeys, LiveOnly, Ascending, KeyLess, InRange;
      keys, revs := [], [];
      var ks := Walked(set k | k in index && InRange(k, lo, end));
      LiveOnlyNone(index, r);
      for i := 0 to |ks|
        invariant keys == LiveOnly(index, ks[..i], r) && |revs| == |keys|
        invariant forall j | 0 <= j < |keys| :: IsRev(index, r, keys[j], revs[j])
      {
        LiveOnlySnoc(index, ks[..i], ks[i], r);
        assert ks[..i+1] == ks[..i] + [ks[i]];
        assert ks[i] in ks;
        var g := Get(index[ks[i]], r);
        if g.Found? {
          keys, revs := keys + [ks[i]], revs + [g.modified];
        }
      }
      assert ks[..|ks|] == ks;
      LiveOnlyIsRange(index, lo, end, r);
    }

    /** Reads a range at a revision; stops at the limit. */
    method RangeKeys(lo: Key, end: Option<Key>, limit: int, rangeRev: int) returns (res: RangeResult)
      ensures res == Range(View(), lo, end, limit, rangeRev)
    {
      hide IndexGet, IndexKeys, Fetch, AllPresent;
      var curRev := current.main;
      if current.sub > 0 { curRev := curRev + 1; }
      if rangeRev > curRev { return ErrFutureRev(current.main); }
      var rev: int := rangeRev;
      if rangeRev <= 0 { rev := curRev; }
      if rev <= compacted { return ErrCompacted; }
      var keys, revs := RangeIndex(lo, end, rev);
      var kvs, ok := FetchKvs(keys, revs, limit, rev);
      return if ok then Kvs(kvs, curRev) else Fatal;
    }

    method FetchKvs(keys: seq<Key>, revs: seq<Revision>, limit: int, rev: int) returns (kvs: seq<KeyValue>, ok: bool)
      requires |revs| == |keys| && forall i | 0 <= i < |keys| :: IsRev(index, rev, keys[i], revs[i])
      ensures ok == AllPresent(View(), rev, Limited(keys, limit))
      ensures ok ==> kvs == Fetch(View(), rev, Limited(keys, limit))
    {
      hide IndexGet;
      kvs := [];
      for i := 0 to |keys|
        invariant limit > 0 ==> i < limit || i == 0
        invariant AllPresent(View(), rev, keys[..i]) && kvs == Fetch(View(), rev, keys[..i])
      {
        assert IsRev(index, rev, keys[i], revs[i]);
        if revs[i] !in backend {
          assert keys[i] in Limited(keys, limit);
          return kvs, false;
        }
        assert keys[..i+1] == keys[..i] + [keys[i]];
        kvs := kvs + [backend[revs[i]].kv];
        assert AllPresent(View(), rev, keys[..i+1]);
        assert kvs == Fetch(View(), rev, keys[..i+1]);
        if limit > 0 && |kvs| >= limit { return kvs, true; }
      }
      assert keys[..|keys|] == keys;
      return kvs, true;
    }

    method PutKey(key: Key, value: seq<Byte>, lease: nat) returns (ok: bool)
      modifies this
      ensures Put(old(View()), key, value, lease) == if ok then Some(View()) else None
      ensures ok ==>
                var rev := Revision(old(current).main + 1, old(current).sub);
                && rev in backend && backend == old(backend)[rev := backend[rev]] && !backend[rev].tomb
                && backend[rev].kv.key == key && backend[rev].kv.value == value && backend[rev].kv.lease == lease
                && backend[rev].kv.mod == rev.main
    {
      hide Get, KeyPut;
      var rev := current.main + 1;
      var c := rev;
      var ver := 0;
      var g := if key in index then Get(index[key], rev) else NotFound;
      match g {
        case GetPanic => return false;
        case NotFound =>
        case Found(grev, created, v) =>
          c, ver := created.main, v;
          if grev !in backend || backend[grev].tomb { return false; }
      }
      ver := ver + 1;
      var kv := KeyValue(key, value, c, rev, ver, lease);
      var ki := KeyPut(if key in index then index[key] else NEW_KEY, Revision(rev, current.sub));
      if ki.None? { return false; }
      backend := backend[Revision(rev, current.sub) := Record(false, kv)];
      index := index[key := ki.value];
      changes := changes + [kv];
      current := current.(sub := current.sub + 1);
      return true;
    }

    method DeleteKey(key: Key, old_: Revision) returns (ok: bool)
      modifies this
      ensures Delete(old(View()), key, old_) == if ok then Some(View()) else None
    {
      hide Tombstone;
      var rev := Revision(current.main + 1, current.sub);
      backend := backend[rev := TombRecord(key)];
      if key !in index { return false; }
      var t := Tombstone(index[key], rev);
      if !t.Tombed? { return false; }
      index := index[key := t.ki];
      changes := changes + [TombRecord(key).kv];
      current := current.(sub := current.sub + 1);
      return old_ in backend && !backend[old_].tomb;
    }

    method DeleteRangeKeys(lo: Key, end: Option<Key>) returns (ok: bool, n: nat)
      modifies this
      ensures DeleteRange(old(View()), lo, end) == if ok then Some(View()) else None
      ensures n == |IndexKeys(old(index), lo, end, ReadRev(old(View())))|
    {
      hide IndexGet, IndexKeys, Delete;
      var rrev := current.main;
      if current.sub > 0 { rrev := rrev + 1; }
      var keys, revs := RangeIndex(lo, end, rrev);
      n := |keys|;
      ghost var ix := index;
      assert keys[0..] == keys;
      for i := 0 to |keys|
        invariant DeleteKeys(View(), ix, rrev, keys[i..]) == DeleteRange(old(View()), lo, end)
        invariant forall j | 0 <= j < |keys| :: IsRev(ix, rrev, keys[j], revs[j])
      {
        assert keys[i..][0] == keys[i] && keys[i..][1..] == keys[i+1..];
        assert IsRev(ix, rrev, keys[i], revs[i]);
        ok := DeleteKey(keys[i], revs[i]);
        if !ok { return; }
      }
      ok := true;
    }

    method TxnEnd()
      modifies this`current
      ensures View() == EndTxn(old(View()))
    {
      var main := current.main;
      if current.sub != 0 { main := main + 1; }
      current := Revision(main, 0);
    }

    /** Compacts the index of every key in turn. */
    method CompactIndex(c: nat, ghost h: History) returns (ok: bool, available: set<Revision>)
      requires Inv(View(), h) && compacted <= c
      modifies this`index
      ensures ok && index == IndexCompact(old(index), c) && available == IndexAvailable(old(index), c)
    {
      hide Inv, CompactKey, IsEmpty;
      var empty;
      ok, available, empty := CompactKeys(c, h);
      ok := DropKeys(empty);
    }

    /** Compacts every key in place and notes the keys of which nothing is left; false where one cannot
        be compacted. */
    method CompactKeys(c: nat, ghost h: History) returns (ok: bool, available: set<Revision>, empty: set<Key>)
      requires Inv(View(), h) && compacted <= c
      modifies this`index
      ensures ok && index == (map k | k in old(index) :: CompactKey(old(index)[k], c).0)
      ensures empty == (set k | k in old(index) && IsEmpty(CompactKey(old(index)[k], c).0))
      ensures available == IndexAvailable(old(index), c)
    {
      hide KeyCompact, Inv, CompactKey, CompactPanics, IsEmpty;
      available, empty := {}, {};
      var todo := index.Keys;
      ghost var ix := index;
      while todo != {}
        invariant todo <= ix.Keys
        invariant index == map k | k in ix :: if k in todo then ix[k] else CompactKey(ix[k], c).0
        invariant empty == set k | k in ix && k !in todo && IsEmpty(CompactKey(ix[k], c).0)
        invariant available == set k, rev | k in ix && k !in todo && rev in CompactKey(ix[k], c).1 :: rev
        decreases todo
      {
        var k := LeastKey(todo);
        CompactsOne(old(View()), h, c, k, available);
        if CompactPanics(index[k], c) { return false, available, empty; }
        var r := KeyCompact(index[k], c, available);
        available := r.1;
        index := index[k := r.0];
        if IsEmpty(r.0) { empty := empty + {k}; }
        todo := todo - {k};
      }
      ok := true;
    }

    /** Takes keys out of the index; false if one is not there. */
    method DropKeys(gone: set<Key>) returns (ok: bool)
      modifies this`index
      ensures ok == (gone <= old(index).Keys)
      ensures ok ==> index == map k | k in old(index) && k !in gone :: old(index)[k]
    {
      var todo := gone;
      while todo != {}
        invariant todo <= gone && index == map k | k in old(index) && (k !in gone || k in todo) :: old(index)[k]
        invariant gone - todo <= old(index).Keys
        decreases todo
      {
        var k :| k in todo;
        if k !in index { return false; }
        index := map j | j in index && j != k :: index[j];
        todo := todo - {k};
      }
      ok := true;
    }

    /** One batch of the oldest compaction job: looks at the next records in order of revision and
        deletes those that are not to be kept. */
    method CompactBatch()
      requires jobs != []
      modifies this
      ensures Batches(old(View()), View())
    {
      var j := jobs[0];
      var keys, rev := FirstRevs((set r | r in backend && !Before(r, j.last) && r.main <= j.at), BATCH_SIZE);
      DeleteAll(keys - j.keep);
      if |keys| < BATCH_SIZE {
        finished := j.at;
        jobs := jobs[1..];
        assert View() == AfterLastBatch(old(View()), j);
      } else {
        assert IsBatch(old(View()), j, rev);
        jobs := [j.(last := Revision(rev.main, rev.sub + 1))] + jobs[1..];
        assert View() == AfterBatch(old(View()), j, rev);
      }
    }

    method DeleteAll(revs: set<Revision>)
      modifies this`backend
      ensures backend == Without(old(backend), revs)
    {
      var todo := revs;
      while todo != {}
        invariant todo <= revs && backend == Without(old(backend), revs - todo)
        decreases todo
      {
        var rev :| rev in todo;
        backend := map r | r in backend && r != rev :: backend[r];
        todo := todo - {rev};
      }
      assert revs - todo == revs;
    }

    /** Rebuilds the index from the records of the backend in order of revision. */
    method RestoreRecords(es: History) returns (ok: bool)
      requires IsListing(es, backend)
      modifies this`index
      ensures RestoreIndex(es) == if ok then Some(index) else None
    {
      hide RestoreOne, KeyPut, Tombstone;
      index := map[];
      assert es[..0] == [];
      for i := 0 to |es|
        invariant RestoreIndex(es[..i]) == Some(index)
      {
        assert es[..i+1][..i] == es[..i] && es[..i+1][i] == es[i];
        ok := RestoreRecord(es[i]);
        if !ok {
          RestoreStuck(es, i + 1);
          return;
        }
      }
      assert es[..|es|] == es;
      ok := true;
    }

    method RestoreRecord(e: Event) returns (ok: bool)
      modifies this`index
      ensures RestoreOne(old(index), e) == if ok then Some(index) else None
    {
      hide KeyPut, Tombstone;
      var k, kv := KeyOf(e), e.record.kv;
      if e.record.tomb {
        if k !in index { return true; }
        match Tombstone(index[k], e.rev) {
          case Tombed(ki) => index := index[k := ki];
          case NoSuchKey =>
          case TombstonePanic => return false;
        }
        return true;
      }
      if k !in index {
        index := index[k := Restored(Revision(kv.create, 0), e.rev, kv.version)];
        return true;
      }
      var ki := KeyPut(index[k], e.rev);
      if ki.None? { return false; }
      index := index[k := ki.value];
      return true;
    }

    method CompactTo(c: nat, ghost h: History) returns (res: CompactResult)
      requires Inv(View(), h)
      modifies this
      ensures match Compact(old(View()), c)
              case Compacting(t) => View() == t && res == Compacting(t)
              case e => View() == old(View()) && res == e
    {
      hide IndexCompact, IndexAvailable, Inv, IndexPanics;
      if c <= compacted { return CompactErrCompacted; }
      if c > current.main { return CompactErrFutureRev; }
      IndexCompacts(View(), h, c);
      var ok, keep := CompactIndex(c, h);
      if !ok { return CompactFatal; }
      compacted := c;
      scheduled := c;
      jobs := jobs + [Job(c, keep, ZERO)];
      return Compacting(Store(current, compacted, index, backend, changes, jobs, scheduled, finished));
    }
  }

  lemma {:induction false} RestoreStuck(es: History, i: nat)
    requires i <= |es| && RestoreIndex(es[..i]).None?
    ensures RestoreIndex(es).None?
    decreases |es|
  {
    if i < |es| {
      var p := es[..|es|-1];
      assert p[..i] == es[..i];
      RestoreStuck(p, i);
    } else {
      assert es[..i] == es;
    }
  }

  lemma CompactsOne(s: Store, h: History, c: nat, k: Key, available: set<Revision>)
    requires Inv(s, h) && s.compacted <= c && k in s.index
    ensures s.index[k].generations != [] && !CompactPanics(s.index[k], c)
    ensures KeyCompact(s.index[k], c, available).0 == CompactKey(s.index[k], c).0
    ensures KeyCompact(s.index[k], c, available).1 == available + CompactKey(s.index[k], c).1
  {
    hide BackendOk, JobOk, JobTidy, NoGaps, MetaAt, Clock, Writes, Refines, Dropped, CompactPanics;
    var w := Writes(h, k);
    assert IndexOk(s.index, h, k, s.compacted) && WellFormed(w);
    DroppedGrows(w, s.compacted, c);
    NeverCompactPanics(s.index[k], w, Dropped(w, s.compacted), c);
    CompactRefines(s.index[k], w, Dropped(w, s.compacted), c, available);
    CompactRefines(s.index[k], w, Dropped(w, s.compacted), c, {});
  }
}
