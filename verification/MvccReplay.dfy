/**
 * Applying a replicated log to the store. The store keeps the index of the last
 * applied entry beside the data, so entries that are applied again after a
 * restart have no effect.
 */
module MvccReplay {
  import opened Options
  import opened MvccKeyIndex
  import opened MvccKeys
  import opened MvccHistory
  import opened MvccStore
  import opened MvccInvariant
  import opened MvccRestore
  import opened MvccWatch
  import opened MvccWatchSafety

  datatype LogEntry = LogEntry(index: nat, ops: seq<Op>)

  /** consistent is the index stored in the backend, in the same transaction as the data. */
  datatype ConsistentStore = ConsistentStore(store: Store, consistent: nat)

  /** One entry is one transaction; all of its operations are skipped if its index is not new. */
  ghost function Apply(c: ConsistentStore, e: LogEntry): Option<ConsistentStore> {
    var s := BeginTxn(c.store);
    if e.index <= c.consistent then Some(c.(store := EndTxn(s)))
    else match RunOps(s, e.ops)
      case None => None
      case Some(t) => Some(ConsistentStore(EndTxn(t).(changes := []), e.index))
  }

  ghost function ApplyAll(c: ConsistentStore, es: seq<LogEntry>): Option<ConsistentStore> {
    if es == [] then Some(c)
    else match ApplyAll(c, es[..|es|-1])
      case None => None
      case Some(d) => Apply(d, es[|es|-1])
  }

  const EMPTY_STORE := ConsistentStore(NEW_STORE, 0)

  ghost predicate IsLog(es: seq<LogEntry>) {
    (forall i | 0 <= i < |es| :: es[i].index > 0) &&
    forall i, j | 0 <= i < j < |es| :: es[i].index < es[j].index
  }

  // ----- Stores that behave alike -----

  /** Records do not hold the sub revision of a creation, and nothing depends on it. */
  predicate GenerationAlike(g: Generation, f: Generation) {
    g.ver == f.ver && g.revs == f.revs && g.created.main == f.created.main
  }

  predicate KeyAlike(a: KeyIndex, b: KeyIndex) {
    && a.modified == b.modified && |a.generations| == |b.generations|
    && forall i | 0 <= i < |a.generations| :: GenerationAlike(a.generations[i], b.generations[i])
  }

  predicate IndexAlike(x: Index, y: Index) {
    x.Keys == y.Keys && forall k | k in x :: KeyAlike(x[k], y[k])
  }

  predicate StoreAlike(s: Store, t: Store) {
    && s.current == t.current && s.compacted == t.compacted && s.backend == t.backend && s.changes == t.changes
    && IndexAlike(s.index, t.index)
  }

  predicate OptionAlike(a: Option<Store>, b: Option<Store>) {
    match (a, b)
    case (Some(s), Some(t)) => StoreAlike(s, t)
    case (None, None) => true
    case _ => false
  }

  predicate LookupAlike(a: GetResult, b: GetResult) { (a.GetPanic? && b.GetPanic?) || SameLookup(a, b) }

  lemma KeyPutAlike(a: KeyIndex, b: KeyIndex, rev: Revision)
    requires KeyAlike(a, b)
    ensures KeyPut(a, rev).Some? == KeyPut(b, rev).Some?
    ensures KeyPut(a, rev).Some? ==> KeyAlike(KeyPut(a, rev).value, KeyPut(b, rev).value)
  {
  }

  lemma TombstoneAlike(a: KeyIndex, b: KeyIndex, rev: Revision)
    requires KeyAlike(a, b)
    ensures Tombstone(a, rev).Tombed? == Tombstone(b, rev).Tombed?
    ensures Tombstone(a, rev).Tombed? ==> KeyAlike(Tombstone(a, rev).ki, Tombstone(b, rev).ki)
    ensures Tombstone(a, rev).NoSuchKey? == Tombstone(b, rev).NoSuchKey?
  {
    hide KeyPut;
    KeyPutAlike(a, b, rev);
    if a.generations != [] { assert GenerationAlike(a.generations[|a.generations|-1], b.generations[|b.generations|-1]); }
  }

  lemma {:induction false} FindAlike(a: KeyIndex, b: KeyIndex, r: int, cg: nat)
    requires KeyAlike(a, b) && cg <= |a.generations|
    ensures FindGeneration(a.generations, r, cg) == FindGeneration(b.generations, r, cg)
  {
    if cg > 0 {
      assert GenerationAlike(a.generations[cg-1], b.generations[cg-1]);
      FindAlike(a, b, r, cg - 1);
    }
  }

  lemma GetAlike(x: Index, y: Index, k: Key, r: int)
    requires IndexAlike(x, y)
    ensures LookupAlike(IndexGet(x, k, r), IndexGet(y, k, r))
  {
    if k in x {
      FindAlike(x[k], y[k], r, |x[k].generations|);
      var f := FindGeneration(x[k].generations, r, |x[k].generations|);
      if f.Some? { assert GenerationAlike(x[k].generations[f.value], y[k].generations[f.value]); }
      if |x[k].generations| == 1 { assert GenerationAlike(x[k].generations[0], y[k].generations[0]); }
    }
  }

  lemma PutAlike(s: Store, t: Store, k: Key, value: seq<Byte>, lease: nat)
    requires StoreAlike(s, t)
    ensures OptionAlike(Put(s, k, value, lease), Put(t, k, value, lease))
  {
    hide IndexGet, KeyPut, KeyAlike;
    GetAlike(s.index, t.index, k, s.current.main + 1);
    KeyPutAlike(if k in s.index then s.index[k] else NEW_KEY, if k in t.index then t.index[k] else NEW_KEY, NextRev(s));
  }

  lemma DeleteAlike(s: Store, t: Store, k: Key, old_: Revision)
    requires StoreAlike(s, t)
    ensures OptionAlike(Delete(s, k, old_), Delete(t, k, old_))
  {
    hide Tombstone;
    if k in s.index { TombstoneAlike(s.index[k], t.index[k], NextRev(s)); }
  }

  lemma {:induction false} DeleteKeysAlike(s: Store, t: Store, x: Index, y: Index, r: int, ks: seq<Key>)
    requires StoreAlike(s, t) && IndexAlike(x, y)
    ensures OptionAlike(DeleteKeys(s, x, r, ks), DeleteKeys(t, y, r, ks))
    decreases |ks|
  {
    hide IndexGet, Delete, StoreAlike, IndexAlike;
    if ks != [] {
      GetAlike(x, y, ks[0], r);
      var g := IndexGet(x, ks[0], r);
      if g.Found? {
        DeleteAlike(s, t, ks[0], g.modified);
        var d, e := Delete(s, ks[0], g.modified), Delete(t, ks[0], g.modified);
        if d.Some? { DeleteKeysAlike(d.value, e.value, x, y, r, ks[1..]); }
      }
    }
  }

  lemma RunOpAlike(s: Store, t: Store, op: Op)
    requires StoreAlike(s, t)
    ensures OptionAlike(RunOp(s, op), RunOp(t, op))
  {
    hide Put, IndexGet, Ascending;
    match op
    case OpPut(k, v, l) => PutAlike(s, t, k, v, l);
    case OpDelete(lo, end) =>
      var r := ReadRev(s);
      var a := set k | k in s.index && InRange(k, lo, end) && IndexGet(s.index, k, r).Found?;
      var b := set k | k in t.index && InRange(k, lo, end) && IndexGet(t.index, k, r).Found?;
      forall k ensures k in a <==> k in b { GetAlike(s.index, t.index, k, r); }
      assert a == b;
      DeleteKeysAlike(s, t, s.index, t.index, r, IndexKeys(s.index, lo, end, r));
  }

  lemma {:induction false} RunOpsAlike(s: Store, t: Store, ops: seq<Op>)
    requires StoreAlike(s, t)
    ensures OptionAlike(RunOps(s, ops), RunOps(t, ops))
  {
    hide RunOp, StoreAlike;
    if ops != [] {
      var p := ops[..|ops|-1];
      RunOpsAlike(s, t, p);
      if RunOps(s, p).Some? { RunOpAlike(RunOps(s, p).value, RunOps(t, p).value, ops[|ops|-1]); }
    }
  }

  /** Alike up to the sub revision, which the next transaction resets. */
  predicate Same(c: ConsistentStore, d: ConsistentStore) {
    c.consistent == d.consistent && StoreAlike(BeginTxn(c.store), BeginTxn(d.store))
  }

  lemma ApplySame(c: ConsistentStore, d: ConsistentStore, e: LogEntry)
    requires Same(c, d)
    ensures Apply(c, e).Some? == Apply(d, e).Some?
    ensures Apply(c, e).Some? ==> Same(Apply(c, e).value, Apply(d, e).value)
  {
    hide RunOps;
    RunOpsAlike(BeginTxn(c.store), BeginTxn(d.store), e.ops);
  }

  lemma {:induction false} ApplyAllSame(c: ConsistentStore, d: ConsistentStore, es: seq<LogEntry>)
    requires Same(c, d)
    ensures ApplyAll(c, es).Some? == ApplyAll(d, es).Some?
    ensures ApplyAll(c, es).Some? ==> Same(ApplyAll(c, es).value, ApplyAll(d, es).value)
  {
    hide Apply, Same;
    if es != [] {
      var p := es[..|es|-1];
      ApplyAllSame(c, d, p);
      if ApplyAll(c, p).Some? { ApplySame(ApplyAll(c, p).value, ApplyAll(d, p).value, es[|es|-1]); }
    }
  }

  // ----- Reopening -----

  function LastMain(h: History): nat { if h == [] then 1 else h[|h|-1].rev.main }

  /** Between transactions, nothing having been compacted. */
  ghost predicate Settled(s: Store, h: History) {
    && Inv(s, h) && s.current.sub == 0 && s.changes == [] && s.compacted == -1 && s.current.main == LastMain(h)
  }

  lemma AllSurvive(s: Store, h: History)
    requires Settled(s, h)
    ensures forall e | e in h :: e.rev in s.backend
    ensures Surviving(h, s.backend) == h
  {
    hide IndexOk, JobOk, JobTidy, NoGaps, MetaAt, IsHistory, Clock;
    forall e | e in h ensures e.rev in s.backend { assert Stored(s.backend, h, e, -1); }
    KeepAll(h, s.backend);
  }

  lemma {:induction false} KeepAll(h: History, b: map<Revision, Record>)
    requires forall e | e in h :: e.rev in b
    ensures Surviving(h, b) == h
  {
    if h != [] {
      var p, e := h[..|h|-1], h[|h|-1];
      assert h == p + [e];
      assert e in h && forall f | f in p :: f in h;
      KeepAll(p, b);
    }
  }

  lemma NothingDropped(h: History, k: Key)
    requires IsHistory(h)
    ensures Dropped(Writes(h, k), -1) == 0 && (Writes(h, k) != [] ==> !Writes(h, k)[0].tomb)
  {
    assert WellFormed(Writes(h, k));
  }

  /** The rebuilt index of a key is the live one, but for the sub revision of its creation. */
  lemma RebuiltAlike(s: Store, h: History, ix: Index, k: Key)
    requires Settled(s, h) && RebuiltOk(ix, h, s.backend, k)
    ensures (k in ix <==> k in s.index) && (k in ix ==> KeyAlike(ix[k], s.index[k]))
  {
    hide BackendOk, JobOk, JobTidy, NoGaps, MetaAt, Clock, Writes, Dropped, Refines, Surviving;
    var w := Writes(h, k);
    AllSurvive(s, h);
    NothingDropped(h, k);
    assert IndexOk(s.index, h, k, -1);
    if w != [] {
      WritesBound(h, k, 0);
      var e :| e in h && KeyOf(e) == k && Write(e.rev, e.record.tomb) == w[0];
      assert w[0].rev in s.backend;
    }
    if k in ix {
      var m: nat, x: Revision :| Rebuilt(ix[k], w, s.backend, m, x);
      RefinesBound(With(ix[k], x), w, m);
      assert m == 0;
      RefinesUnique(With(ix[k], x), s.index[k], w, 0);
    }
    if k in s.index { RefinesBound(s.index[k], w, 0); }
  }

  /** Reopening the backend gives the same store. */
  lemma ReopenedSame(s: Store, h: History, listing: History)
    requires Settled(s, h) && IsListing(listing, s.backend)
    ensures Reopened(s.backend, -1, -1, listing).Some?
    ensures StoreAlike(BeginTxn(Reopened(s.backend, -1, -1, listing).value), s)
  {
    hide Inv, KeyAlike, RestoreIndex, RebuiltOk;
    ListingIsSurviving(s, h, listing);
    AllSurvive(s, h);
    RestorePrefix(s, h, h);
    var ix := RestoreIndex(listing).value;
    forall k ensures (k in ix <==> k in s.index) && (k in ix ==> KeyAlike(ix[k], s.index[k])) {
      RebuiltAlike(s, h, ix, k);
    }
  }

  // ----- Applying -----

  /** Applying a new entry keeps the store settled. */
  lemma ApplySettled(c: ConsistentStore, h: History, e: LogEntry) returns (g: History)
    requires Settled(c.store, h) && e.index > c.consistent
    ensures Apply(c, e).Some? && Apply(c, e).value.consistent == e.index && Settled(Apply(c, e).value.store, g)
  {
    hide Inv, RunOps;
    var s := c.store;
    assert BeginTxn(s) == s;
    RunOpsSome(s, h, e.ops);
    OpsInTxn(s, h, e.ops);
    var ext := OpsEvents(h, s.current.main + 1, e.ops);
    g := h + ext;
    EndTxnKeeps(RunOps(s, e.ops).value, g);
    ChangesDontMatter(EndTxn(RunOps(s, e.ops).value), g);
    if ext == [] { assert g == h; } else { assert g[|g|-1] == ext[|ext|-1] && ext[|ext|-1] in ext; }
  }

  lemma {:induction false} RunOpsSome(s: Store, h: History, ops: seq<Op>)
    requires Inv(s, h) && s.current.sub == 0 && s.changes == []
    ensures RunOps(s, ops).Some?
  {
    hide Inv, Put, DeleteRange;
    if ops != [] {
      var p := ops[..|ops|-1];
      RunOpsSome(s, h, p);
      OpsInTxn(s, h, p);
      var ext := OpsEvents(h, s.current.main + 1, p);
      var t := RunOps(s, p).value;
      match ops[|ops|-1]
      case OpPut(k, v, l) => PutKeeps(t, h + ext, k, v, l);
      case OpDelete(lo, end) => DeleteRangeKeeps(t, h + ext, lo, end);
    }
  }

  function LastApplied(es: seq<LogEntry>): nat { if es == [] then 0 else es[|es|-1].index }

  predicate NoneNew(es: seq<LogEntry>, consistent: nat) {
    forall i | 0 <= i < |es| :: es[i].index <= consistent
  }

  lemma {:induction false} AppliedOnce(es: seq<LogEntry>) returns (h: History)
    requires IsLog(es)
    ensures ApplyAll(EMPTY_STORE, es).Some?
    ensures var c := ApplyAll(EMPTY_STORE, es).value;
            Settled(c.store, h) && c.consistent == LastApplied(es)
  {
    hide Inv, Apply;
    if es == [] {
      h := [];
      InitialInv();
    } else {
      var p := es[..|es|-1];
      var h' := AppliedOnce(p);
      h := ApplySettled(ApplyAll(EMPTY_STORE, p).value, h', es[|es|-1]);
    }
  }

  lemma {:induction false} ApplyAllConcat(c: ConsistentStore, xs: seq<LogEntry>, ys: seq<LogEntry>)
    ensures ApplyAll(c, xs + ys) == match ApplyAll(c, xs) { case None => None case Some(d) => ApplyAll(d, ys) }
    decreases |ys|
  {
    hide Apply;
    if ys == [] {
      assert xs + ys == xs;
    } else {
      var p := ys[..|ys|-1];
      assert (xs + ys)[..|xs + ys|-1] == xs + p;
      ApplyAllConcat(c, xs, p);
    }
  }

  /** Entries that are not new leave the store the same. */
  lemma {:induction false} ReplaySkips(c: ConsistentStore, es: seq<LogEntry>)
    requires NoneNew(es, c.consistent)
    ensures ApplyAll(c, es).Some? && Same(ApplyAll(c, es).value, c)
  {
    if es != [] { ReplaySkips(c, es[..|es|-1]); }
  }

  /** Idempotent replay: after any number k of entries, reopening what the backend holds and applying
      again from any entry j not after the k-th ends in the same store as applying each entry once. */
  lemma IdempotentReplay(es: seq<LogEntry>, k: nat, j: nat, listing: History)
    requires IsLog(es) && j <= k <= |es|
    requires ApplyAll(EMPTY_STORE, es[..k]).Some? ==> IsListing(listing, ApplyAll(EMPTY_STORE, es[..k]).value.store.backend)
    ensures ApplyAll(EMPTY_STORE, es).Some? && ApplyAll(EMPTY_STORE, es[..k]).Some?
    ensures var stopped := ApplyAll(EMPTY_STORE, es[..k]).value;
            var store := Reopened(stopped.store.backend, -1, -1, listing);
            && store.Some?
            && var again := ApplyAll(ConsistentStore(store.value, stopped.consistent), es[j..]);
            again.Some? && Same(again.value, ApplyAll(EMPTY_STORE, es).value)
  {
    hide Apply, ApplyAll, IsListing, Reopened, Same, IsLog, NoneNew;
    LogPart(es, 0, k);
    NotNew(es, j, k);
    assert es == es[..k] + es[k..] && es[j..] == es[j..k] + es[k..];
    ReplayedAgain(es[..k], es[j..k], es[k..], listing);
  }

  /** Entries pre were applied before the restart; of these, mid are applied again. */
  lemma ReplayedAgain(pre: seq<LogEntry>, mid: seq<LogEntry>, tail: seq<LogEntry>, listing: History)
    requires IsLog(pre) && IsLog(pre + tail)
    requires NoneNew(mid, LastApplied(pre))
    requires ApplyAll(EMPTY_STORE, pre).Some? ==> IsListing(listing, ApplyAll(EMPTY_STORE, pre).value.store.backend)
    ensures ApplyAll(EMPTY_STORE, pre + tail).Some? && ApplyAll(EMPTY_STORE, pre).Some?
    ensures var stopped := ApplyAll(EMPTY_STORE, pre).value;
            var store := Reopened(stopped.store.backend, -1, -1, listing);
            && store.Some?
            && var again := ApplyAll(ConsistentStore(store.value, stopped.consistent), mid + tail);
            again.Some? && Same(again.value, ApplyAll(EMPTY_STORE, pre + tail).value)
  {
    hide Apply, ApplyAll, IsListing, Reopened, Same, IsLog, Settled, StoreAlike;
    var h := AppliedOnce(pre);
    var g := AppliedOnce(pre + tail);
    var stopped := ApplyAll(EMPTY_STORE, pre).value;
    ReopenedSame(stopped.store, h, listing);
    var restarted := ConsistentStore(Reopened(stopped.store.backend, -1, -1, listing).value, stopped.consistent);
    SameRestarted(restarted, stopped, h);
    ApplyAllConcat(EMPTY_STORE, pre, tail);
    Resumed(restarted, stopped, mid, tail);
  }

  lemma LogPart(es: seq<LogEntry>, i: nat, j: nat)
    requires IsLog(es) && i <= j <= |es|
    ensures IsLog(es[i..j]) && es[0..j] == es[..j]
  {
  }

  lemma SameRestarted(c: ConsistentStore, d: ConsistentStore, h: History)
    requires Settled(d.store, h) && c.consistent == d.consistent && StoreAlike(BeginTxn(c.store), d.store)
    ensures Same(c, d)
  {
    assert BeginTxn(d.store) == d.store;
  }

  lemma NotNew(es: seq<LogEntry>, j: nat, k: nat)
    requires IsLog(es) && j <= k <= |es|
    ensures NoneNew(es[j..k], LastApplied(es[..k]))
  {
  }

  /** Entries that are not new, then new ones, on a store that is the same. */
  lemma Resumed(c: ConsistentStore, d: ConsistentStore, mid: seq<LogEntry>, tail: seq<LogEntry>)
    requires Same(c, d) && NoneNew(mid, d.consistent)
    ensures ApplyAll(c, mid + tail).Some? == ApplyAll(d, tail).Some?
    ensures ApplyAll(c, mid + tail).Some? ==> Same(ApplyAll(c, mid + tail).value, ApplyAll(d, tail).value)
  {
    hide Apply, ApplyAll, StoreAlike;
    ReplaySkips(c, mid);
    ApplyAllConcat(c, mid, tail);
    var skipped := ApplyAll(c, mid).value;
    AlikeTransitive(BeginTxn(skipped.store), BeginTxn(c.store), BeginTxn(d.store));
    ApplyAllSame(skipped, d, tail);
  }

  lemma AlikeTransitive(a: Store, b: Store, c: Store)
    requires StoreAlike(a, b) && StoreAlike(b, c)
    ensures StoreAlike(a, c)
  {
    forall k | k in a.index ensures KeyAlike(a.index[k], c.index[k]) {
      assert KeyAlike(a.index[k], b.index[k]) && KeyAlike(b.index[k], c.index[k]);
      forall i | 0 <= i < |a.index[k].generations|
        ensures GenerationAlike(a.index[k].generations[i], c.index[k].generations[i])
      {
        assert GenerationAlike(a.index[k].generations[i], b.index[k].generations[i]);
        assert GenerationAlike(b.index[k].generations[i], c.index[k].generations[i]);
      }
    }
  }
}
