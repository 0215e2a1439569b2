/**
 * Watchers. A watcher is synced when it has everything up to the current
 * revision and is notified by each transaction; when its channel is full it
 * becomes unsynced and catches up from the backend, in batches.
 */
module MvccWatch {
  import opened Options
  import opened MvccKeys
  import opened MvccHistory
  import opened MvccStore
  import opened MvccRestore

  datatype WatchEvent = WatchEvent(delete: bool, kv: KeyValue)

  /** The event a watcher is to receive for an event of the history. */
  function ToWatch(e: Event): WatchEvent {
    if e.record.tomb then WatchEvent(true, e.record.kv.(mod := e.rev.main)) else WatchEvent(false, e.record.kv)
  }

  predicate Concerns(e: Event, lo: Key, end: Option<Key>, from: int, upto: int) {
    InRange(KeyOf(e), lo, end) && from <= e.rev.main <= upto
  }

  /** All events of a range from one revision to another. */
  function Expected(h: History, lo: Key, end: Option<Key>, from: int, upto: int): seq<WatchEvent> {
    if h == [] then []
    else
      var e := h[|h|-1];
      Expected(h[..|h|-1], lo, end, from, upto) + if Concerns(e, lo, end, from, upto) then [ToWatch(e)] else []
  }

  // ----- Batches -----

  const WATCH_BATCH_MAX_REVS := 1000

  datatype EventBatch = EventBatch(evs: seq<WatchEvent>, revs: nat, moreRev: nat)

  const NEW_BATCH := EventBatch([], 0, 0)

  function AddEvent(eb: EventBatch, ev: WatchEvent): EventBatch {
    if eb.revs > WATCH_BATCH_MAX_REVS then eb
    else if eb.evs == [] then eb.(revs := 1, evs := [ev])
    else if ev.kv.mod > eb.evs[|eb.evs|-1].kv.mod then
      if eb.revs + 1 > WATCH_BATCH_MAX_REVS then eb.(revs := eb.revs + 1, moreRev := ev.kv.mod)
      else eb.(revs := eb.revs + 1, evs := eb.evs + [ev])
    else eb.(evs := eb.evs + [ev])
  }

  function BatchOf(evs: seq<WatchEvent>): EventBatch {
    if evs == [] then NEW_BATCH else AddEvent(BatchOf(evs[..|evs|-1]), evs[|evs|-1])
  }

  predicate Ordered(evs: seq<WatchEvent>) {
    (forall i | 0 <= i < |evs| :: evs[i].kv.mod > 0) &&
    forall i, j | 0 <= i < j < |evs| :: evs[i].kv.mod <= evs[j].kv.mod
  }

  /** A batch is a non-empty prefix of the events; it either takes them all or stops exactly before
      the first event of revision moreRev. */
  ghost predicate Splits(evs: seq<WatchEvent>, eb: EventBatch) {
    var n := |eb.evs|;
    && n <= |evs| && eb.evs == evs[..n] && (evs != [] ==> n > 0)
    && (eb.moreRev == 0 ==> n == |evs| && eb.revs <= WATCH_BATCH_MAX_REVS)
    && (eb.moreRev != 0 ==> eb.revs > WATCH_BATCH_MAX_REVS && 0 < n < |evs|
                            && evs[n].kv.mod == eb.moreRev && evs[n-1].kv.mod < eb.moreRev)
  }

  lemma AddSplits(evs: seq<WatchEvent>, ev: WatchEvent, eb: EventBatch)
    requires Splits(evs, eb) && Ordered(evs + [ev])
    ensures Splits(evs + [ev], AddEvent(eb, ev))
  {
    var all, n := evs + [ev], |eb.evs|;
    assert all[|evs|] == ev && ev.kv.mod > 0;
    assert all[..n] == evs[..n];
    if n == |evs| { assert all[..n+1] == evs + [ev]; }
    if evs != [] { assert all[|evs|-1].kv.mod <= all[|evs|].kv.mod; }
  }

  lemma {:induction false} BatchSplits(evs: seq<WatchEvent>)
    requires Ordered(evs)
    ensures Splits(evs, BatchOf(evs))
  {
    if evs != [] {
      hide Splits;
      var p := evs[..|evs|-1];
      BatchSplits(p);
      assert evs == p + [evs[|evs|-1]];
      AddSplits(p, evs[|evs|-1], BatchOf(p));
    }
  }

  /** Events of a single revision always fit. */
  lemma {:induction false} OneRevision(evs: seq<WatchEvent>, rev: nat)
    requires evs != [] && forall i | 0 <= i < |evs| :: evs[i].kv.mod == rev
    ensures BatchOf(evs).evs == evs && BatchOf(evs).revs == 1 && BatchOf(evs).moreRev == 0
  {
    var p, ev := evs[..|evs|-1], evs[|evs|-1];
    assert evs == p + [ev];
    if p != [] {
      forall i | 0 <= i < |p| ensures p[i].kv.mod == rev { assert p[i] == evs[i]; }
      OneRevision(p, rev);
    } else {
      assert BatchOf(p) == NEW_BATCH;
    }
    hide BatchOf;
    BatchSnoc(p, ev);
  }

  lemma BatchSnoc(evs: seq<WatchEvent>, ev: WatchEvent)
    ensures BatchOf(evs + [ev]) == AddEvent(BatchOf(evs), ev)
  {
    assert (evs + [ev])[..|evs|] == evs;
  }

  // ----- Watchers -----

  /** from is the revision the watcher was promised events from; sent are the batches it received. */
  datatype Watcher = Watcher(lo: Key, end: Option<Key>, cur: nat, synced: bool, from: nat, sent: seq<seq<WatchEvent>>)

  /** The events of a list that are for the watcher and not behind it. */
  function Matching(w: Watcher, evs: seq<WatchEvent>): seq<WatchEvent> {
    if evs == [] then []
    else
      var ev := evs[|evs|-1];
      Matching(w, evs[..|evs|-1]) + if InRange(ev.kv.key, w.lo, w.end) && ev.kv.mod >= w.cur then [ev] else []
  }

  /** A new watcher; start 0 means from now on. */
  function NewWatcher(lo: Key, end: Option<Key>, start: nat, currentRev: nat): Watcher {
    var synced := start > currentRev || start == 0;
    var cur := if synced then if start > currentRev + 1 then start else currentRev + 1 else start;
    Watcher(lo, end, cur, synced, cur, [])
  }

  /** A synced watcher meets the events of a transaction; full says that its channel is. */
  function Notify(w: Watcher, rev: nat, evs: seq<WatchEvent>, full: bool): Watcher {
    var eb := BatchOf(Matching(w, evs));
    if !w.synced || eb.evs == [] then w
    else if full then w.(cur := rev, synced := false)
    else w.(sent := w.sent + [eb.evs])
  }

  /** An unsynced watcher catches up; None if it was told that it is behind the compaction and dropped. */
  function Sync(w: Watcher, evs: seq<WatchEvent>, curRev: nat, compactRev: int, full: bool): Option<Watcher> {
    var eb := BatchOf(Matching(w, evs));
    if w.synced then Some(w)
    else if w.cur < compactRev && !full then None
    else if eb.evs == [] then Some(w.(cur := curRev, synced := true))
    else if full then Some(w)
    else if eb.moreRev != 0 then Some(w.(sent := w.sent + [eb.evs], cur := eb.moreRev))
    else Some(w.(sent := w.sent + [eb.evs], cur := curRev, synced := true))
  }

  // ----- The watchable store -----

  datatype Op = OpPut(key: Key, value: seq<Byte>, lease: nat) | OpDelete(lo: Key, end: Option<Key>)

  ghost function RunOp(s: Store, op: Op): Option<Store> {
    match op
    case OpPut(k, v, l) => Put(s, k, v, l)
    case OpDelete(lo, end) => DeleteRange(s, lo, end)
  }

  ghost function RunOps(s: Store, ops: seq<Op>): Option<Store> {
    if ops == [] then Some(s)
    else match RunOps(s, ops[..|ops|-1])
      case None => None
      case Some(t) => RunOp(t, ops[|ops|-1])
  }

  type Watchers = map<nat, Watcher>

  datatype State = State(store: Store, watchers: Watchers)

  /** The changes of a transaction as events: a change without creation revision is a deletion. */
  function TxnEvents(changes: seq<KeyValue>, rev: nat): seq<WatchEvent> {
    seq(|changes|, i requires 0 <= i < |changes| =>
      if changes[i].create == 0 then WatchEvent(true, changes[i].(mod := rev)) else WatchEvent(false, changes[i]))
  }

  ghost predicate Txns(s: State, t: State, ops: seq<Op>, full: set<nat>) {
    var r := RunOps(s.store, ops);
    && r.Some?
    && var done := EndTxn(r.value);
    && t.store == done.(changes := [])
    && t.watchers == map id | id in s.watchers ::
                       Notify(s.watchers[id], done.current.main, TxnEvents(done.changes, done.current.main), id in full)
  }

  /** The least revision some unsynced watcher waits for, watchers behind the compaction aside. */
  predicate Waits(ws: Watchers, compactRev: int, id: nat) {
    id in ws && !ws[id].synced && compactRev <= ws[id].cur
  }

  ghost predicate IsMinRev(ws: Watchers, compactRev: int, minRev: int) {
    && (forall id | Waits(ws, compactRev, id) :: minRev <= ws[id].cur)
    && (forall id | Waits(ws, compactRev, id) :: exists j :: Waits(ws, compactRev, j) && minRev == ws[j].cur)
  }

  /** Some unsynced watcher watches the key. */
  predicate Watched(ws: Watchers, k: Key) {
    exists id | id in ws :: !ws[id].synced && InRange(k, ws[id].lo, ws[id].end)
  }

  /** The records of the backend from minRev on, as events. */
  function CatchUp(ws: Watchers, es: History, minRev: int, curRev: int): seq<WatchEvent> {
    if es == [] then []
    else
      var e := es[|es|-1];
      CatchUp(ws, es[..|es|-1], minRev, curRev) +
      if minRev <= e.rev.main <= curRev && Watched(ws, KeyOf(e)) then [ToWatch(e)] else []
  }

  ghost predicate Syncs(s: State, t: State, es: History, minRev: int, full: set<nat>) {
    && IsListing(es, s.store.backend) && IsMinRev(s.watchers, s.store.compacted, minRev)
    && t.store == s.store
    && var evs := CatchUp(s.watchers, es, minRev, s.store.current.main);
    && t.watchers == map id | id in s.watchers
                       && Sync(s.watchers[id], evs, s.store.current.main, s.store.compacted, id in full).Some? ::
                       Sync(s.watchers[id], evs, s.store.current.main, s.store.compacted, id in full).value
  }

  /** Watchers come and go. */
  ghost predicate Registers(s: State, t: State, id: nat, lo: Key, end: Option<Key>, start: nat) {
    && id !in s.watchers
    && t == s.(watchers := s.watchers[id := NewWatcher(lo, end, start, s.store.current.main)])
  }

  ghost predicate Cancels(s: State, t: State, id: nat) {
    id in s.watchers && t == s.(watchers := map j | j in s.watchers && j != id :: s.watchers[j])
  }

  /** Compaction and its background batches. */
  ghost predicate Compacts(s: State, t: State) {
    && t.watchers == s.watchers
    && (|| (exists c :: Compact(s.store, c) == Compacting(t.store))
        || Batches(s.store, t.store)
        || (s.store.jobs != [] && t.store == s.store.(jobs := s.store.jobs[1..])))
  }

  ghost predicate WatchNext(s: State, t: State) {
    || (exists ops, full :: Txns(s, t, ops, full))
    || (exists es, minRev, full :: Syncs(s, t, es, minRev, full))
    || (exists id, lo, end, start :: Registers(s, t, id, lo, end, start))
    || (exists id :: Cancels(s, t, id))
    || Compacts(s, t)
  }

  ghost predicate IsWatchRun(run: seq<State>) {
    && run != [] && run[0] == State(NEW_STORE, map[])
    && forall i | 0 <= i < |run| - 1 :: WatchNext(run[i], run[i+1])
  }
}
