/**
 * The multi-version store as a value, and the functions that say what its
 * operations do. The backend is a map from revisions to records; None stands
 * for the places where the code ends the process.
 */
module MvccStore {
  import opened Options
  import opened MvccKeyIndex
  import opened MvccKeys
  import opened MvccHistory

  type Index = map<Key, KeyIndex>

  /** A compaction that runs in the background: it has dealt with the revisions before last. */
  datatype Job = Job(at: nat, keep: set<Revision>, last: Revision)

  datatype Store = Store(current: Revision, compacted: int, index: Index, backend: map<Revision, Record>,
                         changes: seq<KeyValue>, jobs: seq<Job>, scheduled: int, finished: int)

  const NEW_STORE := Store(Revision(1, 0), -1, map[], map[], [], [], -1, -1)

  // ----- The index of all keys -----

  function IndexGet(ix: Index, k: Key, r: int): GetResult { if k in ix then Get(ix[k], r) else NotFound }

  function IndexPut(ix: Index, k: Key, rev: Revision): Option<Index> {
    match KeyPut(if k in ix then ix[k] else NEW_KEY, rev)
    case None => None
    case Some(ki) => Some(ix[k := ki])
  }

  function IndexTombstone(ix: Index, k: Key, rev: Revision): Option<Index> {
    if k !in ix then None
    else match Tombstone(ix[k], rev)
      case Tombed(ki) => Some(ix[k := ki])
      case _ => None
  }

  ghost function IndexKeys(ix: Index, lo: Key, end: Option<Key>, r: int): seq<Key> {
    Ascending(set k | k in ix && InRange(k, lo, end) && IndexGet(ix, k, r).Found?)
  }

  function CompactKey(ki: KeyIndex, c: int): (KeyIndex, set<Revision>) {
    if ki.generations == [] then (ki, {}) else KeyCompact(ki, c, {})
  }

  /** Compact every key; keys of which nothing is left are removed. */
  function IndexCompact(ix: Index, c: int): Index {
    map k | k in ix && !IsEmpty(CompactKey(ix[k], c).0) :: CompactKey(ix[k], c).0
  }

  function IndexAvailable(ix: Index, c: int): set<Revision> {
    set k, rev | k in ix && rev in CompactKey(ix[k], c).1 :: rev
  }

  /** Some key cannot be compacted. */
  predicate IndexPanics(ix: Index, c: int) { exists k | k in ix :: CompactPanics(ix[k], c) }

  // ----- Writing -----

  /** The revision of the next write. */
  function NextRev(s: Store): Revision { Revision(s.current.main + 1, s.current.sub) }

  /** The revision reads see: writes of an open transaction are visible to it. */
  function ReadRev(s: Store): nat { if s.current.sub > 0 then s.current.main + 1 else s.current.main }

  function PutRecord(s: Store, kv: KeyValue): Option<Store> {
    match IndexPut(s.index, kv.key, NextRev(s))
    case None => None
    case Some(ix) => Some(s.(index := ix, backend := s.backend[NextRev(s) := Record(false, kv)],
                             changes := s.changes + [kv], current := s.current.(sub := s.current.sub + 1)))
  }

  /** The record of a put; the previous one must be readable. */
  function PutKv(s: Store, k: Key, value: seq<Byte>, lease: nat): Option<KeyValue> {
    var main := s.current.main + 1;
    match IndexGet(s.index, k, main)
    case GetPanic => None
    case NotFound => Some(KeyValue(k, value, main, main, 1, lease))
    case Found(grev, created, ver) =>
      if grev in s.backend && !s.backend[grev].tomb then Some(KeyValue(k, value, created.main, main, ver + 1, lease)) else None
  }

  function Put(s: Store, k: Key, value: seq<Byte>, lease: nat): Option<Store> {
    match PutKv(s, k, value, lease)
    case None => None
    case Some(kv) => PutRecord(s, kv)
  }

  /** Delete a key whose current record has revision old. */
  function Delete(s: Store, k: Key, old_: Revision): Option<Store> {
    match IndexTombstone(s.index, k, NextRev(s))
    case None => None
    case Some(ix) =>
      var backend := s.backend[NextRev(s) := TombRecord(k)];
      if old_ !in backend || backend[old_].tomb then None
      else Some(s.(index := ix, backend := backend, changes := s.changes + [TombRecord(k).kv],
                   current := s.current.(sub := s.current.sub + 1)))
  }

  /** Delete keys one after the other; their old revisions were looked up in index ix before. */
  function DeleteKeys(s: Store, ix: Index, r: int, ks: seq<Key>): Option<Store>
    decreases |ks|
  {
    if ks == [] then Some(s)
    else match IndexGet(ix, ks[0], r)
      case Found(rev, _, _) =>
        (match Delete(s, ks[0], rev)
         case None => None
         case Some(t) => DeleteKeys(t, ix, r, ks[1..]))
      case _ => None
  }

  ghost function DeleteRange(s: Store, lo: Key, end: Option<Key>): Option<Store> {
    DeleteKeys(s, s.index, ReadRev(s), IndexKeys(s.index, lo, end, ReadRev(s)))
  }

  /** A transaction begins with no writes; every operation runs in one. */
  function BeginTxn(s: Store): Store { s.(current := s.current.(sub := 0)) }

  /** The end of a transaction makes its writes one revision. */
  function EndTxn(s: Store): Store {
    s.(current := Revision(if s.current.sub != 0 then s.current.main + 1 else s.current.main, 0))
  }

  // ----- Reading -----

  datatype RangeResult = Kvs(kvs: seq<KeyValue>, rev: nat) | ErrFutureRev(rev: nat) | ErrCompacted | Fatal

  /** The first records that fit the limit; none means no limit. */
  function Limited<T>(ks: seq<T>, limit: int): seq<T> { if 0 < limit <= |ks| then ks[..limit] else ks }

  predicate AllPresent(s: Store, r: int, ks: seq<Key>) {
    forall k | k in ks :: IndexGet(s.index, k, r).Found? && IndexGet(s.index, k, r).modified in s.backend
  }

  function Fetch(s: Store, r: int, ks: seq<Key>): seq<KeyValue>
    requires AllPresent(s, r, ks)
  {
    seq(|ks|, i requires 0 <= i < |ks| => assert ks[i] in ks; s.backend[IndexGet(s.index, ks[i], r).modified].kv)
  }

  ghost function Range(s: Store, lo: Key, end: Option<Key>, limit: int, rangeRev: int): RangeResult {
    var cur := ReadRev(s);
    if rangeRev > cur then ErrFutureRev(s.current.main)
    else
      var rev: int := if rangeRev <= 0 then cur else rangeRev;
      if rev <= s.compacted then ErrCompacted
      else
        var ks := Limited(IndexKeys(s.index, lo, end, rev), limit);
        if AllPresent(s, rev, ks) then Kvs(Fetch(s, rev, ks), cur) else Fatal
  }

  // ----- Compaction -----

  datatype CompactResult = Compacting(store: Store) | CompactErrCompacted | CompactErrFutureRev | CompactFatal

  function Compact(s: Store, c: nat): CompactResult {
    if c <= s.compacted then CompactErrCompacted
    else if c > s.current.main then CompactErrFutureRev
    else if IndexPanics(s.index, c) then CompactFatal
    else Compacting(s.(compacted := c, scheduled := c, index := IndexCompact(s.index, c),
                       jobs := s.jobs + [Job(c, IndexAvailable(s.index, c), ZERO)]))
  }

  const BATCH_SIZE := 10000

  /** The records a job has still to look at. */
  function Remaining(s: Store, j: Job): set<Revision> {
    set r | r in s.backend && !Before(r, j.last) && r.main <= j.at
  }

  /** The batch that ends with revision u: the next BATCH_SIZE records. */
  ghost predicate IsBatch(s: Store, j: Job, u: Revision) {
    u in Remaining(s, j) && |set r | r in Remaining(s, j) && !Before(u, r)| == BATCH_SIZE
  }

  function Without(b: map<Revision, Record>, gone: set<Revision>): map<Revision, Record> {
    map r | r in b && r !in gone :: b[r]
  }

  function AfterBatch(s: Store, j: Job, u: Revision): Store
    requires s.jobs != []
  {
    s.(backend := Without(s.backend, (set r | r in Remaining(s, j) && !Before(u, r)) - j.keep),
       jobs := [j.(last := Revision(u.main, u.sub + 1))] + s.jobs[1..])
  }

  function AfterLastBatch(s: Store, j: Job): Store
    requires s.jobs != []
  {
    s.(backend := Without(s.backend, Remaining(s, j) - j.keep), jobs := s.jobs[1..], finished := j.at)
  }

  /** One batch of the oldest job, which is finished when the batch is not full. */
  ghost predicate Batches(s: Store, t: Store) {
    s.jobs != [] &&
    var j := s.jobs[0];
    || (|Remaining(s, j)| < BATCH_SIZE && t == AfterLastBatch(s, j))
    || (exists u :: IsBatch(s, j, u) && t == AfterBatch(s, j, u))
  }

  // ----- Runs -----

  /** One step: a write of a transaction, its end, a compaction request, a batch of a background
      compaction, or such a compaction being stopped between batches. */
  ghost predicate Next(s: Store, t: Store) {
    || (exists k, value, lease :: Put(s, k, value, lease) == Some(t))
    || (exists lo, end :: DeleteRange(s, lo, end) == Some(t))
    || t == EndTxn(s)
    || (exists c :: Compact(s, c) == Compacting(t))
    || Batches(s, t)
    || (s.jobs != [] && t == s.(jobs := s.jobs[1..]))
  }

  ghost predicate IsRun(run: seq<Store>) {
    run != [] && run[0] == NEW_STORE && forall i | 0 <= i < |run| - 1 :: Next(run[i], run[i+1])
  }
}
