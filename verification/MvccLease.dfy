/**
 * Leases and the keys attached to them. The lessor is told of every put and
 * delete; a lease's item set is exactly the live keys whose record names it.
 */
module MvccLease {
  import opened Options
  import opened MvccKeyIndex
  import opened MvccKeys
  import opened MvccHistory
  import opened MvccStore
  import opened MvccInvariant
  import MvccSafety

  type Leases = map<nat, set<Key>>

  const NO_LEASE := 0

  datatype GrantResult = Granted(leases: Leases) | GrantNotFound | LeaseExists

  function Grant(ls: Leases, id: nat): GrantResult {
    if id == NO_LEASE then GrantNotFound else if id in ls then LeaseExists else Granted(ls[id := {}])
  }

  function Attach(ls: Leases, id: nat, k: Key): Option<Leases> {
    if id in ls then Some(ls[id := ls[id] + {k}]) else None
  }

  function Detach(ls: Leases, id: nat, k: Key): Option<Leases> {
    if id in ls then Some(ls[id := ls[id] - {k}]) else None
  }

  // ----- The store with a lessor -----

  datatype Leased = Leased(store: Store, leases: Leases)

  /** The lease in the record a put is about to replace. */
  function OldLease(s: Store, k: Key): nat {
    match IndexGet(s.index, k, s.current.main + 1)
    case Found(rev, _, _) => if rev in s.backend then s.backend[rev].kv.lease else NO_LEASE
    case _ => NO_LEASE
  }

  /** Tell the lessor that key k moves from one lease to another; None where the code panics. */
  function Move(ls: Leases, k: Key, from: nat, to: nat): Option<Leases> {
    match if from != NO_LEASE then Detach(ls, from, k) else Some(ls)
    case None => None
    case Some(l) => if to != NO_LEASE then Attach(l, to, k) else Some(l)
  }

  function Both(s: Option<Store>, ls: Option<Leases>): Option<Leased> {
    if s.Some? && ls.Some? then Some(Leased(s.value, ls.value)) else None
  }

  function LeasedPut(x: Leased, k: Key, value: seq<Byte>, lease: nat): Option<Leased> {
    Both(Put(x.store, k, value, lease), Move(x.leases, k, OldLease(x.store, k), lease))
  }

  function LeasedDelete(x: Leased, k: Key, rev: Revision): Option<Leased> {
    Both(Delete(x.store, k, rev),
          if rev in x.store.backend then Move(x.leases, k, x.store.backend[rev].kv.lease, NO_LEASE) else None)
  }

  function LeasedDeleteKeys(x: Leased, ix: Index, r: int, ks: seq<Key>): Option<Leased>
    decreases |ks|
  {
    if ks == [] then Some(x)
    else match IndexGet(ix, ks[0], r)
      case Found(rev, _, _) =>
        (match LeasedDelete(x, ks[0], rev)
         case None => None
         case Some(y) => LeasedDeleteKeys(y, ix, r, ks[1..]))
      case _ => None
  }

  ghost function LeasedDeleteRange(x: Leased, lo: Key, end: Option<Key>): Option<Leased> {
    LeasedDeleteKeys(x, x.store.index, ReadRev(x.store), IndexKeys(x.store.index, lo, end, ReadRev(x.store)))
  }

  /** Revoking deletes the items of the lease in some order, each in a transaction of its own. */
  ghost function RevokeItems(x: Leased, items: seq<Key>): Option<Leased> {
    if items == [] then Some(x)
    else match RevokeItems(x, items[..|items|-1])
      case None => None
      case Some(y) =>
        match LeasedDeleteRange(y, items[|items|-1], None)
        case None => None
        case Some(z) => Some(z.(store := EndTxn(z.store)))
  }

  ghost predicate IsOrder(items: seq<Key>, s: set<Key>) {
    |items| == |s| && forall k :: k in items <==> k in s
  }

  ghost predicate Revokes(x: Leased, y: Leased, id: nat, items: seq<Key>) {
    && id in x.leases && IsOrder(items, x.leases[id]) && x.store.current.sub == 0
    && var z := RevokeItems(x, items);
    && z.Some? && y == z.value.(leases := map j | j in z.value.leases && j != id :: z.value.leases[j])
  }

  // ----- Exact attachment -----

  /** The lease named by the current record of a key. */
  function LeaseOf(h: History, k: Key, r: int): nat { if IsLive(h, k, r) then KvAt(h, k, r).lease else NO_LEASE }

  predicate Attached(ls: Leases, id: nat, k: Key) { id in ls && k in ls[id] }

  ghost predicate ExactAt(ls: Leases, h: History, r: int, id: nat, k: Key) {
    id != NO_LEASE ==> (Attached(ls, id, k) <==> LeaseOf(h, k, r) == id)
  }

  ghost predicate Exact(x: Leased, h: History) {
    && Inv(x.store, h) && NO_LEASE !in x.leases
    && forall id, k :: ExactAt(x.leases, h, NextRev(x.store).main, id, k)
  }

  lemma CompactedBelow(s: Store, h: History)
    requires Inv(s, h)
    ensures s.compacted <= s.current.main
  {
    hide IndexOk, BackendOk, JobOk, JobTidy, NoGaps, MetaAt, IsHistory, Clock;
  }

  lemma OldLeaseIs(s: Store, h: History, k: Key)
    requires Inv(s, h)
    ensures OldLease(s, k) == LeaseOf(h, k, NextRev(s).main)
  {
    hide Inv, IndexGet, FlatGet, Latest, IsLive, KvAt, IsHistory, Clock;
    CompactedBelow(s, h);
    IndexGetIs(s, h, k, s.current.main + 1);
    if IsLive(h, k, s.current.main + 1) { FetchOne(s, h, k, s.current.main + 1); }
  }

  /** Moving a key from its present lease to another existing one, and writing a record that names it. */
  lemma MoveExact(ls: Leases, h: History, e: Event, r: int, to: nat)
    requires NO_LEASE !in ls && (forall id, k :: ExactAt(ls, h, r, id, k)) && e.rev.main <= r
    requires to == NO_LEASE || to in ls
    requires to == if e.record.tomb then NO_LEASE else e.record.kv.lease
    ensures var m := Move(ls, KeyOf(e), LeaseOf(h, KeyOf(e), r), to);
            && m.Some? && NO_LEASE !in m.value && m.value.Keys == ls.Keys
            && forall id, k :: ExactAt(m.value, h + [e], r, id, k)
  {
    hide Latest;
    var k, from := KeyOf(e), LeaseOf(h, KeyOf(e), r);
    assert ExactAt(ls, h, r, from, k);
    var m := Move(ls, k, from, to);
    assert m.Some?;
    forall id, j ensures ExactAt(m.value, h + [e], r, id, j) {
      LatestAppend(h, e, j, r);
      assert ExactAt(ls, h, r, id, j);
    }
  }

  /** A put on an existing lease, or on none, keeps the attachment exact and never panics. */
  lemma LeasedPutExact(x: Leased, h: History, k: Key, value: seq<Byte>, lease: nat)
    requires Exact(x, h) && (lease == NO_LEASE || lease in x.leases)
    ensures LeasedPut(x, k, value, lease).Some?
    ensures Exact(LeasedPut(x, k, value, lease).value, h + [PutEvent(h, NextRev(x.store), k, value, lease)])
  {
    hide Inv, ExactAt, Move, OldLease, Put, LeaseOf;
    PutKeeps(x.store, h, k, value, lease);
    MvccSafety.PutMoves(x.store, k, value, lease);
    var e := PutEvent(h, NextRev(x.store), k, value, lease);
    OldLeaseIs(x.store, h, k);
    MoveExact(x.leases, h, e, NextRev(x.store).main, lease);
  }

  /** A put panics exactly if it names a lease that is not there. */
  lemma PutPanicsExactly(x: Leased, h: History, k: Key, value: seq<Byte>, lease: nat)
    requires Exact(x, h)
    ensures LeasedPut(x, k, value, lease).None? <==> lease != 0 && lease !in x.leases
  {
    if lease == 0 || lease in x.leases {
      hide Exact, LeasedPut;
      LeasedPutExact(x, h, k, value, lease);
    } else {
      hide Exact, Put, OldLease;
    }
  }

  lemma LeasedDeleteExact(x: Leased, h: History, k: Key, rev: Revision)
    requires Exact(x, h) && IsLive(h, k, NextRev(x.store).main) && rev == Latest(h, k, NextRev(x.store).main).value.rev
    ensures LeasedDelete(x, k, rev).Some?
    ensures LeasedDelete(x, k, rev).value.store.current == x.store.current.(sub := x.store.current.sub + 1)
    ensures Exact(LeasedDelete(x, k, rev).value, h + [Event(NextRev(x.store), TombRecord(k))])
    ensures LeasedDelete(x, k, rev).value.leases.Keys == x.leases.Keys
  {
    hide Inv, ExactAt, Move, Delete, Latest;
    var s, r := x.store, NextRev(x.store).main;
    InvBasics(s, h);
    DeleteKeeps(s, h, k, rev);
    DeleteMoves(s, k, rev);
    LiveIsStored(s, h, k, r);
    MoveExact(x.leases, h, Event(NextRev(s), TombRecord(k)), r, NO_LEASE);
  }

  lemma {:induction false} LeasedDeleteKeysExact(x: Leased, h: History, ix: Index, r: int, ks: seq<Key>)
    requires Exact(x, h) && Deletable(x.store, h, ix, r, ks)
    ensures LeasedDeleteKeys(x, ix, r, ks).Some?
    ensures Exact(LeasedDeleteKeys(x, ix, r, ks).value, h + Deletions(NextRev(x.store), ks))
    ensures LeasedDeleteKeys(x, ix, r, ks).value.leases.Keys == x.leases.Keys
    decreases |ks|
  {
    hide Inv, Deletable, LeasedDelete, IndexGet, Exact;
    if ks == [] {
      assert h + Deletions(NextRev(x.store), ks) == h;
    } else {
      DeletableFirst(x.store, h, ix, r, ks);
      var rev := IndexGet(ix, ks[0], r).modified;
      LeasedDeleteExact(x, h, ks[0], rev);
      var y, e := LeasedDelete(x, ks[0], rev).value, Event(NextRev(x.store), TombRecord(ks[0]));
      DeletableRest(x.store, y.store, h, ix, r, ks);
      LeasedDeleteKeysExact(y, h + [e], ix, r, ks[1..]);
      assert h + Deletions(NextRev(x.store), ks) == (h + [e]) + Deletions(NextRev(y.store), ks[1..]);
    }
  }

  lemma LeasedDeleteRangeExact(x: Leased, h: History, lo: Key, end: Option<Key>)
    requires Exact(x, h)
    ensures LeasedDeleteRange(x, lo, end).Some?
    ensures Exact(LeasedDeleteRange(x, lo, end).value,
                  h + Deletions(NextRev(x.store), Ascending(LiveKeys(h, lo, end, ReadRev(x.store)))))
    ensures LeasedDeleteRange(x, lo, end).value.leases.Keys == x.leases.Keys
  {
    hide Inv, ExactAt, LeasedDeleteKeys, Deletable, Ascending;
    RangeDeletable(x.store, h, lo, end);
    LeasedDeleteKeysExact(x, h, x.store.index, ReadRev(x.store), Ascending(LiveKeys(h, lo, end, ReadRev(x.store))));
  }

  lemma EndTxnExact(x: Leased, h: History)
    requires Exact(x, h)
    ensures Exact(x.(store := EndTxn(x.store)), h)
  {
    hide Inv, ExactAt, Latest;
    EndTxnKeeps(x.store, h);
    InvBasics(x.store, h);
    var r, r' := NextRev(x.store).main, NextRev(EndTxn(x.store)).main;
    forall id, k ensures ExactAt(x.leases, h, r', id, k) {
      assert ExactAt(x.leases, h, r, id, k);
      NoneAbove(h, k, r, r');
      SameLease(x.leases, h, r, r', id, k);
    }
  }

  lemma SameLease(ls: Leases, h: History, r: int, r': int, id: nat, k: Key)
    requires ExactAt(ls, h, r, id, k) && Latest(h, k, r) == Latest(h, k, r')
    ensures ExactAt(ls, h, r', id, k)
  {
  }

  // ----- Revoking -----

  /** The key holds the same thing at the two times. */
  ghost predicate Untouched(h: History, r: int, g: History, r': int, k: Key) {
    IsLive(g, k, r') == IsLive(h, k, r) && KvAt(g, k, r') == KvAt(h, k, r)
  }

  ghost function DeletedOne(x: Leased, h: History, k: Key): History {
    h + Deletions(NextRev(x.store), Ascending(LiveKeys(h, k, None, ReadRev(x.store))))
  }

  /** Deleting the single key k. */
  lemma DeleteOneIs(x: Leased, h: History, k: Key)
    requires Exact(x, h)
    ensures DeletedOne(x, h, k) == if IsLive(h, k, NextRev(x.store).main) then h + [Event(NextRev(x.store), TombRecord(k))] else h
  {
    hide Inv, ExactAt;
    var r := ReadRev(x.store);
    ReadsAll(x.store, h, k);
    var live := LiveKeys(h, k, None, r);
    if IsLive(h, k, NextRev(x.store).main) {
      assert Latest(h, k, r).value in h;
      assert live == {k};
      AscendingUnique({k}, [k]);
      assert Deletions(NextRev(x.store), [k]) == [Event(NextRev(x.store), TombRecord(k))];
    } else {
      assert live == {};
      assert h + Deletions(NextRev(x.store), []) == h;
    }
  }

  lemma DeleteOneEffect(x: Leased, h: History, k: Key, r': int, j: Key)
    requires Exact(x, h) && NextRev(x.store).main <= r'
    ensures j == k ==> !IsLive(DeletedOne(x, h, k), j, r')
    ensures j != k ==> Untouched(h, NextRev(x.store).main, DeletedOne(x, h, k), r', j)
  {
    hide Inv, ExactAt, Latest, DeletedOne;
    var r := NextRev(x.store).main;
    InvBasics(x.store, h);
    DeleteOneIs(x, h, k);
    NoneAbove(h, j, r, r');
    LatestAppend(h, Event(NextRev(x.store), TombRecord(k)), j, r');
  }

  lemma RevokeOne(x: Leased, h: History, k: Key)
    requires Exact(x, h)
    ensures LeasedDeleteRange(x, k, None).Some?
    ensures var y := LeasedDeleteRange(x, k, None).value;
            && Exact(y.(store := EndTxn(y.store)), DeletedOne(x, h, k)) && y.leases.Keys == x.leases.Keys
            && NextRev(x.store).main <= NextRev(EndTxn(y.store)).main
  {
    hide Inv, ExactAt, LeasedDeleteRange, Exact;
    LeasedDeleteRangeExact(x, h, k, None);
    var y := LeasedDeleteRange(x, k, None).value;
    EndTxnExact(y, DeletedOne(x, h, k));
    LeasedDeleteMoves(x, k, None);
  }

  lemma LeasedDeleteMoves(x: Leased, lo: Key, end: Option<Key>)
    requires LeasedDeleteRange(x, lo, end).Some?
    ensures LeasedDeleteRange(x, lo, end).value.store.current.main == x.store.current.main
  {
    hide IndexKeys;
    LeasedDeleteKeysMoves(x, x.store.index, ReadRev(x.store), IndexKeys(x.store.index, lo, end, ReadRev(x.store)));
  }

  lemma {:induction false} LeasedDeleteKeysMoves(x: Leased, ix: Index, r: int, ks: seq<Key>)
    requires LeasedDeleteKeys(x, ix, r, ks).Some?
    ensures LeasedDeleteKeys(x, ix, r, ks).value.store.current.main == x.store.current.main
    decreases |ks|
  {
    hide IndexGet, Delete;
    if ks != [] {
      var rev := IndexGet(ix, ks[0], r).modified;
      DeleteMoves(x.store, ks[0], rev);
      LeasedDeleteKeysMoves(LeasedDelete(x, ks[0], rev).value, ix, r, ks[1..]);
    }
  }

  /** What is left after some items of a lease have been deleted. */
  ghost predicate RevokedSome(x: Leased, h: History, z: Leased, g: History, items: seq<Key>) {
    && Exact(z, g) && z.leases.Keys == x.leases.Keys
    && forall k :: RevokedKey(x, h, z, g, items, k)
  }

  ghost predicate RevokedKey(x: Leased, h: History, z: Leased, g: History, items: seq<Key>, k: Key) {
    if k in items then !IsLive(g, k, NextRev(z.store).main)
    else Untouched(h, NextRev(x.store).main, g, NextRev(z.store).main, k)
  }

  lemma {:induction false} RevokeItemsExact(x: Leased, h: History, items: seq<Key>) returns (g: History)
    requires Exact(x, h)
    ensures RevokeItems(x, items).Some? && RevokedSome(x, h, RevokeItems(x, items).value, g, items)
  {
    hide Inv, ExactAt, LeasedDeleteRange, Exact, IsLive, KvAt;
    g := h;
    if items != [] {
      var p, k := items[..|items|-1], items[|items|-1];
      assert items == p + [k];
      var g' := RevokeItemsExact(x, h, p);
      var y := RevokeItems(x, p).value;
      RevokeOne(y, g', k);
      g := DeletedOne(y, g', k);
      var z := RevokeItems(x, items).value;
      forall j ensures RevokedKey(x, h, z, g, items, j) {
        assert RevokedKey(x, h, y, g', p, j);
        DeleteOneEffect(y, g', k, NextRev(z.store).main, j);
      }
    }
  }

  /** Revoking a lease deletes exactly the keys whose record names it, and leaves all others alone. */
  lemma RevokeDeletesExactly(x: Leased, h: History, y: Leased, id: nat, items: seq<Key>) returns (g: History)
    requires Exact(x, h) && Revokes(x, y, id, items)
    ensures Exact(y, g) && id !in y.leases
    ensures forall k :: var r, r' := NextRev(x.store).main, NextRev(y.store).main;
              if LeaseOf(h, k, r) == id then !IsLive(g, k, r') else Untouched(h, r, g, r', k)
  {
    hide Inv, RevokeItems, IsLive, KvAt, LeaseOf;
    g := RevokeItemsExact(x, h, items);
    var z := RevokeItems(x, items).value;
    var r, r' := NextRev(x.store).main, NextRev(y.store).main;
    forall k ensures k in items <==> LeaseOf(h, k, r) == id { assert ExactAt(x.leases, h, r, id, k); }
    forall k ensures if LeaseOf(h, k, r) == id then !IsLive(g, k, r') else Untouched(h, r, g, r', k) {
      assert RevokedKey(x, h, z, g, items, k);
    }
    forall j, k ensures ExactAt(y.leases, g, r', j, k) {
      assert ExactAt(z.leases, g, r', j, k);
      if j == id && LeaseOf(g, k, r') == id { NotNamed(h, r, g, r', k, id); }
    }
  }

  lemma NotNamed(h: History, r: int, g: History, r': int, k: Key, id: nat)
    requires if LeaseOf(h, k, r) == id then !IsLive(g, k, r') else Untouched(h, r, g, r', k)
    ensures id != NO_LEASE ==> LeaseOf(g, k, r') != id
  {
  }

  // ----- Runs -----

  ghost predicate LeaseNext(x: Leased, y: Leased) {
    || (exists id :: x.store == y.store && Grant(x.leases, id) == Granted(y.leases))
    || (exists k, value, lease :: (lease == NO_LEASE || lease in x.leases) && LeasedPut(x, k, value, lease) == Some(y))
    || (exists lo, end :: LeasedDeleteRange(x, lo, end) == Some(y))
    || y == x.(store := EndTxn(x.store))
    || (exists id, items :: Revokes(x, y, id, items))
    || (y.leases == x.leases && exists c :: Compact(x.store, c) == Compacting(y.store))
    || (y.leases == x.leases && Batches(x.store, y.store))
  }

  ghost predicate IsLeaseRun(run: seq<Leased>) {
    && run != [] && run[0] == Leased(NEW_STORE, map[])
    && forall i | 0 <= i < |run| - 1 :: LeaseNext(run[i], run[i+1])
  }

  /** A lease is granted exactly if its number is not 0 and not taken. */
  lemma GrantAnswers(ls: Leases, id: nat)
    ensures Grant(ls, id).GrantNotFound? <==> id == 0
    ensures Grant(ls, id).LeaseExists? <==> id != 0 && id in ls
  {
  }

  lemma GrantExact(x: Leased, h: History, id: nat, y: Leased)
    requires Exact(x, h) && x.store == y.store && Grant(x.leases, id) == Granted(y.leases)
    ensures Exact(y, h) && id !in x.leases && y.leases.Keys == x.leases.Keys + {id} && y.leases[id] == {}
    ensures forall j | j in x.leases :: y.leases[j] == x.leases[j]
  {
    hide Inv, LeaseOf;
    forall j, k ensures ExactAt(y.leases, h, NextRev(x.store).main, j, k) {
      assert ExactAt(x.leases, h, NextRev(x.store).main, j, k);
    }
  }

  lemma CompactExact(x: Leased, h: History, y: Leased)
    requires Exact(x, h) && y.leases == x.leases
    requires (exists c :: Compact(x.store, c) == Compacting(y.store)) || Batches(x.store, y.store)
    ensures Exact(y, h)
  {
    hide Inv, ExactAt, Compact, Batches;
    if c :| Compact(x.store, c) == Compacting(y.store) {
      CompactKeeps(x.store, h, c);
      MvccSafety.CompactMoves(x.store, c);
    } else {
      BatchKeeps(x.store, h, y.store);
      MvccSafety.BatchMoves(x.store, y.store);
    }
    var r := NextRev(x.store).main;
    assert NextRev(y.store).main == r;
    forall id, k ensures ExactAt(y.leases, h, r, id, k) { assert ExactAt(x.leases, h, r, id, k); }
  }

  lemma LeaseNextExact(x: Leased, h: History, y: Leased) returns (g: History)
    requires Exact(x, h) && LeaseNext(x, y)
    ensures Exact(y, g)
  {
    hide Exact, LeasedPut, LeasedDeleteRange, Revokes, Compact, Batches, EndTxn, Grant, PutEvent, Ascending;
    g := h;
    if id :| x.store == y.store && Grant(x.leases, id) == Granted(y.leases) {
      GrantExact(x, h, id, y);
    } else if k, value, lease :| (lease == NO_LEASE || lease in x.leases) && LeasedPut(x, k, value, lease) == Some(y) {
      LeasedPutExact(x, h, k, value, lease);
      g := h + [PutEvent(h, NextRev(x.store), k, value, lease)];
    } else if lo, end :| LeasedDeleteRange(x, lo, end) == Some(y) {
      LeasedDeleteRangeExact(x, h, lo, end);
      g := h + Deletions(NextRev(x.store), Ascending(LiveKeys(h, lo, end, ReadRev(x.store))));
    } else if y == x.(store := EndTxn(x.store)) {
      EndTxnExact(x, h);
    } else if id, items :| Revokes(x, y, id, items) {
      g := RevokeDeletesExactly(x, h, y, id, items);
    } else {
      CompactExact(x, h, y);
    }
  }

  /** Lease attachment is exact: in every run of grants, puts on existing leases, deletes,
      transactions, revocations and compactions, each lease's items are the live keys whose current
      record names it. */
  lemma {:induction false} LeaseAttachmentExact(run: seq<Leased>, i: nat) returns (h: History)
    requires IsLeaseRun(run) && i < |run|
    ensures Exact(run[i], h)
    decreases i
  {
    hide LeaseNext, Exact;
    if i == 0 {
      h := [];
      InitialExact(run[0]);
    } else {
      var h' := LeaseAttachmentExact(run, i - 1);
      assert LeaseNext(run[i-1], run[i]);
      h := LeaseNextExact(run[i-1], h', run[i]);
    }
  }

  lemma InitialExact(x: Leased)
    requires x == Leased(NEW_STORE, map[])
    ensures Exact(x, [])
  {
    InitialInv();
  }

  /** The lessor never refuses an attachment or detachment of such a run. */
  lemma LessorNeverPanics(run: seq<Leased>, i: nat, k: Key, value: seq<Byte>, lease: nat, end: Option<Key>,
                          items: seq<Key>)
    requires IsLeaseRun(run) && i < |run| && (lease == NO_LEASE || lease in run[i].leases)
    ensures LeasedPut(run[i], k, value, lease).Some? && LeasedDeleteRange(run[i], k, end).Some?
    ensures RevokeItems(run[i], items).Some?
  {
    hide IsLeaseRun, Exact, LeasedPut, LeasedDeleteRange, RevokeItems, RevokedSome;
    var h := LeaseAttachmentExact(run, i);
    LeasedPutExact(run[i], h, k, value, lease);
    LeasedDeleteRangeExact(run[i], h, k, end);
    var g := RevokeItemsExact(run[i], h, items);
  }
}
