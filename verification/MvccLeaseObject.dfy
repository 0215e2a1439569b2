/** The lessor, and the store that reports to it, as the objects that are updated in place. */
module MvccLeaseObject {
  import opened Options
  import opened MvccKeyIndex
  import opened MvccKeys
  import opened MvccStore
  import opened MvccLease
  import opened MvccObject

  class Lessor {
    var leaseMap: Leases

    constructor ()
      ensures leaseMap == map[]
    {
      leaseMap := map[];
    }

    method GrantLease(id: nat) returns (ok: bool)
      modifies this
      ensures Grant(old(leaseMap), id).Granted? == ok
      ensures leaseMap == if ok then Grant(old(leaseMap), id).leases else old(leaseMap)
    {
      if id == NO_LEASE || id in leaseMap { return false; }
      leaseMap := leaseMap[id := {}];
      return true;
    }

    method AttachKey(id: nat, k: Key) returns (ok: bool)
      modifies this
      ensures Attach(old(leaseMap), id, k) == if ok then Some(leaseMap) else None
    {
      if id !in leaseMap { return false; }
      leaseMap := leaseMap[id := leaseMap[id] + {k}];
      return true;
    }

    method DetachKey(id: nat, k: Key) returns (ok: bool)
      modifies this
      ensures Detach(old(leaseMap), id, k) == if ok then Some(leaseMap) else None
    {
      if id !in leaseMap { return false; }
      leaseMap := leaseMap[id := leaseMap[id] - {k}];
      return true;
    }
  }

  lemma NothingRevoked(x: Leased)
    ensures RevokeItems(x, []) == Some(x)
  {
  }

  lemma RevokedNext(x: Leased, items: seq<Key>, k: Key)
    requires RevokeItems(x, items).Some?
    ensures var z := LeasedDeleteRange(RevokeItems(x, items).value, k, None);
            RevokeItems(x, items + [k]) == if z.Some? then Some(z.value.(store := EndTxn(z.value.store))) else None
  {
    assert (items + [k])[..|items|] == items;
  }

  lemma NoItems()
    ensures IsOrder([], {})
  {
  }

  lemma OneMoreItem(items: seq<Key>, done: set<Key>, k: Key)
    requires IsOrder(items, done) && k !in done
    ensures IsOrder(items + [k], done + {k})
  {
  }

  class LeasedStore {
    const s: StoreObject
    const le: Lessor

    ghost function View(): Leased
      reads s, le
    {
      Leased(s.View(), le.leaseMap)
    }

    constructor ()
      ensures View() == Leased(NEW_STORE, map[]) && fresh(s) && fresh(le)
    {
      s := new StoreObject();
      le := new Lessor();
    }

    method MoveKey(k: Key, from: nat, to: nat) returns (ok: bool)
      modifies le
      ensures Move(old(le.leaseMap), k, from, to) == if ok then Some(le.leaseMap) else None
    {
      if from != NO_LEASE {
        ok := le.DetachKey(from, k);
        if !ok { return; }
      }
      ok := true;
      if to != NO_LEASE {
        ok := le.AttachKey(to, k);
      }
    }

    /** A put detaches the key from the lease of its previous record and attaches it to its own. */
    method PutLeased(k: Key, value: seq<Byte>, lease: nat) returns (ok: bool)
      modifies s, le
      ensures LeasedPut(old(View()), k, value, lease) == if ok then Some(View()) else None
    {
      hide Get, Put, Move;
      var oldLease := NO_LEASE;
      var g := if k in s.index then Get(s.index[k], s.current.main + 1) else NotFound;
      if g.Found? && g.modified in s.backend { oldLease := s.backend[g.modified].kv.lease; }
      ok := s.PutKey(k, value, lease);
      if !ok { return; }
      ok := MoveKey(k, oldLease, lease);
    }

    method DeleteLeased(k: Key, rev: Revision) returns (ok: bool)
      modifies s, le
      ensures LeasedDelete(old(View()), k, rev) == if ok then Some(View()) else None
    {
      hide Delete, Move;
      if rev !in s.backend { return false; }
      var lease := s.backend[rev].kv.lease;
      ok := s.DeleteKey(k, rev);
      if !ok { return; }
      ok := MoveKey(k, lease, NO_LEASE);
    }

    method DeleteRangeLeased(lo: Key, end: Option<Key>) returns (ok: bool)
      modifies s, le
      ensures LeasedDeleteRange(old(View()), lo, end) == if ok then Some(View()) else None
    {
      hide IndexGet, IndexKeys, LeasedDelete;
      var rrev := s.current.main;
      if s.current.sub > 0 { rrev := rrev + 1; }
      var keys, revs := s.RangeIndex(lo, end, rrev);
      ghost var ix := s.index;
      assert keys[0..] == keys;
      for i := 0 to |keys|
        invariant LeasedDeleteKeys(View(), ix, rrev, keys[i..]) == LeasedDeleteRange(old(View()), lo, end)
        invariant forall j | 0 <= j < |keys| :: IsRev(ix, rrev, keys[j], revs[j])
      {
        assert keys[i..][0] == keys[i] && keys[i..][1..] == keys[i+1..];
        assert IsRev(ix, rrev, keys[i], revs[i]);
        ok := DeleteLeased(keys[i], revs[i]);
        if !ok { return; }
      }
      ok := true;
    }

    /** Deletes the items of a lease one by one, then the lease. */
    method RevokeLease(id: nat) returns (ok: bool, ghost items: seq<Key>)
      requires s.current.sub == 0
      modifies s, le
      ensures id !in old(le.leaseMap) ==> !ok && View() == old(View())
      ensures ok ==> Revokes(old(View()), View(), id, items)
      ensures id in old(le.leaseMap) && !ok ==> RevokeItems(old(View()), items).None?
    {
      hide LeasedDeleteRange, RevokeItems, IsOrder;
      items := [];
      if id !in le.leaseMap { return false, items; }
      var all := le.leaseMap[id];
      var todo := all;
      NothingRevoked(View());
      assert all - todo == {};
      NoItems();
      while todo != {}
        invariant todo <= all && IsOrder(items, all - todo)
        invariant RevokeItems(old(View()), items) == Some(View())
        decreases todo
      {
        var k :| k in todo;
        RevokedNext(old(View()), items, k);
        OneMoreItem(items, all - todo, k);
        items := items + [k];
        assert all - (todo - {k}) == (all - todo) + {k};
        todo := todo - {k};
        ok := DeleteRangeLeased(k, None);
        if !ok { return; }
        s.TxnEnd();
      }
      assert all - todo == all;
      le.leaseMap := map j | j in le.leaseMap && j != id :: le.leaseMap[j];
      ok := true;
    }
  }
}
