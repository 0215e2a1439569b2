/** The store with its consistent index, as the object that applies entries. */
module MvccReplayObject {
  import opened Options
  import opened MvccStore
  import opened MvccWatch
  import opened MvccReplay
  import opened MvccObject

  lemma NoOps(s: Store)
    ensures RunOps(s, []) == Some(s)
  {
  }

  lemma OneMoreOp(s: Store, ops: seq<Op>, op: Op)
    ensures RunOps(s, ops + [op]) == match RunOps(s, ops) { case None => None case Some(t) => RunOp(t, op) }
  {
    assert (ops + [op])[..|ops|] == ops;
  }

  lemma {:induction false} StuckOps(s: Store, ops: seq<Op>, n: nat)
    requires n <= |ops| && RunOps(s, ops[..n]).None?
    ensures RunOps(s, ops).None?
    decreases |ops|
  {
    if n == |ops| {
      assert ops[..n] == ops;
    } else {
      var p := ops[..|ops|-1];
      assert p[..n] == ops[..n];
      StuckOps(s, p, n);
    }
  }

  class ConsistentObject {
    const s: StoreObject
    var consistent: nat
    var skip: bool

    ghost function View(): ConsistentStore
      reads this, s
    {
      ConsistentStore(s.View(), consistent)
    }

    constructor ()
      ensures View() == EMPTY_STORE && !skip && fresh(s)
    {
      s := new StoreObject();
      consistent, skip := 0, false;
    }

    /** Opens a transaction for the entry with the given index; its operations are skipped if it is not new. */
    method TxnBegin(index: nat)
      modifies this, s
      ensures s.View() == BeginTxn(old(s.View())) && skip == (index <= old(consistent))
      ensures consistent == if skip then old(consistent) else index
    {
      s.current := s.current.(sub := 0);
      skip := index <= consistent;
      if !skip { consistent := index; }
    }

    method TxnOp(op: Op) returns (ok: bool)
      modifies s
      ensures skip ==> ok && s.View() == old(s.View())
      ensures !skip ==> RunOp(old(s.View()), op) == if ok then Some(s.View()) else None
    {
      hide Put, DeleteRange;
      if skip { return true; }
      match op
      case OpPut(k, v, l) => ok := s.PutKey(k, v, l);
      case OpDelete(lo, end) =>
        var n;
        ok, n := s.DeleteRangeKeys(lo, end);
    }

    /** Applies one entry of the log as one transaction. */
    method ApplyEntry(e: LogEntry) returns (ok: bool)
      requires s.changes == []
      modifies this, s
      ensures Apply(old(View()), e) == if ok then Some(View()) else None
    {
      hide RunOps, RunOp;
      TxnBegin(e.index);
      ghost var begun := s.View();
      NoOps(begun);
      assert e.ops[..0] == [];
      for i := 0 to |e.ops|
        invariant skip == (e.index <= old(consistent)) && consistent == if skip then old(consistent) else e.index
        invariant skip ==> s.View() == begun
        invariant !skip ==> RunOps(begun, e.ops[..i]) == Some(s.View())
      {
        OneMoreOp(begun, e.ops[..i], e.ops[i]);
        assert e.ops[..i] + [e.ops[i]] == e.ops[..i+1];
        ok := TxnOp(e.ops[i]);
        if !ok {
          StuckOps(begun, e.ops, i + 1);
          return;
        }
      }
      assert e.ops[..|e.ops|] == e.ops;
      skip := false;
      s.TxnEnd();
      s.changes := [];
      ok := true;
    }
  }
}
