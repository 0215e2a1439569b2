/**
 * The heap of nodes that expire, ordered by their expiration times, with the
 * position of each node kept beside it. Times belong to the nodes and are
 * passed in; a node's time may have changed just before it is moved.
 */
module TtlHeap {
  /** A node, by its address. */
  type NodeId = nat
  type Times = map<NodeId, nat>

  function TimeOf(t: Times, x: NodeId): nat { if x in t then t[x] else 0 }

  function Parent(i: nat): nat { if i == 0 then 0 else (i - 1) / 2 }

  predicate Ordered(a: seq<NodeId>, t: Times, i: nat)
    requires i < |a|
  {
    TimeOf(t, a[Parent(i)]) <= TimeOf(t, a[i])
  }

  ghost predicate IsHeap(a: seq<NodeId>, t: Times, n: nat)
    requires n <= |a|
  {
    forall i | 0 <= i < n :: Ordered(a, t, i)
  }

  /** Only element x may be before its parent; its children are not. */
  ghost predicate IsHeapBut(a: seq<NodeId>, t: Times, n: nat, x: nat)
    requires x < n <= |a|
  {
    && (forall i | 0 <= i < n && i != x :: Ordered(a, t, i))
    && (forall i | 0 <= i < n :: Lifted(a, t, x, i))
  }

  /** A child of x is not before the parent of x. */
  predicate Lifted(a: seq<NodeId>, t: Times, x: nat, i: nat)
    requires x < |a| && i < |a|
  {
    x > 0 && i > 0 && Parent(i) == x ==> TimeOf(t, a[Parent(x)]) <= TimeOf(t, a[i])
  }

  /** Element x may stand anywhere between its parent and its children. */
  ghost predicate IsHeapAround(a: seq<NodeId>, t: Times, n: nat, x: nat)
    requires x < n <= |a|
  {
    && (forall i | 0 <= i < n && i != x && (i == 0 || Parent(i) != x) :: Ordered(a, t, i))
    && (forall i | 0 <= i < n :: Lifted(a, t, x, i))
  }

  /** The map gives the position of every element and of nothing else. */
  ghost predicate Indexed(a: seq<NodeId>, m: map<NodeId, nat>) {
    && (forall i | 0 <= i < |a| :: a[i] in m && m[a[i]] == i)
    && (forall x | x in m :: m[x] < |a| && a[m[x]] == x)
  }

  /** The root is the earliest element of a heap. */
  lemma {:induction false} RootIsFirst(a: seq<NodeId>, t: Times, n: nat, i: nat)
    requires i < n <= |a| && IsHeap(a, t, n)
    ensures TimeOf(t, a[0]) <= TimeOf(t, a[i])
  {
    if i > 0 {
      RootIsFirst(a, t, n, Parent(i));
      assert Ordered(a, t, i);
    }
  }

  function Swapped(a: seq<NodeId>, i: nat, j: nat): seq<NodeId>
    requires i < |a| && j < |a|
  {
    a[i := a[j]][j := a[i]]
  }

  /** Sifting up by one: the out-of-place element moves to its parent's position. */
  lemma SiftedUp(a: seq<NodeId>, t: Times, n: nat, j: nat)
    requires 0 < j < n <= |a| && IsHeapBut(a, t, n, j) && !Ordered(a, t, j)
    ensures IsHeapBut(Swapped(a, Parent(j), j), t, n, Parent(j))
  {
    var i := Parent(j);
    var b := Swapped(a, i, j);
    forall k | 0 <= k < n && k != i ensures Ordered(b, t, k) {
      assert k != j ==> Ordered(a, t, k);
      assert Lifted(a, t, j, k);
    }
    forall k | 0 <= k < n ensures Lifted(b, t, i, k) {
      assert k != j ==> Ordered(a, t, k);
      assert i > 0 ==> Ordered(a, t, i);
    }
  }

  /** Sifting down by one: the out-of-place element moves to the position of its earlier child c. */
  lemma SiftedDown(a: seq<NodeId>, t: Times, n: nat, i: nat, c: nat)
    requires 0 < c < n <= |a| && Parent(c) == i && IsHeapAround(a, t, n, i) && (i == 0 || TimeOf(t, a[Parent(i)]) <= TimeOf(t, a[c]))
    requires forall k | 0 < k < n && Parent(k) == i :: TimeOf(t, a[c]) <= TimeOf(t, a[k])
    requires TimeOf(t, a[c]) < TimeOf(t, a[i])
    ensures var b := Swapped(a, i, c); IsHeapAround(b, t, n, c) && Ordered(b, t, i) && Ordered(b, t, c)
  {
    var b := Swapped(a, i, c);
    forall k | 0 <= k < n && k != c && (k == 0 || Parent(k) != c) ensures Ordered(b, t, k) {
      if k != i && k != 0 && Parent(k) != i { assert Ordered(a, t, k); }
    }
    forall k | 0 <= k < n ensures Lifted(b, t, c, k) {
      if Parent(k) == c { assert Ordered(a, t, k); }
    }
  }

  /** Sifting element start down has come to position i. */
  ghost predicate Sifting(a: seq<NodeId>, t: Times, n: nat, start: nat, i: nat) {
    && start <= i < n <= |a| && IsHeapAround(a, t, n, i)
    && (i != start ==> Ordered(a, t, i) && Ordered(a, t, start))
    && forall k | 0 <= k < n :: Lifted(a, t, start, k)
  }

  /** c is the child to swap with: no later than its sibling and before the element at i. */
  ghost predicate IsFirstChild(a: seq<NodeId>, t: Times, n: nat, i: nat, c: nat) {
    && i < c < n <= |a| && Parent(c) == i && TimeOf(t, a[c]) < TimeOf(t, a[i])
    && forall k | 0 < k < n && Parent(k) == i :: TimeOf(t, a[c]) <= TimeOf(t, a[k])
  }

  lemma SiftStep(a: seq<NodeId>, t: Times, n: nat, start: nat, i: nat, c: nat)
    requires Sifting(a, t, n, start, i) && IsFirstChild(a, t, n, i, c)
    ensures Sifting(Swapped(a, i, c), t, n, start, c)
  {
    hide IsHeapAround;
    assert Lifted(a, t, i, c) by { AroundLifted(a, t, n, i, c); }
    SiftedDown(a, t, n, i, c);
    var b := Swapped(a, i, c);
    forall k | 0 <= k < n ensures Lifted(b, t, start, k) {
      assert Lifted(a, t, start, k) && Lifted(a, t, start, c);
      StillLifted(a, t, n, start, i, c, k);
    }
  }

  lemma AroundLifted(a: seq<NodeId>, t: Times, n: nat, x: nat, i: nat)
    requires x < n <= |a| && IsHeapAround(a, t, n, x) && i < n
    ensures Lifted(a, t, x, i)
  {
  }

  lemma StillLifted(a: seq<NodeId>, t: Times, n: nat, start: nat, i: nat, c: nat, k: nat)
    requires start <= i && IsFirstChild(a, t, n, i, c) && k < n && Lifted(a, t, start, k) && Lifted(a, t, start, c)
    requires i != start ==> Ordered(a, t, start)
    requires Ordered(Swapped(a, i, c), t, i)
    ensures Lifted(Swapped(a, i, c), t, start, k)
  {
  }

  lemma SiftStart(a: seq<NodeId>, t: Times, n: nat, start: nat)
    requires start < n <= |a| && IsHeapAround(a, t, n, start)
    ensures Sifting(a, t, n, start, start)
  {
  }

  lemma FoundChild(a: seq<NodeId>, t: Times, n: nat, i: nat, c: nat)
    requires 2 * i + 1 <= c <= 2 * i + 2 && c < n <= |a| && TimeOf(t, a[c]) < TimeOf(t, a[i])
    requires TimeOf(t, a[c]) <= TimeOf(t, a[2*i+1])
    requires 2 * i + 2 < n ==> TimeOf(t, a[c]) <= TimeOf(t, a[2*i+2])
    ensures IsFirstChild(a, t, n, i, c)
  {
    assert forall k: nat | 0 < k && Parent(k) == i :: k == 2 * i + 1 || k == 2 * i + 2;
  }

  lemma SiftDone(a: seq<NodeId>, t: Times, n: nat, start: nat, i: nat)
    requires Sifting(a, t, n, start, i)
    requires forall k | 0 < k < n && Parent(k) == i :: TimeOf(t, a[i]) <= TimeOf(t, a[k])
    ensures IsHeapBut(a, t, n, start)
  {
    forall k | 0 <= k < n && k != start ensures Ordered(a, t, k) {}
  }

  /** The last element takes the place of element i. */
  lemma LastReplaces(a: seq<NodeId>, t: Times, i: nat)
    requires i < |a| - 1 && IsHeapAround(a, t, |a|, i)
    ensures IsHeapAround(Swapped(a, i, |a| - 1), t, |a| - 1, i)
  {
    var n := |a| - 1;
    var b := Swapped(a, i, n);
    forall k | 0 <= k < n && k != i && (k == 0 || Parent(k) != i) ensures Ordered(b, t, k) {
      assert Ordered(a, t, k);
    }
    forall k | 0 <= k < n ensures Lifted(b, t, i, k) { assert Lifted(a, t, i, k); }
  }

  /** Changing one node's time leaves everything else in order around it. */
  lemma TimeChanged(a: seq<NodeId>, m: map<NodeId, nat>, t: Times, u: Times, i: nat)
    requires Indexed(a, m) && IsHeap(a, t, |a|) && i < |a|
    requires forall x | x in a && x != a[i] :: TimeOf(u, x) == TimeOf(t, x)
    ensures IsHeapAround(a, u, |a|, i)
  {
    forall k | 0 <= k < |a| && k != i ensures a[k] in a && a[k] != a[i] { assert m[a[k]] == k; }
    forall k | 0 <= k < |a| && k != i && (k == 0 || Parent(k) != i) ensures Ordered(a, u, k) {
      assert Ordered(a, t, k);
    }
    forall k | 0 <= k < |a| ensures Lifted(a, u, i, k) {
      if i > 0 && k > 0 && Parent(k) == i { assert Ordered(a, t, k) && Ordered(a, t, i); }
    }
  }

  lemma Appended(a: seq<NodeId>, t: Times, x: NodeId)
    requires IsHeap(a, t, |a|)
    ensures IsHeapBut(a + [x], t, |a| + 1, |a|)
  {
    forall k | 0 <= k < |a| ensures Ordered(a + [x], t, k) { assert Ordered(a, t, k); }
  }

  lemma WholeHeap(a: seq<NodeId>, t: Times)
    requires a != [] && IsHeap(a, t, |a|)
    ensures IsHeapAround(a, t, |a|, 0)
  {
  }

  class Heap {
    var arr: seq<NodeId>
    var keyMap: map<NodeId, nat>

    constructor ()
      ensures arr == [] && keyMap == map[]
    {
      arr, keyMap := [], map[];
    }

    /** The heap holds exactly these nodes, each at the position recorded for it, in heap order. */
    ghost predicate Holds(t: Times, nodes: set<NodeId>)
      reads this
    {
      Indexed(arr, keyMap) && keyMap.Keys == nodes && IsHeap(arr, t, |arr|)
    }

    predicate Less(t: Times, i: nat, j: nat)
      requires i < |arr| && j < |arr|
      reads this
    {
      TimeOf(t, arr[i]) < TimeOf(t, arr[j])
    }

    method Swap(i: nat, j: nat)
      requires i < |arr| && j < |arr| && Indexed(arr, keyMap)
      modifies this
      ensures arr == Swapped(old(arr), i, j) && Indexed(arr, keyMap) && keyMap.Keys == old(keyMap.Keys)
    {
      arr := arr[i := arr[j]][j := arr[i]];
      keyMap := keyMap[arr[i] := i];
      keyMap := keyMap[arr[j] := j];
    }

    method Up(start: nat, t: Times, ghost n: nat)
      requires start < n <= |arr| && Indexed(arr, keyMap) && IsHeapBut(arr, t, n, start)
      modifies this
      ensures Indexed(arr, keyMap) && keyMap.Keys == old(keyMap.Keys) && |arr| == |old(arr)|
      ensures IsHeap(arr, t, n) && arr[n..] == old(arr)[n..]
    {
      var j: nat := start;
      while true
        invariant j < n <= |arr| == |old(arr)| && Indexed(arr, keyMap) && keyMap.Keys == old(keyMap.Keys)
        invariant IsHeapBut(arr, t, n, j) && arr[n..] == old(arr)[n..]
        decreases j
      {
        var i := Parent(j);
        if i == j || !Less(t, j, i) { break; }
        SiftedUp(arr, t, n, j);
        Swap(i, j);
        j := i;
      }
    }

    /** Sifts element start down among the first n; it may still be before its parent afterwards. */
    method Down(start: nat, n: nat, t: Times)
      requires start < n <= |arr| && Indexed(arr, keyMap) && IsHeapAround(arr, t, n, start)
      modifies this
      ensures Indexed(arr, keyMap) && keyMap.Keys == old(keyMap.Keys) && |arr| == |old(arr)|
      ensures IsHeapBut(arr, t, n, start) && arr[n..] == old(arr)[n..]
    {
      hide Sifting, IsFirstChild, IsHeapBut, Indexed, IsHeapAround;
      var i: nat := start;
      SiftStart(arr, t, n, start);
      while true
        invariant i < n <= |arr| == |old(arr)| && Indexed(arr, keyMap) && keyMap.Keys == old(keyMap.Keys)
        invariant Sifting(arr, t, n, start, i) && arr[n..] == old(arr)[n..]
        decreases n - i
      {
        var j1 := 2 * i + 1;
        if j1 >= n { break; }
        var j: nat := j1;
        var j2 := j1 + 1;
        if j2 < n && !Less(t, j1, j2) { j := j2; }
        if !Less(t, j, i) { break; }
        FoundChild(arr, t, n, i, j);
        SiftStep(arr, t, n, start, i, j);
        Swap(i, j);
        i := j;
      }
      SiftDone(arr, t, n, start, i);
    }

    /** Drops the last element. */
    method PopLast() returns (x: NodeId)
      requires arr != [] && Indexed(arr, keyMap)
      modifies this
      ensures x == old(arr)[|old(arr)|-1] && arr == old(arr)[..|old(arr)|-1]
      ensures Indexed(arr, keyMap) && keyMap.Keys == old(keyMap.Keys) - {x}
    {
      var n := |arr| - 1;
      x := arr[n];
      arr := arr[..n];
      keyMap := map k | k in keyMap && k != x :: keyMap[k];
    }

    /** Takes out the element at position i, whose own time may be out of order. */
    method RemoveAt(i: nat, t: Times) returns (x: NodeId)
      requires i < |arr| && Indexed(arr, keyMap) && IsHeapAround(arr, t, |arr|, i)
      modifies this
      ensures x == old(arr)[i] && Holds(t, old(keyMap.Keys) - {x})
    {
      hide Indexed, IsHeapAround, IsHeapBut, IsHeap;
      var n := |arr| - 1;
      if n != i {
        LastReplaces(arr, t, i);
        Swap(i, n);
        assert arr[n..] == [old(arr)[i]];
        Down(i, n, t);
        Up(i, t, n);
        assert arr[n..] == [old(arr)[i]] && arr[n] == arr[n..][0];
      } else {
        assert IsHeap(arr, t, n) by { LastOnly(arr, t, n); }
      }
      ghost var a := arr;
      x := PopLast();
      Shortened(a, t);
    }

    method Push(x: NodeId, t: Times, ghost nodes: set<NodeId>)
      requires Holds(t, nodes) && x !in nodes
      modifies this
      ensures Holds(t, nodes + {x})
    {
      Appended(arr, t, x);
      keyMap := keyMap[x := |arr|];
      arr := arr + [x];
      Up(|arr| - 1, t, |arr|);
    }

    method Top() returns (x: NodeId)
      requires arr != []
      ensures x == arr[0]
    {
      x := arr[0];
    }

    method Pop(t: Times, ghost nodes: set<NodeId>) returns (x: NodeId)
      requires Holds(t, nodes) && nodes != {}
      modifies this
      ensures x == old(arr)[0] && x in nodes && Holds(t, nodes - {x})
      ensures forall y | y in nodes :: TimeOf(t, x) <= TimeOf(t, y)
    {
      assert arr != [];
      forall y | y in nodes ensures TimeOf(t, arr[0]) <= TimeOf(t, y) {
        RootIsFirst(arr, t, |arr|, keyMap[y]);
      }
      WholeHeap(arr, t);
      x := RemoveAt(0, t);
    }

    /** Takes a node out; u are the times now, of which only this node's may have changed. */
    method Remove(x: NodeId, ghost t: Times, u: Times, ghost nodes: set<NodeId>)
      requires Holds(t, nodes) && forall y | y in nodes && y != x :: TimeOf(u, y) == TimeOf(t, y)
      modifies this
      ensures Holds(u, nodes - {x})
    {
      if x in keyMap {
        forall y | y in arr && y != x ensures TimeOf(u, y) == TimeOf(t, y) {
          var i :| 0 <= i < |arr| && arr[i] == y;
          assert arr[i] in keyMap;
        }
        TimeChanged(arr, keyMap, t, u, keyMap[x]);
        var y := RemoveAt(keyMap[x], u);
      } else {
        assert nodes - {x} == nodes;
        SameTimes(arr, keyMap, t, u);
      }
    }

    /** Moves a node whose time has changed to its new place. */
    method Update(x: NodeId, ghost t: Times, u: Times, ghost nodes: set<NodeId>)
      requires Holds(t, nodes) && x in nodes && forall y | y in nodes && y != x :: TimeOf(u, y) == TimeOf(t, y)
      modifies this
      ensures Holds(u, nodes)
    {
      Remove(x, t, u, nodes);
      Push(x, u, nodes - {x});
      assert nodes - {x} + {x} == nodes;
    }
  }

  lemma LastOnly(a: seq<NodeId>, t: Times, n: nat)
    requires n == |a| - 1 && IsHeapAround(a, t, |a|, n)
    ensures IsHeap(a, t, n)
  {
  }

  lemma Shortened(a: seq<NodeId>, t: Times)
    requires a != [] && IsHeap(a, t, |a| - 1)
    ensures IsHeap(a[..|a|-1], t, |a| - 1)
  {
    var b := a[..|a|-1];
    forall i | 0 <= i < |b| ensures Ordered(b, t, i) { assert Ordered(a, t, i); }
  }

  lemma SameTimes(a: seq<NodeId>, m: map<NodeId, nat>, t: Times, u: Times)
    requires Indexed(a, m) && IsHeap(a, t, |a|) && forall x | x in m :: TimeOf(u, x) == TimeOf(t, x)
    ensures IsHeap(a, u, |a|)
  {
    forall i | 0 <= i < |a| ensures Ordered(a, u, i) { assert Ordered(a, t, i); }
  }
}
