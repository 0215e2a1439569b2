/** The node as the source writes it: fields updated in place, loops over votes and progress. */
module RaftImpl {
  import opened RaftTypes
  import opened RaftNode

  // ----- The commit rule's sort -----

  ghost predicate Descending(s: seq<nat>) {
    forall i, j | 0 <= i < j < |s| :: s[i] >= s[j]
  }

  ghost function AtLeast(s: seq<nat>, x: nat): nat {
    if s == [] then 0 else (if s[0] >= x then 1 else 0) + AtLeast(s[1..], x)
  }

  lemma {:induction false} AtLeastConcat(a: seq<nat>, b: seq<nat>, x: nat)
    ensures AtLeast(a + b, x) == AtLeast(a, x) + AtLeast(b, x)
  {
    if a == [] {
      assert a + b == b;
    } else {
      assert (a + b)[1..] == a[1..] + b;
      AtLeastConcat(a[1..], b, x);
    }
  }

  lemma {:induction false} AtLeastAll(s: seq<nat>, x: nat)
    requires forall k | 0 <= k < |s| :: s[k] >= x
    ensures AtLeast(s, x) == |s|
  {
    if s != [] { AtLeastAll(s[1..], x); }
  }

  lemma {:induction false} AtLeastNone(s: seq<nat>, x: nat)
    requires forall k | 0 <= k < |s| :: s[k] < x
    ensures AtLeast(s, x) == 0
  {
    if s != [] { AtLeastNone(s[1..], x); }
  }

  lemma {:induction false} AtLeastLength(s: seq<nat>, x: nat)
    ensures AtLeast(s, x) <= |s|
  {
    if s != [] { AtLeastLength(s[1..], x); }
  }

  lemma AtLeastSnoc(s: seq<nat>, v: nat, x: nat)
    ensures AtLeast(s + [v], x) == AtLeast(s, x) + if v >= x then 1 else 0
  {
    AtLeastConcat(s, [v], x);
  }

  lemma AtLeastRemove(s: seq<nat>, i: nat, x: nat)
    requires i < |s|
    ensures AtLeast(s, x) == AtLeast(s[..i] + s[i+1..], x) + if s[i] >= x then 1 else 0
  {
    assert s[..i] + [s[i]] + s[i+1..] == s;
    AtLeastMiddle(s[..i], s[i], s[i+1..], x);
  }

  lemma AtLeastMiddle(a: seq<nat>, y: nat, b: seq<nat>, x: nat)
    ensures AtLeast(a + [y] + b, x) == AtLeast(a + b, x) + if y >= x then 1 else 0
  {
    hide AtLeast;
    AtLeastConcat(a, b, x);
    AtLeastConcat(a + [y], b, x);
    AtLeastSnoc(a, y, x);
  }

  lemma RemoveFromMultiset(s: seq<nat>, i: nat)
    requires i < |s|
    ensures multiset(s[..i] + s[i+1..]) == multiset(s) - multiset{s[i]}
  {
    assert s == s[..i] + [s[i]] + s[i+1..];
  }

  lemma {:induction false} AtLeastPermuted(a: seq<nat>, b: seq<nat>, x: nat)
    requires multiset(a) == multiset(b)
    ensures AtLeast(a, x) == AtLeast(b, x)
    decreases |a|
  {
    hide AtLeast;
    assert |a| == |multiset(a)| == |multiset(b)| == |b|;
    if a == [] {
      assert b == [];
    } else {
      assert a[0] in multiset(b);
      var i :| 0 <= i < |b| && b[i] == a[0];
      RemoveFromMultiset(a, 0);
      RemoveFromMultiset(b, i);
      AtLeastRemove(a, 0, x);
      AtLeastRemove(b, i, x);
      AtLeastPermuted(a[..0] + a[1..], b[..i] + b[i+1..], x);
    }
  }

  /** The first q values of a descending sequence reach the q-th. */
  lemma SortedReaches(s: seq<nat>, q: nat)
    requires Descending(s) && 0 < q <= |s|
    ensures AtLeast(s, s[q-1]) >= q
  {
    hide AtLeast;
    AtLeastConcat(s[..q], s[q..], s[q-1]);
    assert s[..q] + s[q..] == s;
    AtLeastAll(s[..q], s[q-1]);
  }

  /** Fewer than q values of a descending sequence exceed the q-th. */
  lemma SortedExceeds(s: seq<nat>, q: nat, x: nat)
    requires Descending(s) && 0 < q <= |s| && x > s[q-1]
    ensures AtLeast(s, x) < q
  {
    hide AtLeast;
    AtLeastConcat(s[..q-1], s[q-1..], x);
    assert s[..q-1] + s[q-1..] == s;
    AtLeastLength(s[..q-1], x);
    AtLeastNone(s[q-1..], x);
  }

  method SortDescending(s: seq<nat>) returns (r: seq<nat>)
    ensures Descending(r) && multiset(r) == multiset(s)
  {
    r := [];
    for i := 0 to |s|
      invariant Descending(r) && multiset(r) == multiset(s[..i])
    {
      var k := 0;
      while k < |r| && r[k] >= s[i]
        invariant k <= |r| && forall j | 0 <= j < k :: r[j] >= s[i]
      {
        k := k + 1;
      }
      assert s[..i+1] == s[..i] + [s[i]];
      InsertedAt(r, k, s[i]);
      r := r[..k] + [s[i]] + r[k..];
    }
    assert s[..|s|] == s;
  }

  lemma InsertedAt(r: seq<nat>, k: nat, x: nat)
    requires Descending(r) && k <= |r| && (forall j | 0 <= j < k :: r[j] >= x) && (k < |r| ==> r[k] < x)
    ensures Descending(r[..k] + [x] + r[k..]) && multiset(r[..k] + [x] + r[k..]) == multiset(r) + multiset{x}
  {
    assert r == r[..k] + r[k..];
  }

  /** What a set of members has acknowledged. */
  ghost function MatchedIn(prs: map<Id, Progress>, ids: set<Id>, x: nat): set<Id> {
    set id | id in ids && id in prs && prs[id].matched >= x
  }

  lemma MatchedInGrows(prs: map<Id, Progress>, done: set<Id>, id: Id, mis: seq<nat>, x: nat)
    requires id in prs && id !in done && AtLeast(mis, x) == |MatchedIn(prs, done, x)|
    ensures AtLeast(mis + [prs[id].matched], x) == |MatchedIn(prs, done + {id}, x)|
  {
    AtLeastSnoc(mis, prs[id].matched, x);
    assert MatchedIn(prs, done + {id}, x) ==
           MatchedIn(prs, done, x) + if prs[id].matched >= x then {id} else {};
  }

  ghost predicate Collected(prs: map<Id, Progress>, done: set<Id>, mis: seq<nat>) {
    forall x: nat :: AtLeast(mis, x) == |MatchedIn(prs, done, x)|
  }

  lemma CollectedOne(prs: map<Id, Progress>, done: set<Id>, id: Id, mis: seq<nat>)
    requires id in prs && id !in done && Collected(prs, done, mis)
    ensures Collected(prs, done + {id}, mis + [prs[id].matched])
  {
    hide AtLeast;
    forall x: nat ensures AtLeast(mis + [prs[id].matched], x) == |MatchedIn(prs, done + {id}, x)| {
      MatchedInGrows(prs, done, id, mis, x);
    }
  }

  lemma CollectedAll(prs: map<Id, Progress>, mis: seq<nat>)
    requires Collected(prs, prs.Keys, mis)
    ensures forall x: nat :: AtLeast(mis, x) == |MatchedSet(prs, x)|
  {
    hide AtLeast;
    forall x: nat ensures AtLeast(mis, x) == |MatchedSet(prs, x)| {
      assert MatchedIn(prs, prs.Keys, x) == MatchedSet(prs, x);
    }
  }

  method CollectMatched(prs: map<Id, Progress>) returns (mis: seq<nat>)
    ensures |mis| == |prs| && forall x: nat :: AtLeast(mis, x) == |MatchedSet(prs, x)|
  {
    mis := [];
    var todo := prs.Keys;
    ghost var done: set<Id> := {};
    while todo != {}
      invariant done + todo == prs.Keys && done !! todo && |mis| == |done|
      invariant Collected(prs, done, mis)
      decreases |todo|
    {
      hide Collected;
      var id :| id in todo;
      CollectedOne(prs, done, id, mis);
      mis := mis + [prs[id].matched];
      todo := todo - {id};
      done := done + {id};
    }
    assert done == prs.Keys;
    CollectedAll(prs, mis);
    assert |prs.Keys| == |prs|;
  }

  /** The quorum-th largest acknowledged index is the largest index a quorum has acknowledged. */
  method QuorumMatched(prs: map<Id, Progress>) returns (mci: nat)
    requires prs.Keys != {}
    ensures IsQuorumIndex(prs, mci)
  {
    var mis := CollectMatched(prs);
    var sorted := SortDescending(mis);
    assert |multiset(sorted)| == |multiset(mis)|;
    assert |prs| == |prs.Keys|;
    var q := QuorumSize(|prs|);
    mci := sorted[q-1];
    SortedReaches(sorted, q);
    forall x: nat | x > mci ensures AtLeast(sorted, x) < q {
      SortedExceeds(sorted, q, x);
    }
    forall x: nat ensures AtLeast(sorted, x) == |MatchedSet(prs, x)| {
      AtLeastPermuted(sorted, mis, x);
    }
  }

  // ----- Loops over entries -----

  method FindConflictIn(log: Log, base: nat, ents: seq<Entry>) returns (ci: nat)
    ensures ci == FindConflict(log, base, ents)
  {
    for i := 0 to |ents|
      invariant FindConflict(log, base, ents) == FindConflict(log, base, ents[i..])
    {
      var ne := ents[i];
      assert ents[i..][0] == ne && ents[i..][1..] == ents[i+1..];
      if !MatchTerm(log, base, ne.index, ne.term) { return ne.index; }
    }
    return 0;
  }

  function TotalSize(ents: seq<Entry>): nat {
    if ents == [] then 0 else TotalSize(ents[..|ents|-1]) + |ents[|ents|-1].data|
  }

  lemma TotalSizeNext(ents: seq<Entry>, n: nat)
    requires n < |ents|
    ensures TotalSize(ents[..n+1]) == TotalSize(ents[..n]) + EntrySize(ents[n])
  {
    assert ents[..n+1][..n] == ents[..n];
  }

  lemma {:induction false} FitCountLongest(ents: seq<Entry>, n: nat, size: nat, maxSize: nat)
    requires 1 <= n <= |ents| && size == TotalSize(ents[..n])
    ensures var r := FitCount(ents, n, size, maxSize);
            && (r > n ==> TotalSize(ents[..r]) <= maxSize)
            && (r < |ents| ==> TotalSize(ents[..r+1]) > maxSize)
    decreases |ents| - n
  {
    hide TotalSize;
    if n < |ents| {
      TotalSizeNext(ents, n);
      if size + EntrySize(ents[n]) <= maxSize { FitCountLongest(ents, n + 1, size + EntrySize(ents[n]), maxSize); }
    }
  }

  /** What is kept is the longest prefix within the limit, but never less than one entry. */
  lemma LimitSizeLongest(ents: seq<Entry>, maxSize: nat)
    ensures var r := LimitSize(ents, maxSize);
            && r == ents[..|r|] && (|r| > 1 ==> TotalSize(r) <= maxSize)
            && (|r| < |ents| ==> TotalSize(ents[..|r|+1]) > maxSize)
  {
    if ents != [] {
      assert ents[..1] == [ents[0]];
      FitCountLongest(ents, 1, EntrySize(ents[0]), maxSize);
    }
  }

  method LimitSizeOf(ents: seq<Entry>, maxSize: nat) returns (r: seq<Entry>)
    ensures r == LimitSize(ents, maxSize)
  {
    if |ents| == 0 { return ents; }
    var size: nat := EntrySize(ents[0]);
    var limit := 1;
    while limit < |ents|
      invariant 1 <= limit <= |ents|
      invariant FitCount(ents, 1, EntrySize(ents[0]), maxSize) == FitCount(ents, limit, size, maxSize)
    {
      size := size + EntrySize(ents[limit]);
      if size > maxSize { break; }
      limit := limit + 1;
    }
    return ents[..limit];
  }
}
