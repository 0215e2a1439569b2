/**
 * The two-part log: entries already in stable storage followed by unstable ones.
 * Both parts together always stand for one contiguous sequence whose first
 * element is the dummy entry kept for matching.
 */
module RaftStorage {
  import opened Options
  import opened RaftTypes
  import opened RaftNode
  import opened RaftImpl

  ghost predicate Contiguous(w: seq<Entry>) {
    w != [] && forall k | 0 <= k < |w| :: w[k].index == w[0].index + k
  }

  function LastOf(w: seq<Entry>): nat
    requires w != []
  {
    w[0].index + |w| - 1
  }

  /** The term at an index of the whole log; 0 outside it. */
  function TermIn(w: seq<Entry>, i: nat): nat
    requires w != []
  {
    if i < w[0].index || i > LastOf(w) then 0 else w[i - w[0].index].term
  }

  // ----- Size limits -----

  /** NoLimit is the largest 64-bit number in the code: no log reaches it. */
  datatype Limit = NoLimit | AtMost(size: nat)

  function Limited(ents: seq<Entry>, limit: Limit): seq<Entry> {
    match limit
    case NoLimit => ents
    case AtMost(size) => LimitSize(ents, size)
  }

  method LimitTo(ents: seq<Entry>, limit: Limit) returns (r: seq<Entry>)
    ensures r == Limited(ents, limit)
  {
    match limit
    case NoLimit => r := ents;
    case AtMost(size) => r := LimitSizeOf(ents, size);
  }

  lemma {:induction false} FitCountPrefix(a: seq<Entry>, b: seq<Entry>, n: nat, size: nat, maxSize: nat)
    requires n <= |a|
    ensures FitCount(a, n, size, maxSize) < |a| ==> FitCount(a + b, n, size, maxSize) == FitCount(a, n, size, maxSize)
    ensures FitCount(a + b, n, size, maxSize) <= |a| ==> FitCount(a, n, size, maxSize) == FitCount(a + b, n, size, maxSize)
    decreases |a| - n
  {
    if n < |a| {
      assert (a + b)[n] == a[n];
      if size + EntrySize(a[n]) <= maxSize {
        FitCountPrefix(a, b, n + 1, size + EntrySize(a[n]), maxSize);
      }
    }
  }

  /** Limiting the stable part first never changes what fits of the whole. */
  lemma LimitStableFirst(a: seq<Entry>, b: seq<Entry>, limit: Limit)
    requires a != []
    ensures |Limited(a, limit)| < |a| ==> Limited(a + b, limit) == Limited(a, limit)
    ensures |Limited(a, limit)| < |a| || Limited(a, limit) == a
  {
    if limit.AtMost? {
      FitCountPrefix(a, b, 1, EntrySize(a[0]), limit.size);
      assert (a + b)[0] == a[0];
    }
  }

  lemma NothingLimited(limit: Limit)
    ensures Limited([], limit) == []
  {
  }

  // ----- Parts of a log, by index -----

  /** a up to but not including index i, followed by b. */
  function Spliced(a: seq<Entry>, i: nat, b: seq<Entry>): seq<Entry> {
    if a != [] && a[0].index <= i <= LastOf(a) + 1 then a[..i - a[0].index] + b else a
  }

  /** The entries of a from index i on. */
  function From(a: seq<Entry>, i: nat): seq<Entry> {
    if a == [] || i <= a[0].index then a else if i > LastOf(a) then [] else a[i - a[0].index..]
  }

  /** The entries of a up to index i. */
  function UpTo(a: seq<Entry>, i: nat): seq<Entry> {
    if a == [] || i > LastOf(a) then a else if i < a[0].index then [] else a[..i + 1 - a[0].index]
  }

  /** The entries of a from index lo to before index hi. */
  function Between(a: seq<Entry>, lo: nat, hi: nat): seq<Entry> {
    if a != [] && a[0].index <= lo <= hi <= LastOf(a) + 1 then a[lo - a[0].index..hi - a[0].index] else []
  }

  lemma HasFirst(a: seq<Entry>)
    requires Contiguous(a)
    ensures a != []
  {
  }

  lemma FromContiguous(a: seq<Entry>, i: nat)
    requires Contiguous(a) && i <= LastOf(a)
    ensures Contiguous(From(a, i)) && From(a, i)[0].index == Max(i, a[0].index)
  {
  }

  lemma UpToLast(a: seq<Entry>)
    requires a != []
    ensures UpTo(a, LastOf(a)) == a
  {
  }

  lemma SplicedContiguous(a: seq<Entry>, b: seq<Entry>)
    requires Contiguous(a) && Contiguous(b) && a[0].index < b[0].index <= LastOf(a) + 1
    ensures var w := Spliced(a, b[0].index, b); Contiguous(w) && w[0] == a[0] && LastOf(w) == LastOf(b)
  {
  }

  lemma SplicedIs(a: seq<Entry>, i: nat, b: seq<Entry>)
    requires a != [] && a[0].index <= i <= LastOf(a) + 1
    ensures Spliced(a, i, b) == a[..i - a[0].index] + b
  {
  }

  /** Nothing of ents is compacted, so all of it is written. */
  lemma WrittenWhole(stored: seq<Entry>, ents: seq<Entry>)
    requires stored != [] && ents != [] && stored[0].index < ents[0].index <= LastOf(stored) + 1
    ensures LastOf(ents) > stored[0].index && Max(stored[0].index + 1, ents[0].index) == ents[0].index
    ensures stored[..ents[0].index - stored[0].index] + ents[0..] == Spliced(stored, ents[0].index, ents)
  {
  }

  lemma SplicedAll(a: seq<Entry>, b: seq<Entry>)
    requires a != []
    ensures Spliced(a, LastOf(a) + 1, b) == a + b
  {
  }

  /** Splicing behind i does not change what is before i. */
  lemma SplicedBehind(a: seq<Entry>, k: nat, b: seq<Entry>, i: nat, c: seq<Entry>)
    requires a != [] && a[0].index < i <= k <= LastOf(a) + 1
    ensures Spliced(Spliced(a, k, b), i, c) == Spliced(a, i, c)
  {
    assert Spliced(a, k, b)[..i - a[0].index] == a[..i - a[0].index];
  }

  /** Splicing within the second part splices that part. */
  lemma SplicedWithin(a: seq<Entry>, i: nat, b: seq<Entry>, k: nat, c: seq<Entry>)
    requires a != [] && a[0].index < i <= LastOf(a) + 1 && i <= k <= i + |b|
    ensures Spliced(Spliced(a, i, b), k, c) == Spliced(a, i, b[..k - i] + c)
  {
    var n := i - a[0].index;
    assert (a[..n] + b)[..k - a[0].index] == a[..n] + b[..k - i];
  }

  lemma BetweenFirst(a: seq<Entry>, i: nat, b: seq<Entry>, lo: nat, hi: nat)
    requires a != [] && a[0].index < i <= LastOf(a) + 1 && a[0].index <= lo <= hi <= i
    ensures Between(Spliced(a, i, b), lo, hi) == Between(a, lo, hi)
  {
    assert (a[..i - a[0].index] + b)[lo - a[0].index..hi - a[0].index] == a[lo - a[0].index..hi - a[0].index];
  }

  lemma BetweenSecond(a: seq<Entry>, i: nat, b: seq<Entry>, lo: nat, hi: nat)
    requires a != [] && a[0].index < i <= LastOf(a) + 1 && i <= lo <= hi <= i + |b|
    ensures Between(Spliced(a, i, b), lo, hi) == b[lo - i..hi - i]
  {
    assert (a[..i - a[0].index] + b)[lo - a[0].index..hi - a[0].index] == b[lo - i..hi - i];
  }

  lemma BetweenSplit(a: seq<Entry>, lo: nat, mid: nat, hi: nat)
    requires a != [] && a[0].index <= lo <= mid <= hi <= LastOf(a) + 1
    ensures Between(a, lo, hi) == Between(a, lo, mid) + Between(a, mid, hi)
  {
  }

  // ----- The two parts -----

  /** Stored entries up to offset, followed by unstable ones; the indices a node keeps lie within. */
  ghost predicate PartsOk(stored: seq<Entry>, offset: nat, unstable: seq<Entry>, committed: nat, applied: nat) {
    && Contiguous(stored) && stored[0].index + 1 <= offset <= LastOf(stored) + 1
    && (forall k | 0 <= k < |unstable| :: unstable[k].index == offset + k)
    && (unstable == [] ==> offset == LastOf(stored) + 1)
    && stored[0].index <= applied <= committed < offset + |unstable|
  }

  /** The one sequence both parts stand for. */
  lemma JoinedOk(stored: seq<Entry>, offset: nat, unstable: seq<Entry>, committed: nat, applied: nat)
    requires PartsOk(stored, offset, unstable, committed, applied)
    ensures stored != [] && Contiguous(stored) && stored[0].index < offset <= LastOf(stored) + 1
    ensures stored[0].index <= applied <= committed < offset + |unstable|
    ensures var w := Spliced(stored, offset, unstable);
            && w != [] && Contiguous(w) && w[0] == stored[0] && LastOf(w) == offset + |unstable| - 1
            && (unstable == [] ==> LastOf(w) == LastOf(stored))
  {
  }

  /** Writing entries behind offset to storage changes nothing that is read through it. */
  lemma PersistedParts(stored: seq<Entry>, offset: nat, unstable: seq<Entry>, committed: nat, applied: nat, ents: seq<Entry>)
    requires PartsOk(stored, offset, unstable, committed, applied) && unstable != [] && Contiguous(ents)
    requires offset <= ents[0].index <= LastOf(stored) + 1
    ensures var ready := Spliced(stored, ents[0].index, ents);
            && PartsOk(ready, offset, unstable, committed, applied)
            && Spliced(ready, offset, unstable) == Spliced(stored, offset, unstable)
  {
    hide Spliced;
    SplicedContiguous(stored, ents);
    SplicedBehind(stored, ents[0].index, ents, offset, unstable);
  }

  /** Replacing from within the stored part. */
  lemma CutStored(stored: seq<Entry>, offset: nat, unstable: seq<Entry>, committed: nat, applied: nat, ents: seq<Entry>)
    requires PartsOk(stored, offset, unstable, committed, applied) && Contiguous(ents)
    requires committed < ents[0].index <= offset
    ensures PartsOk(stored, ents[0].index, ents, committed, applied)
    ensures Spliced(stored, ents[0].index, ents) == Spliced(Spliced(stored, offset, unstable), ents[0].index, ents)
  {
    hide Spliced;
    SplicedBehind(stored, offset, unstable, ents[0].index, ents);
  }

  /** Replacing from within the unstable part, or behind it. */
  lemma CutUnstable(stored: seq<Entry>, offset: nat, unstable: seq<Entry>, committed: nat, applied: nat, ents: seq<Entry>)
    requires PartsOk(stored, offset, unstable, committed, applied) && Contiguous(ents)
    requires committed < ents[0].index && offset <= ents[0].index <= offset + |unstable|
    ensures var news := unstable[..ents[0].index - offset] + ents;
            && PartsOk(stored, offset, news, committed, applied)
            && Spliced(stored, offset, news) == Spliced(Spliced(stored, offset, unstable), ents[0].index, ents)
  {
    hide Spliced;
    SplicedWithin(stored, offset, unstable, ents[0].index, ents);
  }

  /** Dropping unstable copies up to i, the last that storage holds as well. */
  lemma StableParts(stored: seq<Entry>, offset: nat, unstable: seq<Entry>, committed: nat, applied: nat, i: nat)
    requires PartsOk(stored, offset, unstable, committed, applied) && offset <= i < offset + |unstable| && i == LastOf(stored)
    requires UpTo(Spliced(stored, offset, unstable), i) == stored
    ensures PartsOk(stored, i + 1, unstable[i + 1 - offset..], committed, applied)
    ensures Spliced(stored, i + 1, unstable[i + 1 - offset..]) == Spliced(stored, offset, unstable)
  {
    var w, b := Spliced(stored, offset, unstable), stored[0].index;
    assert w == w[..i + 1 - b] + unstable[i + 1 - offset..];
  }

  lemma TermInUnstable(stored: seq<Entry>, offset: nat, unstable: seq<Entry>, committed: nat, applied: nat, i: nat)
    requires PartsOk(stored, offset, unstable, committed, applied) && offset <= i < offset + |unstable|
    ensures Spliced(stored, offset, unstable) != [] && TermIn(Spliced(stored, offset, unstable), i) == unstable[i - offset].term
  {
  }

  lemma TermInStored(stored: seq<Entry>, offset: nat, unstable: seq<Entry>, committed: nat, applied: nat, i: nat)
    requires PartsOk(stored, offset, unstable, committed, applied) && stored[0].index <= i < offset
    ensures Spliced(stored, offset, unstable) != []
    ensures TermIn(Spliced(stored, offset, unstable), i) == stored[i - stored[0].index].term
  {
  }

  datatype SliceResult = Entries(ents: seq<Entry>) | Compacted | OutOfBounds

  /** What a size-limited slice of the whole log is. */
  function SliceOf(w: seq<Entry>, lo: nat, hi: nat, limit: Limit): SliceResult
    requires w != []
  {
    if lo > hi then OutOfBounds
    else if lo <= w[0].index then SliceResult.Compacted
    else if hi > LastOf(w) + 1 then OutOfBounds
    else Entries(Limited(Between(w, lo, hi), limit))
  }

  /** A slice is refused exactly if it is out of order, reaches into what is compacted or beyond the end; otherwise it is
      the longest part of the range from lo on that fits the limit, and at least one entry if there is one. */
  lemma SliceMeans(w: seq<Entry>, lo: nat, hi: nat, limit: Limit)
    requires w != []
    ensures SliceOf(w, lo, hi, limit).Compacted? <==> lo <= hi && lo <= w[0].index
    ensures SliceOf(w, lo, hi, limit).OutOfBounds? <==> lo > hi || (lo > w[0].index && hi > LastOf(w) + 1)
    ensures SliceOf(w, lo, hi, limit).Entries? ==>
              var ents, a := SliceOf(w, lo, hi, limit).ents, lo - w[0].index;
              && |ents| <= hi - lo && ents == w[a..a + |ents|] && (lo < hi ==> ents != [])
              && (limit == NoLimit ==> |ents| == hi - lo)
              && (limit.AtMost? && |ents| > 1 ==> TotalSize(ents) <= limit.size)
              && (limit.AtMost? && |ents| < hi - lo ==> TotalSize(w[a..a + |ents| + 1]) > limit.size)
  {
    hide TotalSize, Limited, Between;
    if lo <= hi && lo > w[0].index && hi <= LastOf(w) + 1 {
      BetweenIs(w, lo, hi);
      LimitedMeans(Between(w, lo, hi), limit);
      PartOfPart(w, lo - w[0].index, hi - w[0].index, |Limited(Between(w, lo, hi), limit)|);
    }
  }

  lemma BetweenIs(a: seq<Entry>, lo: nat, hi: nat)
    requires a != [] && a[0].index <= lo <= hi <= LastOf(a) + 1
    ensures Between(a, lo, hi) == a[lo - a[0].index..hi - a[0].index]
  {
  }

  lemma PartOfPart(w: seq<Entry>, a: nat, b: nat, n: nat)
    requires a <= b <= |w| && n <= b - a
    ensures w[a..b][..n] == w[a..a + n] && (n < b - a ==> w[a..b][..n+1] == w[a..a + n + 1])
  {
  }

  /** The longest prefix that fits, and at least one entry. */
  lemma LimitedMeans(all: seq<Entry>, limit: Limit)
    ensures var r := Limited(all, limit);
            && |r| <= |all| && r == all[..|r|] && (all != [] ==> r != []) && (limit == NoLimit ==> r == all)
            && (limit.AtMost? && |r| > 1 ==> TotalSize(r) <= limit.size)
            && (limit.AtMost? && |r| < |all| ==> TotalSize(all[..|r|+1]) > limit.size)
  {
    hide TotalSize, LimitSize;
    if limit.AtMost? {
      LimitSizeLongest(all, limit.size);
    } else {
      assert all[..|all|] == all;
    }
  }

  /** w holds what is left of log after compacting it up to w's dummy entry. */
  ghost predicate Stands(w: seq<Entry>, log: Log) {
    && w != [] && w[0].index <= |log| && w[1..] == log[w[0].index..]
    && w[0].term == if w[0].index == 0 then 0 else log[w[0].index - 1].term
  }

  lemma StandsTerm(w: seq<Entry>, log: Log, i: nat)
    requires Stands(w, log)
    ensures w != [] && TermIn(w, i) == TermAt(log, w[0].index, i) && LastOf(w) == |log|
  {
    var b := w[0].index;
    assert |w[1..]| == |log[b..]|;
    if b < i <= |log| {
      assert w[1..][i - b - 1] == log[b..][i - b - 1];
    }
  }

  lemma StandsCut(w: seq<Entry>, log: Log, ents: seq<Entry>)
    requires Stands(w, log) && ents != [] && w[0].index < ents[0].index <= |log| + 1
    ensures Stands(Spliced(w, ents[0].index, ents), log[..ents[0].index - 1] + ents)
  {
    StandsTerm(w, log, 0);
    var b, k := w[0].index, ents[0].index;
    calc {
      Spliced(w, k, ents)[1..];
      w[1..][..k - b - 1] + ents;
      log[b..][..k - b - 1] + ents;
      (log[..k - 1] + ents)[b..];
    }
  }

  lemma {:induction false} FoundIsGiven(log: Log, base: nat, ents: seq<Entry>)
    requires RaftNode.FindConflict(log, base, ents) != 0
    ensures exists k | 0 <= k < |ents| :: ents[k].index == RaftNode.FindConflict(log, base, ents)
  {
    if MatchTerm(log, base, ents[0].index, ents[0].term) {
      FoundIsGiven(log, base, ents[1..]);
      var k :| 0 <= k < |ents[1..]| && ents[1..][k].index == RaftNode.FindConflict(log, base, ents[1..]);
      assert ents[k + 1].index == RaftNode.FindConflict(log, base, ents);
    }
  }

  lemma NothingAppended(log: Log, committed: nat, ents: seq<Entry>, tocommit: nat, lastNew: nat)
    requires RaftNode.Append(log, committed, ents).None?
    ensures AcceptAndCommit(RaftNode.Append(log, committed, ents), committed, tocommit, lastNew) == AppendPanic
  {
  }

  datatype MaybeAppended = Appended(lastNew: nat) | NoMatch | Panicked

  class MemoryStorage {
    /** ents[0] is the dummy entry; ents[k] is the entry of index ents[0].index + k. */
    var ents: seq<Entry>

    ghost predicate Valid()
      reads this
    {
      Contiguous(ents)
    }

    constructor ()
      ensures Valid() && ents == [Entry(0, 0, "")]
    {
      ents := [Entry(0, 0, "")];
    }

    /** Writes entries at their own index, dropping compacted ones and everything behind them. */
    method Append(entries: seq<Entry>) returns (ok: bool)
      requires Valid() && (entries == [] || Contiguous(entries))
      modifies this
      ensures Valid() && ents[0] == old(ents)[0]
      ensures entries == [] || LastOf(entries) <= old(ents)[0].index ==> ok && ents == old(ents)
      ensures entries != [] && LastOf(entries) > old(ents)[0].index ==>
                var first := old(ents)[0].index + 1;
                var from := Max(first, entries[0].index);
                && ok == (from <= LastOf(old(ents)) + 1)
                && (ok ==> ents == old(ents)[..from - old(ents)[0].index] + entries[from - entries[0].index..])
      ensures !ok ==> ents == old(ents)
    {
      hide Contiguous, Spliced;
      HasFirst(ents);
      if |entries| == 0 { return true; }
      var first := ents[0].index + 1;
      var last := entries[0].index + |entries| - 1;
      if last < first { return true; }
      FromContiguous(entries, first);
      var es := if first > entries[0].index then entries[first - entries[0].index..] else entries;
      assert es == From(entries, first);
      hide From;
      ghost var was := ents;
      ok := Write(es);
      if ok { SplicedIs(was, es[0].index, es); }
    }

    method Write(es: seq<Entry>) returns (ok: bool)
      requires Valid() && Contiguous(es) && es[0].index > ents[0].index
      modifies this
      ensures Valid() && ents[0] == old(ents)[0] && ok == (es[0].index <= LastOf(old(ents)) + 1)
      ensures ents == if ok then Spliced(old(ents), es[0].index, es) else old(ents)
    {
      hide Contiguous;
      HasFirst(ents);
      HasFirst(es);
      var offset := es[0].index - ents[0].index;
      if |ents| >= offset {
        SplicedContiguous(ents, es);
        if |ents| > offset {
          ents := ents[..offset];
          ents := ents + es;
        } else {
          assert ents[..offset] == ents;
          ents := ents + es;
        }
        ok := true;
      } else {
        ok := false;
      }
    }

    /** Discards the entries up to compactIndex; false when they are gone already or out of range. */
    method Compact(compactIndex: nat) returns (ok: bool)
      requires Valid()
      modifies this
      ensures Valid() && ok == (old(ents)[0].index < compactIndex <= LastOf(old(ents)))
      ensures ok ==> ents[0].index == compactIndex && LastOf(ents) == LastOf(old(ents))
      ensures ok ==> forall i | compactIndex <= i :: TermIn(ents, i) == TermIn(old(ents), i)
      ensures ok ==> ents[1..] == old(ents)[compactIndex + 1 - old(ents)[0].index..]
      ensures !ok ==> ents == old(ents)
    {
      var offset := ents[0].index;
      if compactIndex <= offset || compactIndex > offset + |ents| - 1 { return false; }
      var i := compactIndex - offset;
      ents := [Entry(ents[i].index, ents[i].term, "")] + ents[i+1..];
      ok := true;
    }
  }

  class RaftLog {
    const storage: MemoryStorage
    var entries: seq<Entry>
    var offset: nat
    var committed: nat
    var applied: nat

    ghost predicate Valid()
      reads this, storage
    {
      PartsOk(storage.ents, offset, entries, committed, applied)
    }

    function Base(): nat
      requires Valid()
      reads this, storage
    {
      storage.ents[0].index
    }

    /** The one sequence both parts stand for. */
    ghost function Whole(): (w: seq<Entry>)
      requires Valid()
      reads this, storage
      ensures w != [] && Contiguous(w) && w[0] == storage.ents[0] && w[0].index == Base() <= applied <= committed
      ensures LastOf(w) == LastIndex() == offset + |entries| - 1
    {
      JoinedOk(storage.ents, offset, entries, committed, applied);
      Spliced(storage.ents, offset, entries)
    }

    function LastIndex(): nat
      requires Valid()
      reads this, storage
    {
      if |entries| != 0 then offset + |entries| - 1 else LastOf(storage.ents)
    }

    constructor (s: MemoryStorage)
      requires s.Valid()
      ensures Valid() && storage == s && Whole() == s.ents && committed == applied == s.ents[0].index
    {
      storage := s;
      entries := [];
      offset := s.ents[0].index + |s.ents|;
      committed := s.ents[0].index;
      applied := s.ents[0].index;
      new;
      SplicedAll(s.ents, []);
    }

    method Term(i: nat) returns (t: nat)
      requires Valid()
      ensures t == TermIn(Whole(), i)
    {
      if i < Base() || i > LastIndex() { return 0; }
      if i >= offset {
        TermInUnstable(storage.ents, offset, entries, committed, applied, i);
        return entries[i - offset].term;
      }
      TermInStored(storage.ents, offset, entries, committed, applied, i);
      return storage.ents[i - Base()].term;
    }

    method IsUpToDate(lasti: nat, term: nat) returns (b: bool)
      requires Valid()
      ensures var last := TermIn(Whole(), LastOf(Whole()));
              b == (term > last || (term == last && lasti >= LastOf(Whole())))
    {
      var t := Term(LastIndex());
      return term > t || (term == t && lasti >= LastIndex());
    }

    /** Reading through both parts gives the size-limited slice of the whole. */
    method Slice(lo: nat, hi: nat, limit: Limit) returns (r: SliceResult)
      requires Valid()
      ensures r == SliceOf(Whole(), lo, hi, limit)
    {
      hide Limited, Contiguous, Spliced, PartsOk;
      if lo > hi { return OutOfBounds; }
      if lo < Base() + 1 { return SliceResult.Compacted; }
      if hi > LastIndex() + 1 { return OutOfBounds; }
      if lo == hi {
        NothingLimited(limit);
        assert Between(Whole(), lo, hi) == [];
        return Entries([]);
      }
      hide Between;
      var ents := Gather(lo, hi, limit);
      return Entries(ents);
    }

    method Gather(lo: nat, hi: nat, limit: Limit) returns (r: seq<Entry>)
      requires Valid() && Base() < lo < hi <= LastIndex() + 1
      ensures r == Limited(Between(Whole(), lo, hi), limit)
    {
      hide Limited, Contiguous, Spliced, PartsOk, Between;
      JoinedOk(storage.ents, offset, entries, committed, applied);
      ghost var w := Whole();
      if lo >= offset {
        BetweenSecond(storage.ents, offset, entries, lo, hi);
        r := LimitTo(entries[lo - offset..hi - offset], limit);
        return;
      }
      var mid := Min(hi, offset);
      var stable := Stored(lo, mid);
      BetweenFirst(storage.ents, offset, entries, lo, mid);
      BetweenSplit(w, lo, mid, hi);
      LimitStableFirst(stable, Between(w, mid, hi), limit);
      var ents := LimitTo(stable, limit);
      if |ents| < mid - lo { return ents; }
      if hi > offset {
        BetweenSecond(storage.ents, offset, entries, offset, hi);
        ents := ents + entries[..hi - offset];
      }
      r := LimitTo(ents, limit);
    }

    /** Entries of storage itself. */
    method Stored(lo: nat, hi: nat) returns (ents: seq<Entry>)
      requires Valid() && Base() < lo < hi <= offset
      ensures ents == Between(storage.ents, lo, hi) && |ents| == hi - lo
    {
      ents := storage.ents[lo - Base()..hi - Base()];
    }

    /** Entries replace everything from their first index on; false where the code panics. */
    method Append(ents: seq<Entry>) returns (ok: bool)
      requires Valid() && (ents != [] ==> Contiguous(ents))
      modifies this`entries, this`offset
      ensures Valid() && Base() == old(Base()) && offset <= old(offset) && (old(entries) != [] ==> entries != [])
      ensures ents == [] ==> ok && Whole() == old(Whole())
      ensures ents != [] ==> ok == (committed < ents[0].index <= LastOf(old(Whole())) + 1)
      ensures ents != [] && ok ==> Whole() == Spliced(old(Whole()), ents[0].index, ents)
      ensures ents != [] && ok ==> Whole() == old(Whole())[..ents[0].index - Base()] + ents
      ensures !ok ==> Whole() == old(Whole())
    {
      hide Contiguous, Spliced, PartsOk;
      ghost var w := Whole();
      if |ents| == 0 { return true; }
      if ents[0].index == 0 { return false; }
      var after := ents[0].index - 1;
      if after < committed { return false; }
      if after + 1 > offset + |entries| { return false; }
      TruncateAndAppend(ents);
      SplicedIs(w, ents[0].index, ents);
      return true;
    }

    method TruncateAndAppend(ents: seq<Entry>)
      requires Valid() && Contiguous(ents) && committed < ents[0].index <= LastIndex() + 1
      modifies this`entries, this`offset
      ensures Valid() && Base() == old(Base()) && offset <= old(offset) && entries != []
      ensures Whole() == Spliced(old(Whole()), ents[0].index, ents)
    {
      hide Contiguous, Spliced, PartsOk;
      HasFirst(ents);
      JoinedOk(storage.ents, offset, entries, committed, applied);
      var after := ents[0].index - 1;
      if after + 1 == offset + |entries| {
        CutUnstable(storage.ents, offset, entries, committed, applied, ents);
        assert entries[..after + 1 - offset] == entries;
        entries := entries + ents;
      } else if after < offset {
        CutStored(storage.ents, offset, entries, committed, applied, ents);
        offset := after + 1;
        entries := ents;
      } else {
        CutUnstable(storage.ents, offset, entries, committed, applied, ents);
        entries := entries[..after + 1 - offset] + ents;
      }
    }

    /** Writing what a Ready handed out to storage leaves the log as it is, even if the unstable
        tail has been replaced since: storage then holds the log of the time of that Ready. */
    method Persist(ents: seq<Entry>, ghost ready: seq<Entry>) returns (ok: bool)
      requires Valid() && entries != [] && Contiguous(ents)
      requires Base() < ents[0].index && offset <= ents[0].index <= LastOf(storage.ents) + 1
      requires ready == Spliced(storage.ents, ents[0].index, ents)
      modifies storage
      ensures ok && Valid() && Base() == old(Base()) && Whole() == old(Whole()) && storage.ents == ready
    {
      hide Contiguous, Spliced, PartsOk, From;
      HasFirst(ents);
      JoinedOk(storage.ents, offset, entries, committed, applied);
      PersistedParts(storage.ents, offset, entries, committed, applied, ents);
      WrittenWhole(storage.ents, ents);
      hide LastOf;
      ok := storage.Append(ents);
    }

    /** Marking entries stable up to index i of term t, the last that was handed out. The log of a
        node never changes under an index whose term stays the same, so dropping the unstable copy
        changes nothing. */
    method StableTo(i: nat, t: nat, ghost ready: seq<Entry>)
      requires Valid() && storage.ents == ready && i == LastOf(ready) && t == TermIn(ready, i)
      requires i <= LastIndex() && TermIn(Whole(), i) == t ==> UpTo(Whole(), i) == UpTo(ready, i)
      modifies this`entries, this`offset
      ensures Valid() && Base() == old(Base()) && Whole() == old(Whole())
      ensures old(offset) <= i <= LastOf(old(Whole())) && TermIn(old(Whole()), i) == t ==> offset == i + 1
    {
      hide Contiguous, Spliced, PartsOk, TermIn, UpTo;
      JoinedOk(storage.ents, offset, entries, committed, applied);
      UpToLast(ready);
      if offset <= i < offset + |entries| {
        TermInUnstable(storage.ents, offset, entries, committed, applied, i);
        if entries[i - offset].term == t {
          StableParts(storage.ents, offset, entries, committed, applied, i);
          entries := entries[i + 1 - offset..];
          offset := i + 1;
        }
      }
    }

    /** This log stands for the log of a node, compacted up to Base(). */
    ghost predicate Represents(log: Log)
      requires Valid()
      reads this, storage
    {
      Stands(Whole(), log)
    }

    method FindConflict(ents: seq<Entry>, ghost log: Log) returns (ci: nat)
      requires Valid() && Represents(log)
      ensures ci == RaftNode.FindConflict(log, Base(), ents)
    {
      for i := 0 to |ents|
        invariant RaftNode.FindConflict(log, Base(), ents) == RaftNode.FindConflict(log, Base(), ents[i..])
      {
        assert ents[i..][0] == ents[i] && ents[i..][1..] == ents[i+1..];
        StandsTerm(Whole(), log, ents[i].index);
        var t := Term(ents[i].index);
        if t != ents[i].term { return ents[i].index; }
      }
      return 0;
    }

    /** The two-part log does to itself what MaybeAppend does to a node's log. */
    method MaybeAppend(index: nat, logTerm: nat, tocommit: nat, ents: seq<Entry>, ghost log: Log)
      returns (r: MaybeAppended)
      requires Valid() && Represents(log) && (forall k | 0 <= k < |ents| :: ents[k].index == index + 1 + k)
      modifies this`entries, this`offset, this`committed
      ensures Valid() && offset <= old(offset) && (old(entries) != [] ==> entries != [])
      ensures match RaftNode.MaybeAppend(log, old(Base()), old(committed), index, logTerm, tocommit, ents)
              case Accepted(l, c, last) => r == Appended(last) && Base() == old(Base()) && Represents(l) && committed == c
              case Refused => r == NoMatch && Base() == old(Base()) && Represents(log) && committed == old(committed)
              case AppendPanic => r == Panicked
    {
      hide Contiguous, Spliced, PartsOk, Stands, RaftNode.FindConflict, RaftNode.Append, AcceptAndCommit;
      StandsTerm(Whole(), log, index);
      var t := Term(index);
      if t != logTerm { return NoMatch; }
      var ci := FindConflict(ents, log);
      if ci == 0 {
        r := CommitNew(index + |ents|, tocommit, log);
        return;
      }
      FoundIsGiven(log, Base(), ents);
      if ci <= committed { return Panicked; }
      var news := ents[ci - (index + 1)..];
      var ok := AppendNew(news, log);
      if !ok {
        NothingAppended(log, committed, news, tocommit, index + |ents|);
        return Panicked;
      }
      r := CommitNew(index + |ents|, tocommit, RaftNode.Append(log, committed, news).value);
    }

    /** Commits as far as the leader has, but not beyond the last new entry. */
    method CommitNew(lastNew: nat, tocommit: nat, ghost log: Log) returns (r: MaybeAppended)
      requires Valid() && Represents(log)
      modifies this`committed
      ensures Valid()
      ensures match AcceptAndCommit(Some(log), old(committed), tocommit, lastNew)
              case Accepted(l, c, last) => r == Appended(last) && l == log && Represents(log) && committed == c
              case Refused => false
              case AppendPanic => r == Panicked
    {
      hide Contiguous, Spliced, Stands;
      StandsTerm(Whole(), log, 0);
      var ok := CommitTo(Min(tocommit, lastNew));
      if !ok { return Panicked; }
      return Appended(lastNew);
    }

    method AppendNew(ents: seq<Entry>, ghost log: Log) returns (ok: bool)
      requires Valid() && Represents(log) && ents != []
      requires forall k | 0 <= k < |ents| :: ents[k].index == ents[0].index + k
      modifies this`entries, this`offset
      ensures Valid() && Base() == old(Base()) && offset <= old(offset) && (old(entries) != [] ==> entries != [])
      ensures ok == RaftNode.Append(log, committed, ents).Some?
      ensures ok ==> Represents(RaftNode.Append(log, committed, ents).value)
    {
      hide Spliced, PartsOk, Stands;
      ghost var w := Whole();
      StandsTerm(w, log, 0);
      ok := Append(ents);
      if ok { StandsCut(w, log, ents); }
    }

    method CommitTo(tocommit: nat) returns (ok: bool)
      requires Valid()
      modifies this`committed
      ensures Valid() && ok == (tocommit <= old(committed) || tocommit <= LastOf(Whole()))
      ensures committed == if ok then Max(old(committed), tocommit) else old(committed)
    {
      if committed < tocommit {
        if LastIndex() < tocommit { return false; }
        committed := tocommit;
      }
      return true;
    }

    /** The committed entries not yet handed to the application, in order. */
    method NextEnts() returns (ents: seq<Entry>)
      requires Valid()
      ensures ents == Whole()[applied + 1 - Base()..committed + 1 - Base()]
    {
      ghost var w := Whole();
      var off := Max(applied + 1, Base() + 1);
      if committed + 1 > off {
        var r := Slice(off, committed + 1, NoLimit);
        return r.ents;
      }
      return [];
    }

    method AppliedTo(i: nat) returns (ok: bool)
      requires Valid()
      modifies this`applied
      ensures Valid() && ok == (i == 0 || old(applied) <= i <= committed)
      ensures applied == if ok && i != 0 then i else old(applied)
    {
      if i == 0 { return true; }
      if committed < i || i < applied { return false; }
      applied := i;
      return true;
    }
  }
}
