/**
 * The history of a store: every put and delete with its revision, in order.
 * It is what the store refines: what a key holds at a revision is its last
 * write up to there.
 */
module MvccHistory {
  import opened Options
  import opened MvccKeyIndex
  import opened MvccKeys

  datatype KeyValue = KeyValue(key: Key, value: seq<Byte>, create: nat, mod: nat, version: int, lease: nat)

  /** A backend record; a tombstone's record carries the key alone. */
  datatype Record = Record(tomb: bool, kv: KeyValue)

  datatype Event = Event(rev: Revision, record: Record)

  type History = seq<Event>

  function KeyOf(e: Event): Key { e.record.kv.key }

  function TombRecord(k: Key): Record { Record(true, KeyValue(k, [], 0, 0, 0, 0)) }

  /** The writes to one key. */
  function Writes(h: History, k: Key): seq<Write> {
    if h == [] then []
    else
      var e := h[|h|-1];
      Writes(h[..|h|-1], k) + if KeyOf(e) == k then [Write(e.rev, e.record.tomb)] else []
  }

  /** The last event of a key at or before main revision r. */
  function Latest(h: History, k: Key, r: int): (o: Option<Event>)
    ensures o.Some? ==> o.value in h && KeyOf(o.value) == k && o.value.rev.main <= r
  {
    if h == [] then None
    else if KeyOf(h[|h|-1]) == k && h[|h|-1].rev.main <= r then Some(h[|h|-1])
    else Latest(h[..|h|-1], k, r)
  }

  predicate IsLive(h: History, k: Key, r: int) {
    Latest(h, k, r).Some? && !Latest(h, k, r).value.record.tomb
  }

  ghost predicate Increasing(h: History) {
    forall i, j | 0 <= i < j < |h| :: Before(h[i].rev, h[j].rev)
  }

  /** Revisions increase, and only live keys are deleted. */
  ghost predicate IsHistory(h: History) {
    Increasing(h) && forall k :: WellFormed(Writes(h, k))
  }

  ghost function Keys(h: History): set<Key> { set e | e in h :: KeyOf(e) }

  ghost function LiveKeys(h: History, lo: Key, end: Option<Key>, r: int): set<Key> {
    set k | k in Keys(h) && InRange(k, lo, end) && IsLive(h, k, r)
  }

  function KvAt(h: History, k: Key, r: int): KeyValue {
    match Latest(h, k, r)
    case Some(e) => e.record.kv
    case None => TombRecord(k).kv
  }

  function KvsAt(h: History, ks: seq<Key>, r: int): seq<KeyValue> {
    seq(|ks|, i requires 0 <= i < |ks| => KvAt(h, ks[i], r))
  }

  /** What a range read at revision r must return: the live keys in order, each with its last write. */
  ghost function RangeAt(h: History, lo: Key, end: Option<Key>, r: int): seq<KeyValue> {
    KvsAt(h, Ascending(LiveKeys(h, lo, end, r)), r)
  }

  // ----- Facts -----

  lemma WritesAppend(h: History, e: Event, k: Key)
    ensures Writes(h + [e], k) == Writes(h, k) + if KeyOf(e) == k then [Write(e.rev, e.record.tomb)] else []
  {
    assert (h + [e])[..|h|] == h;
  }

  lemma LatestAppend(h: History, e: Event, k: Key, r: int)
    ensures Latest(h + [e], k, r) == if KeyOf(e) == k && e.rev.main <= r then Some(e) else Latest(h, k, r)
  {
    assert (h + [e])[..|h|] == h;
  }

  lemma {:induction false} LatestBound(h: History, k: Key, r: int, e: Event)
    requires Increasing(h) && e in h && KeyOf(e) == k && e.rev.main <= r
    ensures Latest(h, k, r).Some? && !Before(Latest(h, k, r).value.rev, e.rev)
  {
    var n := |h| - 1;
    if h[n] != e {
      assert h == h[..n] + [h[n]];
      assert e in h[..n];
      LatestBound(h[..n], k, r, e);
      var i :| 0 <= i < n && h[i] == e;
      assert Before(h[i].rev, h[n].rev);
    }
  }

  lemma {:induction false} WritesBound(h: History, k: Key, i: nat)
    requires i < |Writes(h, k)|
    ensures exists e :: e in h && KeyOf(e) == k && Write(e.rev, e.record.tomb) == Writes(h, k)[i]
  {
    var n := |h| - 1;
    var e := h[n];
    if i < |Writes(h[..n], k)| {
      WritesBound(h[..n], k, i);
      var f :| f in h[..n] && KeyOf(f) == k && Write(f.rev, f.record.tomb) == Writes(h[..n], k)[i];
      assert f in h;
    } else {
      assert e in h;
    }
  }

  /** The latest event of a key is the last of its writes up to r. */
  lemma {:induction false} LatestIsWrite(h: History, k: Key, r: int)
    requires IsHistory(h)
    ensures var w, n := Writes(h, k), Upto(Writes(h, k), r);
            match Latest(h, k, r)
            case None => n == 0
            case Some(e) => n > 0 && w[n-1] == Write(e.rev, e.record.tomb)
  {
    if h == [] {
      assert Writes(h, k) == [];
    } else {
      hide Writes, Upto, WellFormed, Increasing, Latest;
      var p, e := h[..|h|-1], h[|h|-1];
      assert h == p + [e];
      PrefixIsHistory(p, e);
      LatestIsWrite(p, k, r);
      WritesAppend(p, e, k);
      LatestAppend(p, e, k, r);
      assert WellFormed(Writes(h, k));
      var w, v := Writes(p, k), Write(e.rev, e.record.tomb);
      if KeyOf(e) == k {
        UptoAppend(w, v, r);
        assert Writes(h, k) == w + [v];
      } else {
        assert Writes(h, k) == w;
      }
    }
  }

  lemma PrefixIsHistory(p: History, e: Event)
    requires IsHistory(p + [e])
    ensures IsHistory(p)
  {
    forall i, j | 0 <= i < j < |p| ensures Before(p[i].rev, p[j].rev) {
      assert (p + [e])[i] == p[i] && (p + [e])[j] == p[j];
    }
    forall k ensures WellFormed(Writes(p, k)) {
      WritesAppend(p, e, k);
      assert WellFormed(Writes(p + [e], k));
      PrefixWellFormed(Writes(p, k), Writes(p + [e], k));
    }
  }

  lemma PrefixWellFormed(a: seq<Write>, b: seq<Write>)
    requires a <= b && WellFormed(b)
    ensures WellFormed(a)
  {
    assert forall i | 0 <= i < |a| :: a[i] == b[i];
  }

  /** What a key holds at r, from its flat history of writes. */
  lemma LookupIsLatest(h: History, k: Key, r: int)
    requires IsHistory(h)
    ensures FlatGet(Writes(h, k), r).Found? <==> IsLive(h, k, r)
    ensures IsLive(h, k, r) ==> FlatGet(Writes(h, k), r).modified == Latest(h, k, r).value.rev
    ensures LiveAt(Writes(h, k), r) == if IsLive(h, k, r) then {Latest(h, k, r).value.rev} else {}
  {
    LatestIsWrite(h, k, r);
  }

  /** Writes after r do not change what is read at r. */
  lemma RangeStable(h: History, e: Event, lo: Key, end: Option<Key>, r: int)
    requires e.rev.main > r
    ensures RangeAt(h + [e], lo, end, r) == RangeAt(h, lo, end, r)
  {
    forall k ensures Latest(h + [e], k, r) == Latest(h, k, r) { LatestAppend(h, e, k, r); }
    forall k ensures k in LiveKeys(h + [e], lo, end, r) <==> k in LiveKeys(h, lo, end, r) {
      if IsLive(h, k, r) { assert Latest(h, k, r).value in h + [e]; }
    }
    assert LiveKeys(h + [e], lo, end, r) == LiveKeys(h, lo, end, r);
  }
}
