/**
 * Revisions as backend keys: eight bytes of main revision, an underscore, eight
 * bytes of sub revision, and a mark for tombstones. Bytes sort as revisions do,
 * which is what makes the backend an ordered map from revisions to records.
 */
module MvccRevisionBytes {
  import opened MvccKeyIndex
  import opened MvccKeys

  const UNDERSCORE: Byte := 95
  const MARK_TOMBSTONE: Byte := 116
  const REV_BYTES_LEN := 17

  function Pow256(n: nat): nat { if n == 0 then 1 else 256 * Pow256(n - 1) }

  function BigEndian(v: nat, n: nat): (b: Key)
    ensures |b| == n
  {
    if n == 0 then [] else BigEndian(v / 256, n - 1) + [v % 256]
  }

  function Value(b: Key): nat { if b == [] then 0 else 256 * Value(b[..|b|-1]) + b[|b|-1] }

  /** A revision that fits the two 64-bit fields. */
  predicate Fits(rev: Revision) { rev.main < Pow256(8) && rev.sub < Pow256(8) }

  function RevToBytes(rev: Revision): (b: Key)
    ensures |b| == REV_BYTES_LEN
  {
    BigEndian(rev.main, 8) + [UNDERSCORE] + BigEndian(rev.sub, 8)
  }

  function BytesToRev(b: Key): Revision
    requires |b| >= REV_BYTES_LEN
  {
    Revision(Value(b[..8]), Value(b[9..17]))
  }

  function RecordKey(rev: Revision, tomb: bool): Key { RevToBytes(rev) + if tomb then [MARK_TOMBSTONE] else [] }

  predicate IsTombstone(b: Key) { |b| == REV_BYTES_LEN + 1 && b[REV_BYTES_LEN] == MARK_TOMBSTONE }

  lemma {:induction false} BigEndianValue(v: nat, n: nat)
    requires v < Pow256(n)
    ensures Value(BigEndian(v, n)) == v
  {
    if n > 0 {
      BigEndianValue(v / 256, n - 1);
      assert (BigEndian(v / 256, n - 1) + [v % 256])[..n-1] == BigEndian(v / 256, n - 1);
    }
  }

  /** Reading back the key of a record gives its revision and whether it is a tombstone. */
  lemma KeyRoundTrip(rev: Revision, tomb: bool)
    requires Fits(rev)
    ensures BytesToRev(RecordKey(rev, tomb)) == rev && IsTombstone(RecordKey(rev, tomb)) == tomb
    ensures |RecordKey(rev, tomb)| == (if tomb then 18 else 17) && RecordKey(rev, tomb)[8] == '_' as int
    ensures tomb ==> RecordKey(rev, tomb)[17] == 't' as int
  {
    hide BigEndian, Value, Pow256;
    BigEndianValue(rev.main, 8);
    BigEndianValue(rev.sub, 8);
    assert RecordKey(rev, tomb)[..8] == BigEndian(rev.main, 8);
    assert RecordKey(rev, tomb)[9..17] == BigEndian(rev.sub, 8);
  }

  /** Comparing two keys of which equally long prefixes are split off. */
  lemma {:induction false} LessConcat(a: Key, b: Key, x: Key, y: Key)
    requires |a| == |b|
    ensures KeyLess(a + x, b + y) <==> KeyLess(a, b) || (a == b && KeyLess(x, y))
  {
    if a == [] {
      assert a + x == x && b + y == y;
    } else {
      assert (a + x)[1..] == a[1..] + x && (b + y)[1..] == b[1..] + y;
      LessConcat(a[1..], b[1..], x, y);
      assert a == [a[0]] + a[1..] && b == [b[0]] + b[1..];
    }
  }

  lemma {:induction false} BigEndianOrder(v: nat, w: nat, n: nat)
    requires v < Pow256(n) && w < Pow256(n)
    ensures KeyLess(BigEndian(v, n), BigEndian(w, n)) <==> v < w
    ensures BigEndian(v, n) == BigEndian(w, n) <==> v == w
  {
    if n > 0 {
      BigEndianOrder(v / 256, w / 256, n - 1);
      LessConcat(BigEndian(v / 256, n - 1), BigEndian(w / 256, n - 1), [v % 256], [w % 256]);
      assert KeyLess([v % 256], [w % 256]) <==> v % 256 < w % 256;
      BigEndianValue(v, n);
      BigEndianValue(w, n);
    }
  }

  /** The keys of two records, tombstones or not, sort as their revisions. */
  lemma KeyOrder(a: Revision, b: Revision, s: bool, t: bool)
    requires Fits(a) && Fits(b) && a != b
    ensures KeyLess(RecordKey(a, s), RecordKey(b, t)) <==> Before(a, b)
  {
    hide BigEndian, Pow256, KeyLess;
    var am, bm := BigEndian(a.main, 8), BigEndian(b.main, 8);
    var x := [UNDERSCORE] + BigEndian(a.sub, 8);
    var y := [UNDERSCORE] + BigEndian(b.sub, 8);
    assert RevToBytes(a) == am + x && RevToBytes(b) == bm + y;
    BigEndianOrder(a.main, b.main, 8);
    BigEndianOrder(a.sub, b.sub, 8);
    LessConcat([UNDERSCORE], [UNDERSCORE], BigEndian(a.sub, 8), BigEndian(b.sub, 8));
    LessConcat(am, bm, x, y);
    LessTotal([UNDERSCORE], [UNDERSCORE]);
    LessConcat(am + x, bm + y, if s then [MARK_TOMBSTONE] else [], if t then [MARK_TOMBSTONE] else []);
    if a.main == b.main { assert am + x == bm + y ==> x == y by { SameTail(am, x, bm, y); } }
    SameTail(am, x, bm, y);
    SameTail([UNDERSCORE], BigEndian(a.sub, 8), [UNDERSCORE], BigEndian(b.sub, 8));
  }

  lemma SameTail(a: Key, x: Key, b: Key, y: Key)
    requires |a| == |b|
    ensures a + x == b + y ==> a == b && x == y
  {
    if a + x == b + y {
      assert a == (a + x)[..|a|] && b == (b + y)[..|b|];
      assert x == (a + x)[|a|..] && y == (b + y)[|b|..];
    }
  }
}
