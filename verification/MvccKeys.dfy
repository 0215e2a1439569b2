/** Keys are byte strings in lexicographic order; a set of keys has one ascending listing. */
module MvccKeys {
  import opened Options

  type Byte = b: nat | b < 256
  type Key = seq<Byte>

  predicate KeyLess(a: Key, b: Key) {
    if b == [] then false
    else if a == [] then true
    else a[0] < b[0] || (a[0] == b[0] && KeyLess(a[1..], b[1..]))
  }

  /** Without an end only the key itself; an empty end is no end. */
  predicate InRange(k: Key, lo: Key, end: Option<Key>) {
    match end
    case None => k == lo
    case Some(e) => !KeyLess(k, lo) && (e == [] || KeyLess(k, e))
  }

  lemma {:induction false} LessTotal(a: Key, b: Key)
    ensures KeyLess(a, b) || KeyLess(b, a) || a == b
    ensures !(KeyLess(a, b) && KeyLess(b, a))
  {
    if a != [] && b != [] {
      LessTotal(a[1..], b[1..]);
      if a[0] == b[0] && a[1..] == b[1..] { assert a == [a[0]] + a[1..] == b; }
    }
  }

  /** Keys compare by the first byte in which they differ, and a proper prefix comes first. */
  ghost predicate DifferAt(a: Key, b: Key, n: nat) {
    n <= |a| && n < |b| && a[..n] == b[..n] && (n == |a| || a[n] < b[n])
  }

  lemma {:induction false} LessMeans(a: Key, b: Key)
    ensures KeyLess(a, b) <==> exists n: nat :: DifferAt(a, b, n)
  {
    if b != [] && a == [] {
      assert DifferAt(a, b, 0);
    } else if b != [] && a[0] < b[0] {
      assert DifferAt(a, b, 0);
    } else if b != [] && a[0] == b[0] {
      LessMeans(a[1..], b[1..]);
      if n: nat :| DifferAt(a[1..], b[1..], n) {
        assert a[..n+1] == [a[0]] + a[1..][..n] && b[..n+1] == [b[0]] + b[1..][..n];
        assert DifferAt(a, b, n + 1);
      }
      if n: nat :| DifferAt(a, b, n) {
        assert n > 0;
        assert a[1..][..n-1] == a[..n][1..] && b[1..][..n-1] == b[..n][1..];
        assert DifferAt(a[1..], b[1..], n - 1);
      }
    } else if b != [] {
      forall n: nat ensures !DifferAt(a, b, n) {
        if n > 0 && n <= |a| && n < |b| { assert a[..n][0] == a[0] && b[..n][0] == b[0]; }
      }
    }
  }

  /** A range is one key, or all keys from one on, up to another unless that is empty. */
  lemma RangeMeans(k: Key, lo: Key, end: Key)
    ensures InRange(k, lo, None) <==> k == lo
    ensures InRange(k, lo, Some(end)) <==> (k == lo || KeyLess(lo, k)) && (|end| == 0 || KeyLess(k, end))
  {
    LessTotal(k, lo);
  }

  lemma {:induction false} LessTransitive(a: Key, b: Key, c: Key)
    requires KeyLess(a, b) && KeyLess(b, c)
    ensures KeyLess(a, c)
  {
    if a != [] && a[0] == b[0] && b[0] == c[0] { LessTransitive(a[1..], b[1..], c[1..]); }
  }

  predicate IsMin(s: set<Key>, m: Key) { m in s && forall k | k in s :: !KeyLess(k, m) }

  lemma {:induction false} HasMin(s: set<Key>)
    requires s != {}
    ensures exists m :: IsMin(s, m)
  {
    var x :| x in s;
    var t := s - {x};
    LessTotal(x, x);
    if t == {} {
      assert s == {x};
      assert IsMin(s, x);
    } else {
      HasMin(t);
      var m :| IsMin(t, m);
      LessTotal(x, m);
      if KeyLess(x, m) {
        forall k | k in s ensures !KeyLess(k, x) {
          LessTotal(k, x);
          if k in t && KeyLess(k, x) { LessTransitive(k, x, m); }
        }
        assert IsMin(s, x);
      } else {
        assert IsMin(s, m);
      }
    }
  }

  ghost function MinOf(s: set<Key>): (m: Key)
    requires s != {}
    ensures IsMin(s, m)
  {
    HasMin(s);
    var m :| IsMin(s, m);
    m
  }

  /** The keys of a set in ascending order. */
  ghost function Ascending(s: set<Key>): (r: seq<Key>)
    ensures |r| == |s| && forall k :: k in r <==> k in s
  {
    if s == {} then [] else
      var m := MinOf(s);
      [m] + Ascending(s - {m})
  }

  ghost predicate StrictlyAscending(r: seq<Key>) {
    forall i, j | 0 <= i < j < |r| :: KeyLess(r[i], r[j])
  }

  lemma {:induction false} AscendingSorted(s: set<Key>)
    ensures StrictlyAscending(Ascending(s))
  {
    if s != {} {
      var m := MinOf(s);
      var r := Ascending(s - {m});
      AscendingSorted(s - {m});
      forall i | 0 <= i < |r| ensures KeyLess(m, r[i]) {
        assert r[i] in r;
        LessTotal(m, r[i]);
      }
    }
  }

  /** One listing only: a strictly ascending sequence of the elements of s is Ascending(s). */
  lemma {:induction false} AscendingUnique(s: set<Key>, r: seq<Key>)
    requires StrictlyAscending(r) && (forall k :: k in r <==> k in s)
    ensures r == Ascending(s)
    decreases |r|
  {
    if r == [] {
      assert s == {};
    } else {
      assert r[0] in s;
      var m := MinOf(s);
      var i :| 0 <= i < |r| && r[i] == m;
      assert r[0] in r && r[0] in s;
      assert i == 0;
      assert r == [m] + r[1..];
      LessTotal(m, m);
      forall k ensures k in r[1..] <==> k in s - {m} {
        if k in r[1..] {
          var j :| 0 <= j < |r[1..]| && r[1..][j] == k;
          assert KeyLess(r[0], r[j+1]);
        }
      }
      assert StrictlyAscending(r[1..]) by {
        forall i, j | 0 <= i < j < |r[1..]| ensures KeyLess(r[1..][i], r[1..][j]) {
          assert KeyLess(r[i+1], r[j+1]);
        }
      }
      AscendingUnique(s - {m}, r[1..]);
    }
  }
}
