/**
 * Rebuilding the index from the backend. Whatever part of a compaction has been
 * carried out, the rebuilt index answers every lookup at or above the
 * compaction revision as the live index does.
 */
module MvccRestore {
  import opened Options
  import opened MvccKeyIndex
  import opened MvccKeys
  import opened MvccHistory
  import opened MvccStore
  import opened MvccInvariant
  import MvccSafety

  // ----- The algorithm -----

  /** Taking one record into the index; None where the code panics. */
  function RestoreOne(ix: Index, e: Event): Option<Index> {
    var k, kv := KeyOf(e), e.record.kv;
    if e.record.tomb then
      if k !in ix then Some(ix)
      else match Tombstone(ix[k], e.rev)
        case Tombed(ki) => Some(ix[k := ki])
        case NoSuchKey => Some(ix)
        case TombstonePanic => None
    else if k !in ix then Some(ix[k := Restored(Revision(kv.create, 0), e.rev, kv.version)])
    else IndexPut(ix, k, e.rev)
  }

  /** The tombstone of a key that is not there, or has already ended, changes nothing. */
  lemma RestoreIgnores(ix: Index, e: Event)
    requires e.record.tomb
    requires KeyOf(e) !in ix || (|ix[KeyOf(e)].generations| > 1 && ix[KeyOf(e)].generations[|ix[KeyOf(e)].generations|-1].revs == [])
    ensures RestoreOne(ix, e) == Some(ix)
  {
  }

  function RestoreIndex(es: History): Option<Index> {
    if es == [] then Some(map[])
    else match RestoreIndex(es[..|es|-1])
      case None => None
      case Some(ix) => RestoreOne(ix, es[|es|-1])
  }

  /** The records of the backend in the order of their revisions. */
  ghost predicate IsListing(es: History, b: map<Revision, Record>) {
    Increasing(es) && forall e :: e in es <==> e.rev in b && b[e.rev] == e.record
  }

  /** A store read back from a backend: listing are its records in order, finished and scheduled the
      compaction revisions saved with them. */
  function Reopened(b: map<Revision, Record>, finished: int, scheduled: int, listing: History): Option<Store> {
    match RestoreIndex(listing)
    case None => None
    case Some(ix) =>
      Some(NEW_STORE.(backend := b, index := ix, compacted := finished, finished := finished, scheduled := scheduled,
                      current := if listing == [] then Revision(1, 0) else listing[|listing|-1].rev))
  }

  // ----- The listing is what is left of the history -----

  function Surviving(h: History, b: map<Revision, Record>): History {
    if h == [] then []
    else
      var p, e := h[..|h|-1], h[|h|-1];
      if e.rev in b then Surviving(p, b) + [e] else Surviving(p, b)
  }

  lemma {:induction false} SurvivingAre(h: History, b: map<Revision, Record>, e: Event)
    ensures e in Surviving(h, b) <==> e in h && e.rev in b
  {
    if h != [] {
      SurvivingAre(h[..|h|-1], b, e);
      assert h == h[..|h|-1] + [h[|h|-1]];
    }
  }

  lemma {:induction false} SurvivingIncreasing(h: History, b: map<Revision, Record>)
    requires Increasing(h)
    ensures Increasing(Surviving(h, b))
  {
    if h != [] {
      var p, e := h[..|h|-1], h[|h|-1];
      SurvivingIncreasing(p, b);
      var s := Surviving(p, b);
      forall i | 0 <= i < |s| ensures Before(s[i].rev, e.rev) {
        SurvivingAre(p, b, s[i]);
        var j :| 0 <= j < |p| && p[j] == s[i];
        assert h[j] == s[i];
      }
    }
  }

  lemma {:induction false} SameListing(a: History, b: History)
    requires Increasing(a) && Increasing(b) && forall e :: e in a <==> e in b
    ensures a == b
    decreases |a|
  {
    if a == [] {
      assert forall i | 0 <= i < |b| :: b[i] in a;
    } else {
      assert a[|a|-1] in b;
      var x, y := a[|a|-1], b[|b|-1];
      assert y in a;
      var i :| 0 <= i < |b| && b[i] == x;
      var j :| 0 <= j < |a| && a[j] == y;
      assert i < |b| - 1 ==> Before(x.rev, y.rev);
      assert j < |a| - 1 ==> Before(y.rev, x.rev);
      var p, q := a[..|a|-1], b[..|b|-1];
      forall e ensures e in p <==> e in q { LastIsNew(a, e); LastIsNew(b, e); }
      SameListing(p, q);
      assert a == p + [x] && b == q + [y];
    }
  }

  lemma LastIsNew(a: History, e: Event)
    requires a != [] && Increasing(a)
    ensures e in a[..|a|-1] <==> e in a && e != a[|a|-1]
  {
    if e in a[..|a|-1] {
      var i :| 0 <= i < |a| - 1 && a[i] == e;
      assert Before(a[i].rev, a[|a|-1].rev);
    }
  }

  lemma ListingIsSurviving(s: Store, h: History, es: History)
    requires Inv(s, h) && IsListing(es, s.backend)
    ensures es == Surviving(h, s.backend)
  {
    hide IndexOk, JobOk, JobTidy, MetaAt, NoGaps, Clock, Surviving, Stored;
    SurvivingIncreasing(h, s.backend);
    forall e ensures e in es <==> e in Surviving(h, s.backend) {
      SurvivingAre(h, s.backend, e);
      if e.rev in s.backend {
        var f := Event(e.rev, s.backend[e.rev]);
        assert f in h;
        if e in h { SameEvent(h, e, f); }
      }
    }
    SameListing(es, Surviving(h, s.backend));
  }

  // ----- The creation revision of the first generation -----

  /** ki with another creation revision of its first generation. */
  function With(ki: KeyIndex, x: Revision): KeyIndex
    requires ki.generations != []
  {
    ki.(generations := ki.generations[0 := ki.generations[0].(created := x)])
  }

  lemma PutWith(ki: KeyIndex, x: Revision, rev: Revision)
    requires ki.generations != [] && ki.generations[0].revs != []
    ensures KeyPut(ki, rev).Some? <==> KeyPut(With(ki, x), rev).Some?
    ensures KeyPut(ki, rev).Some? ==>
              var k := KeyPut(ki, rev).value;
              && k.generations != [] && k.generations[0].revs != [] && KeyPut(With(ki, x), rev).value == With(k, x)
              && k.generations[0].created == ki.generations[0].created
  {
    if KeyPut(ki, rev).Some? {
      assert KeyPut(With(ki, x), rev).value.generations == With(KeyPut(ki, rev).value, x).generations;
    }
  }

  lemma TombstoneWith(ki: KeyIndex, x: Revision, rev: Revision)
    requires ki.generations != [] && ki.generations[0].revs != [] && Tombstone(With(ki, x), rev).Tombed?
    ensures Tombstone(ki, rev).Tombed?
    ensures var k := Tombstone(ki, rev).ki;
            && k.generations != [] && k.generations[0].revs != [] && Tombstone(With(ki, x), rev).ki == With(k, x)
            && k.generations[0].created == ki.generations[0].created
  {
    hide KeyPut;
    PutWith(ki, x, rev);
    var k := KeyPut(ki, rev).value;
    assert With(k, x).generations + [EMPTY] == With(k.(generations := k.generations + [EMPTY]), x).generations;
  }

  /** Lookups that agree except for the sub revision of the creation, which records do not hold. */
  predicate SameLookup(a: GetResult, b: GetResult) {
    match (a, b)
    case (Found(m, c, v), Found(m', c', v')) => m == m' && c.main == c'.main && v == v'
    case (NotFound, NotFound) => true
    case _ => false
  }

  lemma {:induction false} FindWith(gs: seq<Generation>, x: Revision, r: int, cg: nat)
    requires gs != [] && cg <= |gs|
    ensures FindGeneration(gs[0 := gs[0].(created := x)], r, cg) == FindGeneration(gs, r, cg)
  {
    if cg > 0 { FindWith(gs, x, r, cg - 1); }
  }

  lemma GetWith(ki: KeyIndex, x: Revision, r: int)
    requires ki.generations != [] && ki.generations[0].revs != [] && x.main == ki.generations[0].created.main
    ensures SameLookup(Get(ki, r), Get(With(ki, x), r))
  {
    FindWith(ki.generations, x, r, |ki.generations|);
  }

  // ----- The rebuilt index refines the history -----

  /** None of the first n writes is a put that survives. */
  ghost predicate NoPut(w: seq<Write>, b: map<Revision, Record>, n: nat)
    requires n <= |w|
  {
    forall i | 0 <= i < n :: w[i].rev !in b || w[i].tomb
  }

  /** ki stands for history w from its first surviving put on. */
  ghost predicate Rebuilt(ki: KeyIndex, w: seq<Write>, b: map<Revision, Record>, m: nat, x: Revision) {
    && ki.generations != [] && ki.generations[0].revs != [] && x.main == ki.generations[0].created.main
    && Refines(With(ki, x), w, m) && w[m].rev in b && NoPut(w, b, m)
  }

  ghost predicate RebuiltOk(ix: Index, h: History, b: map<Revision, Record>, k: Key) {
    var w := Writes(h, k);
    if k in ix then exists m: nat, x: Revision :: Rebuilt(ix[k], w, b, m, x) else NoPut(w, b, |w|)
  }

  lemma RebuiltPut(ki: KeyIndex, w: seq<Write>, b: map<Revision, Record>, m: nat, x: Revision, rev: Revision)
    requires Rebuilt(ki, w, b, m, x) && WellFormed(w + [Write(rev, false)])
    ensures KeyPut(ki, rev).Some? && Rebuilt(KeyPut(ki, rev).value, w + [Write(rev, false)], b, m, x)
  {
    hide Refines, KeyPut, WellFormed;
    PutRefines(With(ki, x), w, m, rev);
    PutWith(ki, x, rev);
    RefinesBound(With(ki, x), w, m);
  }

  lemma RefinesBound(ki: KeyIndex, w: seq<Write>, m: nat)
    requires Refines(ki, w, m)
    ensures m < |w|
  {
  }

  lemma RebuiltTombstone(ki: KeyIndex, w: seq<Write>, b: map<Revision, Record>, m: nat, x: Revision, rev: Revision)
    requires Rebuilt(ki, w, b, m, x) && WellFormed(w + [Write(rev, true)]) && w != [] && !w[|w|-1].tomb
    ensures Tombstone(ki, rev).Tombed? && Rebuilt(Tombstone(ki, rev).ki, w + [Write(rev, true)], b, m, x)
  {
    hide Refines, KeyPut, WellFormed, Tombstone;
    TombstoneRefines(With(ki, x), w, m, rev);
    TombstoneWith(ki, x, rev);
    RefinesBound(With(ki, x), w, m);
  }

  lemma RebuiltNew(w: seq<Write>, b: map<Revision, Record>, e: Event)
    requires WellFormed(w + [Write(e.rev, false)]) && NoPut(w, b, |w|) && e.rev in b
    requires IsPut(w + [Write(e.rev, false)], |w|, e)
    ensures var w' := w + [Write(e.rev, false)];
            Rebuilt(Restored(Revision(e.record.kv.create, 0), e.rev, e.record.kv.version), w', b, |w|, w'[Start(w', |w|)].rev)
  {
    var n, w' := |w|, w + [Write(e.rev, false)];
    var ki, x := Restored(Revision(e.record.kv.create, 0), e.rev, e.record.kv.version), w'[Start(w', n)].rev;
    hide Start;
    var g := Generation(ki.generations[0].ver, x, [e.rev]);
    assert With(ki, x).generations == [g];
    OneGeneration(KeyIndex(e.rev, [g]), w', n);
  }

  /** A single generation that holds the last write, a put. */
  lemma OneGeneration(ki: KeyIndex, w: seq<Write>, n: nat)
    requires WellFormed(w) && |w| == n + 1 && !w[n].tomb && |ki.generations| == 1 && ki.modified == w[n].rev
    requires Holds(ki.generations[0], w, n, n + 1)
    ensures Refines(ki, w, n)
  {
    hide Holds;
    var cuts: seq<nat> := [n, n + 1];
    assert Stretch(ki.generations, w, cuts, 0);
    assert Covers(ki.generations, w, cuts) && cuts[0] == n;
  }

  // ----- Over the whole history -----

  lemma {:induction false} StartPrefix(a: seq<Write>, b: seq<Write>, k: nat)
    requires a <= b && k < |a|
    ensures Start(a, k) == Start(b, k)
  {
    if k > 0 && !a[k-1].tomb { StartPrefix(a, b, k - 1); }
  }

  lemma {:induction false} WritesPrefix(g: History, h: History, k: Key)
    requires g <= h
    ensures Writes(g, k) <= Writes(h, k)
    decreases |h|
  {
    if |g| < |h| { WritesPrefix(g, h[..|h|-1], k); } else { assert g == h; }
  }

  lemma {:induction false} PrefixHistory(g: History, h: History)
    requires g <= h && IsHistory(h)
    ensures IsHistory(g)
    decreases |h|
  {
    if |g| < |h| {
      assert h == h[..|h|-1] + [h[|h|-1]];
      PrefixIsHistory(h[..|h|-1], h[|h|-1]);
      PrefixHistory(g, h[..|h|-1]);
    } else {
      assert g == h;
    }
  }

  /** A put's metadata, as of the time it was written. */
  lemma PutAtTheTime(h: History, g: History, e: Event)
    requires IsHistory(h) && g + [e] <= h && MetaAt(h, e) && !e.record.tomb
    ensures IsPut(Writes(g, KeyOf(e)) + [Write(e.rev, false)], |Writes(g, KeyOf(e))|, e)
  {
    hide Writes, Start;
    var k, w, v := KeyOf(e), Writes(h, KeyOf(e)), Writes(g, KeyOf(e));
    WritesAppend(g, e, k);
    WritesPrefix(g + [e], h, k);
    assert WellFormed(w);
    var n: nat :| IsPut(w, n, e);
    assert w[|v|] == Write(e.rev, false);
    assert n == |v|;
    StartPrefix(v + [Write(e.rev, false)], w, n);
  }

  lemma RebuiltOther(ix: Index, iy: Index, g: History, b: map<Revision, Record>, e: Event, k: Key)
    requires RebuiltOk(ix, g, b, k) && k != KeyOf(e) && (k in ix <==> k in iy) && (k in ix ==> ix[k] == iy[k])
    ensures RebuiltOk(iy, g + [e], b, k)
  {
    hide Writes, Rebuilt;
    WritesAppend(g, e, k);
    assert Writes(g + [e], k) == Writes(g, k);
    if k in ix { var m: nat, x: Revision :| Rebuilt(ix[k], Writes(g, k), b, m, x); }
  }

  /** A record that is gone belongs to a key of which nothing has survived before. */
  lemma RebuiltGone(s: Store, h: History, g: History, e: Event, ix: Index)
    requires Inv(s, h) && g + [e] <= h && RebuiltOk(ix, g, s.backend, KeyOf(e)) && e.rev !in s.backend
    ensures RebuiltOk(ix, g + [e], s.backend, KeyOf(e))
  {
    hide IndexOk, JobOk, JobTidy, MetaAt, BackendOk, Clock, Writes, Refines;
    var k, w := KeyOf(e), Writes(g, KeyOf(e));
    WritesAppend(g, e, k);
    if k in ix {
      var m: nat, x: Revision :| Rebuilt(ix[k], w, s.backend, m, x);
      RefinesBound(With(ix[k], x), w, m);
      WritesBound(g, k, m);
      var f :| f in g && KeyOf(f) == k && Write(f.rev, f.record.tomb) == w[m];
      SurvivesLater(s, h, g, e, f);
    }
  }

  lemma SurvivesLater(s: Store, h: History, g: History, e: Event, f: Event)
    requires Inv(s, h) && g + [e] <= h && f in g && KeyOf(f) == KeyOf(e) && f.rev in s.backend
    ensures e.rev in s.backend
  {
    hide IndexOk, JobOk, JobTidy, MetaAt, BackendOk, Clock, Writes;
    EarlierEvent(h, g, e, f);
    assert NoGap(s.backend, f, e);
  }

  lemma EarlierEvent(h: History, g: History, e: Event, f: Event)
    requires Increasing(h) && g + [e] <= h && f in g
    ensures e in h && f in h && Before(f.rev, e.rev)
  {
    var i :| 0 <= i < |g| && g[i] == f;
    assert h[i] == f && h[|g|] == e;
  }

  lemma RebuiltRecord(s: Store, h: History, g: History, e: Event, ix: Index)
    requires Inv(s, h) && g + [e] <= h && RebuiltOk(ix, g, s.backend, KeyOf(e)) && e.rev in s.backend
    ensures RestoreOne(ix, e).Some? && RebuiltOk(RestoreOne(ix, e).value, g + [e], s.backend, KeyOf(e))
  {
    hide IndexOk, JobOk, JobTidy, MetaAt, BackendOk, Clock, Writes, Refines, Tombstone, KeyPut, Rebuilt, WellFormed, NoGaps, Restored, IsPut;
    var k, w, b, v := KeyOf(e), Writes(g, KeyOf(e)), s.backend, Write(e.rev, e.record.tomb);
    WritesAppend(g, e, k);
    PrefixHistory(g + [e], h);
    assert WellFormed(w + [v]);
    assert e in h by { assert h[|g|] == e; }
    if k in ix {
      var m: nat, x: Revision :| Rebuilt(ix[k], w, b, m, x);
      RebuiltBound(ix[k], w, b, m, x);
      if v.tomb {
        TombFollowsPut(w, v);
        RebuiltTombstone(ix[k], w, b, m, x, e.rev);
      } else {
        RebuiltPut(ix[k], w, b, m, x, e.rev);
      }
    } else if !v.tomb {
      PutAtTheTime(h, g, e);
      RebuiltNew(w, b, e);
    }
  }

  lemma RebuiltBound(ki: KeyIndex, w: seq<Write>, b: map<Revision, Record>, m: nat, x: Revision)
    requires Rebuilt(ki, w, b, m, x)
    ensures m < |w|
  {
  }

  lemma TombFollowsPut(w: seq<Write>, v: Write)
    requires WellFormed(w + [v]) && v.tomb
    ensures w != [] && !w[|w|-1].tomb
  {
    assert (w + [v])[|w|] == v;
    assert (w + [v])[|w|-1] == w[|w|-1];
  }

  lemma RestoreOneOther(ix: Index, e: Event, k: Key)
    requires RestoreOne(ix, e).Some? && k != KeyOf(e)
    ensures var iy := RestoreOne(ix, e).value; (k in ix <==> k in iy) && (k in ix ==> ix[k] == iy[k])
  {
  }

  lemma {:induction false} RestorePrefix(s: Store, h: History, g: History)
    requires Inv(s, h) && g <= h
    ensures RestoreIndex(Surviving(g, s.backend)).Some?
    ensures forall k :: RebuiltOk(RestoreIndex(Surviving(g, s.backend)).value, g, s.backend, k)
    decreases |g|
  {
    hide Inv, RebuiltOk, RestoreOne;
    var b := s.backend;
    if g == [] {
      forall k ensures RebuiltOk(map[], g, b, k) { NothingRebuilt(b, k); }
    } else {
      var p, e := g[..|g|-1], g[|g|-1];
      assert g == p + [e];
      RestorePrefix(s, h, p);
      var ix := RestoreIndex(Surviving(p, b)).value;
      if e.rev in b {
        RebuiltRecord(s, h, p, e, ix);
        assert (Surviving(p, b) + [e])[..|Surviving(p, b)|] == Surviving(p, b);
        forall k ensures RebuiltOk(RestoreOne(ix, e).value, g, b, k) {
          if k != KeyOf(e) {
            RestoreOneOther(ix, e, k);
            RebuiltOther(ix, RestoreOne(ix, e).value, p, b, e, k);
          }
        }
      } else {
        forall k ensures RebuiltOk(ix, g, b, k) {
          if k == KeyOf(e) { RebuiltGone(s, h, p, e, ix); } else { RebuiltOther(ix, ix, p, b, e, k); }
        }
      }
    }
  }

  lemma NothingRebuilt(b: map<Revision, Record>, k: Key)
    ensures RebuiltOk(map[], [], b, k)
  {
  }

  /** The first write that compaction may not drop is a put, and its record survives. */
  lemma KeptSurvives(s: Store, h: History, k: Key)
    requires Inv(s, h) && Dropped(Writes(h, k), s.compacted) < |Writes(h, k)|
    ensures var v := Writes(h, k)[Dropped(Writes(h, k), s.compacted)]; !v.tomb && v.rev in s.backend
  {
    hide IndexOk, JobOk, JobTidy, MetaAt, Clock, Writes, NoGaps, Upto;
    var w, c := Writes(h, k), s.compacted;
    var d := Dropped(w, c);
    assert WellFormed(w);
    WritesBound(h, k, d);
    var e :| e in h && KeyOf(e) == k && Write(e.rev, e.record.tomb) == w[d];
    LatestIsWrite(h, k, c);
    assert Stored(s.backend, h, e, c);
    if e.rev.main <= c { SameEvent(h, e, Latest(h, k, c).value); }
  }

  /** Restore refines the live index: in every state of every run, including those between two
      batches of a compaction, rebuilding from the backend neither panics nor changes the result of
      any lookup at or above the compaction revision. */
  lemma RestoreRefinesLive(run: seq<Store>, i: nat, es: History, k: Key, r: int)
    requires IsRun(run) && i < |run| && IsListing(es, run[i].backend) && run[i].compacted <= r
    ensures RestoreIndex(es).Some?
    ensures SameLookup(IndexGet(RestoreIndex(es).value, k, r), IndexGet(run[i].index, k, r))
  {
    hide IsRun, Inv, IsListing, IndexGet;
    var hs := MvccSafety.RunHistories(run);
    RestoreRefines(run[i], hs[i], es, k, r);
  }

  lemma RestoreRefines(s: Store, h: History, es: History, k: Key, r: int)
    requires Inv(s, h) && IsListing(es, s.backend) && s.compacted <= r
    ensures RestoreIndex(es).Some?
    ensures SameLookup(IndexGet(RestoreIndex(es).value, k, r), IndexGet(s.index, k, r))
  {
    hide Inv, Get, FlatGet, Writes, Surviving, RestoreIndex, Refines, Dropped;
    ListingIsSurviving(s, h, es);
    RestorePrefix(s, h, h);
    IndexGetIs(s, h, k, r);
    var ix, w, c := RestoreIndex(es).value, Writes(h, k), s.compacted;
    assert RebuiltOk(ix, h, s.backend, k);
    DroppedBound(w, c);
    if Dropped(w, c) < |w| { KeptSurvives(s, h, k); }
    if k in ix {
      var m: nat, x: Revision :| Rebuilt(ix[k], w, s.backend, m, x);
      RefinesBound(With(ix[k], x), w, m);
      FirstPutKept(w, s.backend, m, c);
      GetRefines(With(ix[k], x), w, m, c, r);
      GetWith(ix[k], x, r);
    } else {
      InvBasics(s, h);
      assert WellFormed(w);
      AllDropped(w, c, r);
    }
  }

  lemma FirstPutKept(w: seq<Write>, b: map<Revision, Record>, m: nat, c: int)
    requires m < |w| && NoPut(w, b, m)
    requires Dropped(w, c) < |w| ==> !w[Dropped(w, c)].tomb && w[Dropped(w, c)].rev in b
    ensures m <= Dropped(w, c)
  {
  }
}
