/**
 * The revisions of one key: generations, each the writes from a creation to the
 * tombstone that ends it. They refine a flat history of writes, and compaction
 * drops writes from its front.
 */
module MvccKeyIndex {
  import opened Options

  // ----- Revisions -----

  datatype Revision = Revision(main: nat, sub: nat)

  /** b is the later revision. */
  predicate Before(a: Revision, b: Revision) {
    a.main < b.main || (a.main == b.main && a.sub < b.sub)
  }

  // ----- The index of one key -----

  datatype Generation = Generation(ver: int, created: Revision, revs: seq<Revision>)

  const ZERO := Revision(0, 0)
  const EMPTY := Generation(0, ZERO, [])

  datatype KeyIndex = KeyIndex(modified: Revision, generations: seq<Generation>)

  const NEW_KEY := KeyIndex(ZERO, [])

  predicate IsEmpty(ki: KeyIndex) { |ki.generations| == 1 && ki.generations[0].revs == [] }

  function PutGeneration(g: Generation, rev: Revision): Generation {
    Generation(g.ver + 1, if g.revs == [] then rev else g.created, g.revs + [rev])
  }

  /** None where the code panics. */
  function KeyPut(ki: KeyIndex, rev: Revision): Option<KeyIndex> {
    if !Before(ki.modified, rev) then None
    else
      var gs := if ki.generations == [] then [EMPTY] else ki.generations;
      Some(KeyIndex(rev, gs[..|gs|-1] + [PutGeneration(gs[|gs|-1], rev)]))
  }

  datatype TombstoneResult = Tombed(ki: KeyIndex) | NoSuchKey | TombstonePanic

  function Tombstone(ki: KeyIndex, rev: Revision): TombstoneResult {
    if IsEmpty(ki) || ki.generations == [] then TombstonePanic
    else if ki.generations[|ki.generations|-1].revs == [] then NoSuchKey
    else match KeyPut(ki, rev)
      case None => TombstonePanic
      case Some(k) => Tombed(k.(generations := k.generations + [EMPTY]))
  }

  /** When a write is refused: a put not after the last write panics, and so does a tombstone on an empty index or not
      after the last write; a tombstone on a key whose last generation has ended finds no such key. */
  lemma WriteAnswers(ki: KeyIndex, rev: Revision)
    ensures KeyPut(ki, rev).None? <==>
            rev.main < ki.modified.main || (rev.main == ki.modified.main && rev.sub <= ki.modified.sub)
    ensures Tombstone(ki, rev).NoSuchKey? <==> |ki.generations| > 1 && ki.generations[|ki.generations|-1].revs == []
    ensures Tombstone(ki, rev).TombstonePanic? <==>
            || ki.generations == [] || (|ki.generations| == 1 && ki.generations[0].revs == [])
            || (ki.generations[|ki.generations|-1].revs != [] && KeyPut(ki, rev).None?)
  {
  }

  /** The position of the last revision at or before main revision atRev; -1 if there is none. */
  function Walk(revs: seq<Revision>, atRev: int): (n: int)
    ensures -1 <= n < |revs| && (n >= 0 ==> revs[n].main <= atRev)
    ensures forall i | n < i < |revs| :: revs[i].main > atRev
  {
    if revs == [] then -1
    else if revs[|revs|-1].main <= atRev then |revs| - 1
    else Walk(revs[..|revs|-1], atRev)
  }

  /** The generation that main revision rev falls in, searching downwards from position cg - 1. */
  function FindGeneration(gs: seq<Generation>, rev: int, cg: nat): (r: Option<nat>)
    requires cg <= |gs|
    ensures r.Some? ==> r.value < cg && gs[r.value].revs != []
  {
    if cg == 0 then None
    else
      var g := gs[cg-1];
      if g.revs == [] then FindGeneration(gs, rev, cg - 1)
      else if cg != |gs| && g.revs[|g.revs|-1].main <= rev then None
      else if g.revs[0].main <= rev then Some(cg - 1)
      else FindGeneration(gs, rev, cg - 1)
  }

  datatype GetResult = Found(modified: Revision, created: Revision, ver: int) | NotFound | GetPanic

  function GetIn(g: Generation, atRev: int): GetResult {
    var n := Walk(g.revs, atRev);
    if n == -1 then NotFound else Found(g.revs[n], g.created, g.ver - (|g.revs| - n - 1))
  }

  function Get(ki: KeyIndex, atRev: int): GetResult {
    if IsEmpty(ki) then GetPanic
    else match FindGeneration(ki.generations, atRev, |ki.generations|)
      case None => NotFound
      case Some(i) => GetIn(ki.generations[i], atRev)
  }

  /** The first generation that is the last one or ends after atRev. */
  function FirstKept(gs: seq<Generation>, atRev: int, i: nat): (k: nat)
    requires i < |gs|
    ensures i <= k < |gs|
    decreases |gs| - i
  {
    if i == |gs| - 1 || (gs[i].revs != [] && gs[i].revs[|gs[i].revs|-1].main > atRev) then i
    else FirstKept(gs, atRev, i + 1)
  }

  /** The search for that generation reads the last revision of each it passes, which must have one. */
  predicate CanSearch(gs: seq<Generation>, atRev: int, i: nat)
    requires i < |gs|
    decreases |gs| - i
  {
    i == |gs| - 1 || (gs[i].revs != [] && (gs[i].revs[|gs[i].revs|-1].main > atRev || CanSearch(gs, atRev, i + 1)))
  }

  /** Compaction ends the process. */
  predicate CompactPanics(ki: KeyIndex, atRev: int) {
    ki.generations == [] || IsEmpty(ki) || !CanSearch(ki.generations, atRev, 0)
  }

  function CutGeneration(g: Generation, n: int): Generation
    requires n < |g.revs|
  {
    if n >= 0 then g.(revs := g.revs[n..]) else g
  }

  /** What is left after compaction at atRev, and the available revisions with the kept one added. */
  function KeyCompact(ki: KeyIndex, atRev: int, available: set<Revision>): (KeyIndex, set<Revision>)
    requires ki.generations != []
  {
    var i := FirstKept(ki.generations, atRev, 0);
    var g := ki.generations[i];
    var n := Walk(g.revs, atRev);
    var cut := CutGeneration(g, n);
    var live := available + if n >= 0 then {g.revs[n]} else {};
    if |cut.revs| == 1 && i != |ki.generations| - 1
    then (ki.(generations := ki.generations[i+1..]), live - {cut.revs[0]})
    else (ki.(generations := [cut] + ki.generations[i+1..]), live)
  }

  function Restored(created: Revision, modified: Revision, ver: int): KeyIndex {
    KeyIndex(modified, [Generation(ver, created, [modified])])
  }

  // ----- The flat history of a key -----

  datatype Write = Write(rev: Revision, tomb: bool)

  /** Revisions increase and a tombstone only follows a put. */
  ghost predicate WellFormed(h: seq<Write>) {
    && (forall i, j | 0 <= i < j < |h| :: Before(h[i].rev, h[j].rev))
    && (forall i | 0 <= i < |h| && h[i].tomb :: i > 0 && !h[i-1].tomb)
  }

  /** How many writes are at or before main revision r. */
  function Upto(h: seq<Write>, r: int): (n: nat)
    ensures n <= |h| && (n > 0 ==> h[n-1].rev.main <= r)
    ensures forall i | n <= i < |h| :: h[i].rev.main > r
  {
    if h == [] then 0
    else if h[|h|-1].rev.main <= r then |h|
    else Upto(h[..|h|-1], r)
  }

  /** The write that created the key as it stands after write k. */
  function Start(h: seq<Write>, k: nat): (s: nat)
    requires k < |h|
    ensures s <= k && (s > 0 ==> h[s-1].tomb) && forall i | s <= i < k :: !h[i].tomb
  {
    if k == 0 || h[k-1].tomb then k else Start(h, k - 1)
  }

  /** The last write at or before r unless it is a tombstone, when the key was created and how
      often it was put since. */
  function FlatGet(h: seq<Write>, r: int): GetResult {
    var n := Upto(h, r);
    if n == 0 || h[n-1].tomb then NotFound
    else Found(h[n-1].rev, h[Start(h, n-1)].rev, n - Start(h, n-1))
  }

  /** How many writes compaction at c drops: all up to c, except the last one if the key is live. */
  function Dropped(h: seq<Write>, c: int): (d: nat)
    ensures d <= |h|
  {
    var n := Upto(h, c);
    if n == 0 || h[n-1].tomb then n else n - 1
  }

  // ----- Facts about histories -----

  lemma DroppedGrows(h: seq<Write>, c: int, d: int)
    requires WellFormed(h) && c <= d
    ensures Dropped(h, c) <= Dropped(h, d)
  {
    UptoGrows(h, c, d);
    var n, m := Upto(h, c), Upto(h, d);
    if 0 < n < m && h[n-1].tomb { assert n <= m - 1; }
  }

  lemma UptoIs(h: seq<Write>, r: int, n: nat)
    requires WellFormed(h) && n <= |h| && (n > 0 ==> h[n-1].rev.main <= r) && (n < |h| ==> h[n].rev.main > r)
    ensures Upto(h, r) == n
  {
  }

  lemma UptoGrows(h: seq<Write>, c: int, r: int)
    requires WellFormed(h) && c <= r
    ensures Upto(h, c) <= Upto(h, r)
  {
  }

  lemma UptoAppend(h: seq<Write>, w: Write, r: int)
    requires WellFormed(h + [w])
    ensures Upto(h + [w], r) == if w.rev.main <= r then |h| + 1 else Upto(h, r)
  {
    assert (h + [w])[..|h|] == h;
  }

  lemma {:induction false} StartAppend(h: seq<Write>, w: Write, k: nat)
    requires k < |h|
    ensures Start(h + [w], k) == Start(h, k)
  {
    if k > 0 && !h[k-1].tomb { StartAppend(h, w, k - 1); }
  }

  lemma {:induction false} StartSame(h: seq<Write>, i: nat, k: nat)
    requires i <= k < |h| && forall j | i <= j < k :: !h[j].tomb
    ensures Start(h, k) == Start(h, i)
  {
    if i < k { StartSame(h, i, k - 1); }
  }

  /** Later writes leave earlier lookups alone. */
  lemma FlatGetAppend(h: seq<Write>, w: Write, r: int)
    requires WellFormed(h + [w]) && w.rev.main > r
    ensures FlatGet(h + [w], r) == FlatGet(h, r) && Dropped(h + [w], r) == Dropped(h, r)
  {
    UptoAppend(h, w, r);
    var n := Upto(h, r);
    if n > 0 { StartAppend(h, w, n - 1); }
  }

  // ----- Generations refine the flat history -----

  /** g holds the writes a to b - 1, of which at most the last is a tombstone. */
  ghost predicate Holds(g: Generation, h: seq<Write>, a: nat, b: nat) {
    && a <= b <= |h| && |g.revs| == b - a
    && (forall i | 0 <= i < b - a :: g.revs[i] == h[a+i].rev)
    && (forall i | a <= i < b - 1 :: !h[i].tomb)
    && (a < b ==> g.ver == b - Start(h, b-1) && g.created == h[Start(h, b-1)].rev)
    && (a == b ==> g == EMPTY && (a == 0 || h[a-1].tomb))
  }

  /** Generation j holds the stretch from cut j to cut j + 1, which a tombstone ends unless it is the last. */
  ghost predicate Stretch(gs: seq<Generation>, h: seq<Write>, cuts: seq<nat>, j: nat)
    requires j < |gs| && |cuts| == |gs| + 1
  {
    && Holds(gs[j], h, cuts[j], cuts[j+1])
    && (j < |gs| - 1 ==> cuts[j] < cuts[j+1] && h[cuts[j+1]-1].tomb)
    && (j == |gs| - 1 ==> cuts[j+1] == |h| && (cuts[j] < |h| ==> !h[|h|-1].tomb))
  }

  ghost predicate Covers(gs: seq<Generation>, h: seq<Write>, cuts: seq<nat>) {
    |gs| >= 1 && |cuts| == |gs| + 1 && forall j: nat | j < |gs| :: Stretch(gs, h, cuts, j)
  }

  /** ki stands for history h without its first d writes. */
  ghost predicate Refines(ki: KeyIndex, h: seq<Write>, d: nat) {
    && WellFormed(h) && d < |h| && ki.modified == h[|h|-1].rev
    && exists cuts: seq<nat> :: Covers(ki.generations, h, cuts) && cuts[0] == d
  }

  // ----- Writing -----

  /** A stretch that already ended is not affected by further writes. */
  lemma HoldsAppend(g: Generation, h: seq<Write>, w: Write, a: nat, b: nat)
    requires Holds(g, h, a, b)
    ensures Holds(g, h + [w], a, b)
  {
    if a < b { StartAppend(h, w, b - 1); }
  }

  lemma PutHolds(g: Generation, h: seq<Write>, w: Write, a: nat)
    requires Holds(g, h, a, |h|) && (a < |h| ==> !h[|h|-1].tomb)
    ensures Holds(PutGeneration(g, w.rev), h + [w], a, |h| + 1)
  {
    var h' := h + [w];
    if a < |h| {
      StartAppend(h, w, |h| - 1);
      StartSame(h', |h| - 1, |h|);
    }
  }

  function PutLast(gs: seq<Generation>, rev: Revision): seq<Generation>
    requires gs != []
  {
    gs[..|gs|-1] + [PutGeneration(gs[|gs|-1], rev)]
  }

  lemma PutCovers(gs: seq<Generation>, h: seq<Write>, cuts: seq<nat>, w: Write)
    requires Covers(gs, h, cuts) && !w.tomb
    ensures Covers(PutLast(gs, w.rev), h + [w], cuts[..|gs|] + [|h| + 1])
  {
    var n, gs', h', cuts' := |gs|, PutLast(gs, w.rev), h + [w], cuts[..|gs|] + [|h| + 1];
    forall j: nat | j < n ensures Stretch(gs', h', cuts', j) {
      assert Stretch(gs, h, cuts, j);
      if j < n - 1 { HoldsAppend(gs[j], h, w, cuts[j], cuts[j+1]); } else { PutHolds(gs[j], h, w, cuts[j]); }
    }
  }

  lemma TombstoneCovers(gs: seq<Generation>, h: seq<Write>, cuts: seq<nat>, w: Write)
    requires Covers(gs, h, cuts) && w.tomb && cuts[|gs|-1] < |h|
    ensures Covers(PutLast(gs, w.rev) + [EMPTY], h + [w], cuts[..|gs|] + [|h| + 1, |h| + 1])
  {
    var n, gs', h', cuts' := |gs|, PutLast(gs, w.rev) + [EMPTY], h + [w], cuts[..|gs|] + [|h| + 1, |h| + 1];
    forall j: nat | j <= n ensures Stretch(gs', h', cuts', j) {
      if j < n {
        assert Stretch(gs, h, cuts, j);
        if j < n - 1 { HoldsAppend(gs[j], h, w, cuts[j], cuts[j+1]); } else { PutHolds(gs[j], h, w, cuts[j]); }
      }
    }
  }

  lemma PutRefines(ki: KeyIndex, h: seq<Write>, d: nat, rev: Revision)
    requires Refines(ki, h, d) && WellFormed(h + [Write(rev, false)])
    ensures KeyPut(ki, rev).Some? && Refines(KeyPut(ki, rev).value, h + [Write(rev, false)], d)
  {
    hide Stretch;
    var cuts: seq<nat> :| Covers(ki.generations, h, cuts) && cuts[0] == d;
    var w := Write(rev, false);
    assert (h + [w])[|h|-1] == h[|h|-1] && (h + [w])[|h|] == w;
    PutCovers(ki.generations, h, cuts, w);
    assert (cuts[..|ki.generations|] + [|h| + 1])[0] == d;
  }

  lemma CoversShape(gs: seq<Generation>, h: seq<Write>, cuts: seq<nat>)
    requires Covers(gs, h, cuts)
    ensures |gs| >= 1 && |cuts| == |gs| + 1 && cuts[|gs|-1] <= |h| && cuts[|gs|] == |h|
    ensures gs[|gs|-1].revs == [] <==> cuts[|gs|-1] == |h|
    ensures |h| > 0 ==> (cuts[|gs|-1] == |h| <==> h[|h|-1].tomb)
  {
    assert Stretch(gs, h, cuts, |gs| - 1);
  }

  /** A tombstone ends the last generation, and is refused when the key is already gone. */
  lemma TombstoneRefines(ki: KeyIndex, h: seq<Write>, d: nat, rev: Revision)
    requires Refines(ki, h, d)
    ensures h[|h|-1].tomb ==> Tombstone(ki, rev) == NoSuchKey
    ensures !h[|h|-1].tomb && WellFormed(h + [Write(rev, true)]) ==>
              Tombstone(ki, rev).Tombed? && Refines(Tombstone(ki, rev).ki, h + [Write(rev, true)], d)
  {
    hide Stretch;
    var cuts: seq<nat> :| Covers(ki.generations, h, cuts) && cuts[0] == d;
    var gs := ki.generations;
    CoversShape(gs, h, cuts);
    var w := Write(rev, true);
    if !h[|h|-1].tomb && WellFormed(h + [w]) {
      assert (h + [w])[|h|-1] == h[|h|-1] && (h + [w])[|h|] == w;
      TombstoneCovers(gs, h, cuts, w);
      assert (cuts[..|gs|] + [|h| + 1, |h| + 1])[0] == d;
    }
  }

  /** A key that the index does not hold starts a new generation. */
  lemma NewKeyRefines(h: seq<Write>, rev: Revision)
    requires WellFormed(h + [Write(rev, false)]) && (h == [] || h[|h|-1].tomb) && Before(ZERO, rev)
    ensures KeyPut(NEW_KEY, rev).Some? && Refines(KeyPut(NEW_KEY, rev).value, h + [Write(rev, false)], |h|)
  {
    var w := Write(rev, false);
    assert Stretch([EMPTY], h, [|h|, |h|], 0);
    PutCovers([EMPTY], h, [|h|, |h|], w);
    var cuts: seq<nat> := [|h|, |h|][..1] + [|h| + 1];
    assert cuts[0] == |h|;
    assert KeyPut(NEW_KEY, rev).value.generations == PutLast([EMPTY], rev);
  }

  // ----- Reading -----

  /** Within the stretch a to b - 1 of history, walking finds the last write at or before r. */
  lemma WalkHolds(g: Generation, h: seq<Write>, a: nat, b: nat, r: int)
    requires WellFormed(h) && Holds(g, h, a, b)
    requires Upto(h, r) <= b
    ensures Walk(g.revs, r) == if Upto(h, r) <= a then -1 else Upto(h, r) - 1 - a
  {
    hide Upto, Walk, Start;
    var n, m := Walk(g.revs, r), Upto(h, r);
    if n >= 0 { assert g.revs[n] == h[a+n].rev; }
    if a < m { assert g.revs[m-1-a] == h[m-1].rev; }
  }

  lemma GetInHolds(g: Generation, h: seq<Write>, a: nat, b: nat, r: int)
    requires WellFormed(h) && Holds(g, h, a, b) && a < Upto(h, r) <= b && !h[Upto(h, r)-1].tomb
    ensures GetIn(g, r) == FlatGet(h, r)
  {
    hide Upto, Walk, Start, WellFormed;
    var m := Upto(h, r);
    WalkHolds(g, h, a, b, r);
    StartSame(h, m - 1, b - 1);
  }

  /** What is found in the generation, if there is one, is what the flat history says. */
  ghost predicate RightGeneration(gs: seq<Generation>, h: seq<Write>, r: int, found: Option<nat>)
    requires found.Some? ==> found.value < |gs|
  {
    match found
    case None => FlatGet(h, r) == NotFound
    case Some(i) => GetIn(gs[i], r) == FlatGet(h, r)
  }

  /** The generation lies after r, so the search goes on below it. */
  lemma SkippedHere(gs: seq<Generation>, h: seq<Write>, cuts: seq<nat>, r: int, cg: nat)
    requires WellFormed(h) && |cuts| == |gs| + 1 && 0 < cg <= |gs| && Stretch(gs, h, cuts, cg - 1) && Upto(h, r) <= cuts[cg]
    requires gs[cg-1].revs == [] || Upto(h, r) <= cuts[cg-1]
    ensures FindGeneration(gs, r, cg) == FindGeneration(gs, r, cg - 1) && Upto(h, r) <= cuts[cg-1]
  {
    var g, a, b := gs[cg-1], cuts[cg-1], cuts[cg];
    if g.revs != [] {
      assert g.revs[0] == h[a].rev && g.revs[|g.revs|-1] == h[b-1].rev;
    }
  }

  lemma StretchAt(gs: seq<Generation>, h: seq<Write>, cuts: seq<nat>, j: nat)
    requires Covers(gs, h, cuts) && j < |gs|
    ensures |cuts| == |gs| + 1 && Stretch(gs, h, cuts, j)
  {
  }

  /** Searching down from position cg, all later generations being after r. */
  lemma {:induction false} FindCovers(gs: seq<Generation>, h: seq<Write>, cuts: seq<nat>, r: int, cg: nat)
    requires WellFormed(h) && Covers(gs, h, cuts) && cg <= |gs| && Upto(h, r) <= cuts[cg]
    requires cuts[0] < Upto(h, r) || Upto(h, r) == 0 || h[Upto(h, r)-1].tomb
    ensures RightGeneration(gs, h, r, FindGeneration(gs, r, cg))
  {
    hide Upto, FlatGet, GetIn, WellFormed, FindGeneration, Stretch, RightGeneration;
    if cg == 0 {
      NoneFound(gs, h, r);
    } else {
      StretchAt(gs, h, cuts, cg - 1);
      hide Covers;
      if gs[cg-1].revs == [] || Upto(h, r) <= cuts[cg-1] {
        SkippedHere(gs, h, cuts, r, cg);
        FindCovers(gs, h, cuts, r, cg - 1);
      } else {
        FoundHere(gs, h, cuts, r, cg);
      }
    }
  }

  lemma NoneFound(gs: seq<Generation>, h: seq<Write>, r: int)
    requires Upto(h, r) == 0 || h[Upto(h, r)-1].tomb
    ensures RightGeneration(gs, h, r, FindGeneration(gs, r, 0))
  {
    TombedGet(h, r);
  }

  lemma FoundHere(gs: seq<Generation>, h: seq<Write>, cuts: seq<nat>, r: int, cg: nat)
    requires WellFormed(h) && |cuts| == |gs| + 1 && 0 < cg <= |gs| && Stretch(gs, h, cuts, cg - 1)
    requires cuts[cg-1] < Upto(h, r) <= cuts[cg]
    ensures RightGeneration(gs, h, r, FindGeneration(gs, r, cg))
  {
    hide Upto, Walk, Start, FlatGet;
    var m, g, a, b := Upto(h, r), gs[cg-1], cuts[cg-1], cuts[cg];
    assert g.revs[0] == h[a].rev && g.revs[|g.revs|-1] == h[b-1].rev;
    assert h[a].rev.main <= r by { assert a == m - 1 || Before(h[a].rev, h[m-1].rev); }
    if h[m-1].tomb { assert FlatGet(h, r) == NotFound by { TombedGet(h, r); } } else { GetInHolds(g, h, a, b, r); }
  }

  lemma TombedGet(h: seq<Write>, r: int)
    requires Upto(h, r) == 0 || h[Upto(h, r)-1].tomb
    ensures FlatGet(h, r) == NotFound
  {
  }

  /** Lookups at or above the compaction revision give what the flat history says. */
  lemma GetRefines(ki: KeyIndex, h: seq<Write>, d: nat, c: int, r: int)
    requires Refines(ki, h, d) && d <= Dropped(h, c) && c <= r
    ensures Get(ki, r) == FlatGet(h, r)
  {
    var cuts: seq<nat> :| Covers(ki.generations, h, cuts) && cuts[0] == d;
    CoversShape(ki.generations, h, cuts);
    UptoGrows(h, c, r);
    FindCovers(ki.generations, h, cuts, r, |ki.generations|);
  }

  // ----- Compaction -----

  /** The revision of the key that is live at c. */
  function LiveAt(h: seq<Write>, c: int): set<Revision> {
    var n := Upto(h, c);
    if n == 0 || h[n-1].tomb then {} else {h[n-1].rev}
  }

  lemma {:induction false} CoversSearched(gs: seq<Generation>, h: seq<Write>, cuts: seq<nat>, c: int, i: nat)
    requires Covers(gs, h, cuts) && i < |gs|
    ensures CanSearch(gs, c, i)
    decreases |gs| - i
  {
    if i < |gs| - 1 {
      StretchAt(gs, h, cuts, i);
      CoversSearched(gs, h, cuts, c, i + 1);
    }
  }

  /** A key index that stands for a history can be compacted. */
  lemma NeverCompactPanics(ki: KeyIndex, h: seq<Write>, d: nat, c: int)
    requires Refines(ki, h, d)
    ensures !CompactPanics(ki, c)
  {
    hide Stretch, WellFormed;
    var cuts: seq<nat> :| Covers(ki.generations, h, cuts) && cuts[0] == d;
    CoversSearched(ki.generations, h, cuts, c, 0);
    RefinesNotEmpty(ki, h, d);
  }

  lemma RefinesNotEmpty(ki: KeyIndex, h: seq<Write>, d: nat)
    requires Refines(ki, h, d)
    ensures !IsEmpty(ki)
  {
    var cuts: seq<nat> :| Covers(ki.generations, h, cuts) && cuts[0] == d;
    if |ki.generations| == 1 { assert Stretch(ki.generations, h, cuts, 0); }
  }

  /** The search of compaction stops at the generation in which c falls. */
  lemma {:induction false} FirstKeptCovers(gs: seq<Generation>, h: seq<Write>, cuts: seq<nat>, c: int, i: nat)
    requires WellFormed(h) && Covers(gs, h, cuts) && i < |gs| && cuts[i] <= Dropped(h, c)
    ensures var k := FirstKept(gs, c, i);
            && cuts[k] <= Dropped(h, c) && Upto(h, c) <= cuts[k+1]
            && (k < |gs| - 1 ==> Dropped(h, c) + 1 < cuts[k+1])
    decreases |gs| - i
  {
    hide Upto, Walk, Start, Dropped, WellFormed;
    assert Stretch(gs, h, cuts, i);
    var b := cuts[i+1];
    if i < |gs| - 1 {
      assert gs[i].revs[|gs[i].revs|-1] == h[b-1].rev;
      if h[b-1].rev.main <= c {
        DroppedEnded(h, c, b);
        FirstKeptCovers(gs, h, cuts, c, i + 1);
      } else {
        KeptNotEnded(h, c, cuts[i], b);
      }
    }
  }

  lemma DroppedEnded(h: seq<Write>, c: int, b: nat)
    requires WellFormed(h) && 0 < b <= |h| && h[b-1].tomb && h[b-1].rev.main <= c
    ensures b <= Dropped(h, c)
  {
    hide Upto;
    assert Upto(h, c) >= b;
    if b < Upto(h, c) && h[Upto(h, c)-1].tomb { assert b <= Upto(h, c) - 1; }
  }

  lemma KeptNotEnded(h: seq<Write>, c: int, a: nat, b: nat)
    requires WellFormed(h) && a <= Dropped(h, c) && a < b <= |h| && h[b-1].tomb && h[b-1].rev.main > c
    requires forall i | a <= i < b - 1 :: !h[i].tomb
    ensures Upto(h, c) <= b && Dropped(h, c) + 1 < b
  {
    hide Upto;
  }

  lemma CutHolds(g: Generation, h: seq<Write>, a: nat, b: nat, c: int)
    requires WellFormed(h) && Holds(g, h, a, b) && a <= Dropped(h, c) && Upto(h, c) <= b
    requires Dropped(h, c) + 1 < b || (b == |h| && (a < b ==> !h[b-1].tomb))
    ensures -1 <= Walk(g.revs, c) < |g.revs|
    ensures Holds(CutGeneration(g, Walk(g.revs, c)), h, Dropped(h, c), b)
    ensures LiveAt(h, c) == if Walk(g.revs, c) >= 0 then {g.revs[Walk(g.revs, c)]} else {}
  {
    hide Upto, Walk, Start, WellFormed, Holds;
    WalkHolds(g, h, a, b, c);
    var n := Walk(g.revs, c);
    if n >= 0 {
      HoldsFrom(g, h, a, b, a + n);
    }
  }

  /** The rest of a generation holds the rest of its stretch; no write but its last is a tombstone. */
  lemma HoldsFrom(g: Generation, h: seq<Write>, a: nat, b: nat, k: nat)
    requires Holds(g, h, a, b) && a <= k < a + |g.revs|
    ensures k < b && Holds(g.(revs := g.revs[k - a..]), h, k, b) && g.revs[k - a] == h[k].rev && (h[k].tomb ==> k == b - 1)
  {
  }

  /** Compaction at c drops exactly the writes no lookup at or above c can see, and reports exactly
      the revision live at c. */
  lemma CompactRefines(ki: KeyIndex, h: seq<Write>, d: nat, c: int, available: set<Revision>)
    requires Refines(ki, h, d) && d <= Dropped(h, c)
    ensures ki.generations != []
    ensures KeyCompact(ki, c, available).1 == available + LiveAt(h, c)
    ensures if Dropped(h, c) < |h| then Refines(KeyCompact(ki, c, available).0, h, Dropped(h, c)) else IsEmpty(KeyCompact(ki, c, available).0)
  {
    var cuts: seq<nat> :| Covers(ki.generations, h, cuts) && cuts[0] == d;
    CompactCovers(ki, h, cuts, c, available);
  }

  lemma CompactCovers(ki: KeyIndex, h: seq<Write>, cuts: seq<nat>, c: int, available: set<Revision>)
    requires WellFormed(h) && Covers(ki.generations, h, cuts) && cuts[0] <= Dropped(h, c)
    requires h != [] && ki.modified == h[|h|-1].rev
    ensures ki.generations != []
    ensures KeyCompact(ki, c, available).1 == available + LiveAt(h, c)
    ensures if Dropped(h, c) < |h| then Refines(KeyCompact(ki, c, available).0, h, Dropped(h, c)) else IsEmpty(KeyCompact(ki, c, available).0)
  {
    hide Upto, Walk, Start, FirstKept, LiveAt, WellFormed, Dropped;
    var gs, d := ki.generations, Dropped(h, c);
    FirstKeptCovers(gs, h, cuts, c, 0);
    var k := FirstKept(gs, c, 0);
    assert Stretch(gs, h, cuts, k);
    CutHolds(gs[k], h, cuts[k], cuts[k+1], c);
    var cut := CutGeneration(gs[k], Walk(gs[k].revs, c));
    var gs', cuts' := [cut] + gs[k+1..], [d] + cuts[k+1..];
    CutCovers(gs, h, cuts, k, cut, d);
    assert cuts'[0] == d;
  }

  lemma CutCovers(gs: seq<Generation>, h: seq<Write>, cuts: seq<nat>, k: nat, cut: Generation, d: nat)
    requires Covers(gs, h, cuts) && k < |gs| && Holds(cut, h, d, cuts[k+1])
    requires k < |gs| - 1 ==> d < cuts[k+1]
    requires cuts[k] <= d
    ensures Covers([cut] + gs[k+1..], h, [d] + cuts[k+1..])
  {
    var gs', cuts': seq<nat> := [cut] + gs[k+1..], [d] + cuts[k+1..];
    assert Stretch(gs, h, cuts, k);
    forall j: nat | j < |gs'| ensures Stretch(gs', h, cuts', j) {
      assert Stretch(gs, h, cuts, k + j);
    }
  }

  // ----- The representation is unique -----

  lemma {:induction false} CutsAgree(gs: seq<Generation>, cuts: seq<nat>, fs: seq<Generation>, cuts': seq<nat>, h: seq<Write>, j: nat)
    requires Covers(gs, h, cuts) && Covers(fs, h, cuts') && cuts[0] == cuts'[0] && j < |gs|
    ensures j < |fs| && cuts[j] == cuts'[j]
  {
    if j > 0 {
      CutsAgree(gs, cuts, fs, cuts', h, j - 1);
      assert Stretch(gs, h, cuts, j - 1) && Stretch(fs, h, cuts', j - 1);
    }
  }

  /** Two lists of generations that stand for the same part of a history are the same. */
  lemma CoversUnique(gs: seq<Generation>, cuts: seq<nat>, fs: seq<Generation>, cuts': seq<nat>, h: seq<Write>)
    requires Covers(gs, h, cuts) && Covers(fs, h, cuts') && cuts[0] == cuts'[0]
    ensures gs == fs
  {
    CutsAgree(gs, cuts, fs, cuts', h, |gs| - 1);
    CutsAgree(fs, cuts', gs, cuts, h, |fs| - 1);
    forall j: nat | j < |gs| ensures gs[j] == fs[j] {
      CutsAgree(gs, cuts, fs, cuts', h, j);
      if j < |gs| - 1 { CutsAgree(gs, cuts, fs, cuts', h, j + 1); }
      assert Stretch(gs, h, cuts, j) && Stretch(fs, h, cuts', j);
      assert gs[j].revs == fs[j].revs;
    }
  }

  lemma RefinesUnique(a: KeyIndex, b: KeyIndex, h: seq<Write>, d: nat)
    requires Refines(a, h, d) && Refines(b, h, d)
    ensures a == b
  {
    var cuts: seq<nat> :| Covers(a.generations, h, cuts) && cuts[0] == d;
    var cuts': seq<nat> :| Covers(b.generations, h, cuts') && cuts'[0] == d;
    CoversUnique(a.generations, cuts, b.generations, cuts', h);
  }
}
