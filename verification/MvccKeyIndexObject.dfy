/** The index of one key as the object whose generations are updated in place. */
module MvccKeyIndexObject {
  import opened Options
  import opened MvccKeyIndex

  class KeyIndexObject {
    var modified: Revision
    var generations: seq<Generation>

    ghost function View(): KeyIndex
      reads this
    {
      KeyIndex(modified, generations)
    }

    constructor ()
      ensures View() == NEW_KEY
    {
      modified, generations := ZERO, [];
    }

    /** False where the code panics. */
    method PutRev(main: nat, sub: nat) returns (ok: bool)
      modifies this
      ensures KeyPut(old(View()), Revision(main, sub)) == if ok then Some(View()) else None
    {
      var rev := Revision(main, sub);
      if !Before(modified, rev) { return false; }
      if |generations| == 0 { generations := [EMPTY]; }
      var last := |generations| - 1;
      if |generations[last].revs| == 0 {
        generations := generations[last := generations[last].(created := rev)];
      }
      generations := generations[last := generations[last].(revs := generations[last].revs + [rev])];
      generations := generations[last := generations[last].(ver := generations[last].ver + 1)];
      modified := rev;
      ghost var gs := if old(generations) == [] then [EMPTY] else old(generations);
      assert generations == gs[..last] + [PutGeneration(gs[last], rev)];
      ok := true;
    }

    method TombstoneRev(main: nat, sub: nat) returns (r: TombstoneResult)
      modifies this
      ensures r == Tombstone(old(View()), Revision(main, sub))
      ensures if r.Tombed? then View() == r.ki else r.NoSuchKey? ==> View() == old(View())
    {
      if generations == [] || (|generations| == 1 && |generations[0].revs| == 0) { return TombstonePanic; }
      if |generations[|generations|-1].revs| == 0 { return NoSuchKey; }
      var ok := PutRev(main, sub);
      if !ok { return TombstonePanic; }
      generations := generations + [EMPTY];
      return Tombed(KeyIndex(modified, generations));
    }

    static method WalkRevs(revs: seq<Revision>, atRev: int) returns (n: int)
      ensures n == Walk(revs, atRev)
    {
      var l := |revs|;
      for i := 0 to l
        invariant Walk(revs, atRev) == Walk(revs[..l-i], atRev)
      {
        if revs[l-i-1].main <= atRev { return l - i - 1; }
        assert revs[..l-i][..l-i-1] == revs[..l-i-1];
      }
      return -1;
    }

    method GenerationAt(rev: int) returns (r: Option<nat>)
      ensures r == FindGeneration(generations, rev, |generations|)
    {
      var cg := |generations|;
      while cg > 0
        invariant 0 <= cg <= |generations|
        invariant FindGeneration(generations, rev, cg) == FindGeneration(generations, rev, |generations|)
      {
        var g := generations[cg-1];
        if |g.revs| == 0 {
          cg := cg - 1;
          continue;
        }
        if cg != |generations| && g.revs[|g.revs|-1].main <= rev { return None; }
        if g.revs[0].main <= rev { return Some(cg - 1); }
        cg := cg - 1;
      }
      return None;
    }

    method GetAt(atRev: int) returns (r: GetResult)
      ensures r == Get(View(), atRev)
    {
      if |generations| == 1 && |generations[0].revs| == 0 { return GetPanic; }
      var gi := GenerationAt(atRev);
      if gi.None? { return NotFound; }
      var g := generations[gi.value];
      var n := WalkRevs(g.revs, atRev);
      if n == -1 { return NotFound; }
      return Found(g.revs[n], g.created, g.ver - (|g.revs| - n - 1));
    }

    method CompactAt(atRev: int, available: set<Revision>) returns (ok: bool, out: set<Revision>)
      modifies this
      ensures ok == !CompactPanics(old(View()), atRev)
      ensures ok ==> (View(), out) == KeyCompact(old(View()), atRev, available)
    {
      out := available;
      if |generations| == 1 && generations[0].revs == [] { return false, out; }
      if |generations| == 0 { return false, out; }
      var i := 0;
      while i < |generations| - 1
        invariant 0 <= i < |generations|
        invariant FirstKept(generations, atRev, 0) == FirstKept(generations, atRev, i)
        invariant CanSearch(generations, atRev, 0) == CanSearch(generations, atRev, i)
        invariant View() == old(View())
      {
        var g := generations[i];
        if |g.revs| == 0 { return false, out; }
        if g.revs[|g.revs|-1].main > atRev { break; }
        i := i + 1;
      }
      ok := true;
      out := CutAt(i, atRev, available);
    }

    method CutAt(i: nat, atRev: int, available: set<Revision>) returns (out: set<Revision>)
      requires i < |generations| && i == FirstKept(generations, atRev, 0)
      modifies this
      ensures (View(), out) == KeyCompact(old(View()), atRev, available)
    {
      hide Walk, FirstKept;
      ghost var gs := generations;
      var g := generations[i];
      out := available;
      var n := WalkRevs(g.revs, atRev);
      if n != -1 {
        out := out + {g.revs[n]};
        g := g.(revs := g.revs[n..]);
        generations := generations[i := g];
      }
      assert g == CutGeneration(gs[i], n);
      assert out == available + if n >= 0 then {gs[i].revs[n]} else {};
      if |g.revs| == 1 && i != |generations| - 1 {
        out := out - {g.revs[0]};
        generations := generations[i+1..];
        assert generations == gs[i+1..];
      } else {
        generations := generations[i..];
        assert generations == [g] + gs[i+1..];
      }
    }
  }
}
