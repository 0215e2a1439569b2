/** The write-ahead log as the object that appends to its files, and the loops that read them back. */
module WalObject {
  import opened Options
  import opened RaftTypes
  import opened Wal

  class WAL {
    const sum: Checksum
    const metadata: string
    var state: HardState
    var segments: seq<Segment>
    var enti: nat
    var crc: nat

    ghost function View(): Writer
      reads this
    {
      Writer(metadata, state, segments, enti, crc)
    }

    constructor (sum: Checksum, metadata: string)
      ensures this.sum == sum && View() == Create(sum, metadata)
    {
      this.sum, this.metadata := sum, metadata;
      state, segments, enti, crc := EMPTY_STATE, [Segment(0, 0, [])], 0, 0;
      new;
      Append(CrcBody);
      Append(MetadataBody(metadata));
      SaveSnap(WalSnapshot(0, 0));
    }

    /** Encodes a record behind the last one of the current segment. */
    method Append(body: Body)
      requires segments != []
      modifies this`segments, this`crc
      ensures View() == Encode(sum, old(View()), body) && segments != []
    {
      if !body.CrcBody? { crc := sum(crc, body); }
      var n := |segments| - 1;
      segments := segments[n := segments[n].(records := segments[n].records + [Record(body, crc)])];
    }

    method SaveOne(e: Entry)
      requires segments != []
      modifies this`segments, this`crc, this`enti
      ensures View() == SaveEntry(sum, old(View()), e) && segments != []
    {
      Append(EntryBody(e));
      enti := e.index;
    }

    method SaveHardState(st: HardState)
      requires segments != []
      modifies this`segments, this`crc, this`state
      ensures View() == SaveState(sum, old(View()), st) && segments != []
    {
      if st == EMPTY_STATE { return; }
      state := st;
      Append(StateBody(st));
    }

    method SaveAll(st: HardState, ents: seq<Entry>, full: bool)
      requires segments != []
      modifies this
      ensures View() == Save(sum, old(View()), st, ents, full) && segments != []
    {
      if st == EMPTY_STATE && |ents| == 0 { return; }
      for i := 0 to |ents|
        invariant segments != [] && View() == SaveEntries(sum, old(View()), ents[..i])
      {
        assert ents[..i+1][..i] == ents[..i];
        SaveOne(ents[i]);
      }
      assert ents[..|ents|] == ents;
      SaveHardState(st);
      if full { CutSegment(); }
    }

    method SaveSnap(snap: WalSnapshot)
      requires segments != []
      modifies this`segments, this`crc, this`enti
      ensures View() == SaveSnapshot(sum, old(View()), snap) && segments != []
    {
      Append(SnapshotBody(snap));
      if enti < snap.index { enti := snap.index; }
    }

    method CutSegment()
      requires segments != []
      modifies this
      ensures View() == Cut(sum, old(View())) && segments != []
    {
      segments := segments + [Segment(segments[|segments|-1].number + 1, enti + 1, [])];
      Append(CrcBody);
      Append(MetadataBody(metadata));
      SaveHardState(state);
    }
  }

  /** Searches the segment names from the last one down. */
  method FindSegment(segs: seq<Segment>, index: nat) returns (i: Option<nat>)
    ensures i == SearchIndex(segs, index)
  {
    var n := |segs|;
    while n > 0
      invariant 0 <= n <= |segs| && SearchIndex(segs, index) == SearchIndex(segs[..n], index)
    {
      if index >= segs[n-1].index { return Some(n - 1); }
      assert segs[..n][..n-1] == segs[..n-1];
      n := n - 1;
    }
    return None;
  }

  method NumbersIncrease(segs: seq<Segment>) returns (ok: bool)
    ensures ok == IsValidSeq(segs)
  {
    var lastSeq := 0;
    for i := 0 to |segs|
      invariant i > 0 ==> lastSeq == segs[i-1].number
      invariant i == 0 ==> lastSeq == 0
      invariant forall j | 0 < j < i :: segs[j-1].number == 0 || segs[j-1].number + 1 == segs[j].number
    {
      if lastSeq != 0 && lastSeq + 1 != segs[i].number { return false; }
      lastSeq := segs[i].number;
    }
    return true;
  }

  /** Reads record after record until one fails. */
  method ReadAll(sum: Checksum, recs: seq<Record>, start: WalSnapshot) returns (r: Reading)
    ensures r == ReadRecords(sum, recs, start)
  {
    r := NOTHING_READ;
    for i := 0 to |recs|
      invariant r.Reading? && r == ReadRecords(sum, recs[..i], start)
    {
      assert recs[..i+1][..i] == recs[..i];
      r := ReadOne(sum, r, recs[i], start);
      if r.Failed? {
        StaysFailed(sum, recs, i + 1, start);
        return;
      }
    }
    assert recs[..|recs|] == recs;
  }

  lemma {:induction false} StaysFailed(sum: Checksum, recs: seq<Record>, n: nat, start: WalSnapshot)
    requires n <= |recs| && ReadRecords(sum, recs[..n], start).Failed?
    ensures ReadRecords(sum, recs, start) == ReadRecords(sum, recs[..n], start)
    decreases |recs|
  {
    if n == |recs| {
      assert recs[..n] == recs;
    } else {
      var p := recs[..|recs|-1];
      assert p[..n] == recs[..n];
      StaysFailed(sum, p, n, start);
    }
  }
}
