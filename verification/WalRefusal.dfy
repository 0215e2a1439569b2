/** What reading makes of any records at all: which it refuses, with which error, and what it gives otherwise. */
module WalRefusal {
  import opened Options
  import opened RaftTypes
  import opened Wal
  import opened WalReplay

  /** The checksum the record at position i has to go on from: that of the record before it. */
  function Before(recs: seq<Record>, i: nat): nat
    requires i <= |recs|
  {
    if i == 0 then 0 else recs[i-1].crc
  }

  /** What is wrong with the record at position i, given the records before it. */
  ghost function Fault(sum: Checksum, recs: seq<Record>, start: WalSnapshot, i: nat): Option<ReadError>
    requires i < |recs|
  {
    var rec, was := recs[i], Before(recs, i);
    if !rec.body.CrcBody? && rec.crc != sum(was, rec.body) then Some(CrcMismatch)
    else match rec.body
      case CrcBody => if was != 0 && rec.crc != was then Some(CrcMismatch) else None
      case MetadataBody(m) =>
        if exists b :: b in Bodies(recs[..i]) && b.MetadataBody? && b.metadata != m then Some(MetadataConflict) else None
      case SnapshotBody(snap) => if snap.index == start.index && snap.term != start.term then Some(SnapshotMismatch) else None
      case EntryBody(e) =>
        if e.index > LastAbove(EntriesIn(Bodies(recs[..i])), start.index) + 1 then Some(OutOfRange) else None
      case StateBody(_) => None
  }

  ghost predicate FaultFree(sum: Checksum, recs: seq<Record>, start: WalSnapshot, n: nat)
    requires n <= |recs|
  {
    forall i | 0 <= i < n :: Fault(sum, recs, start, i).None?
  }

  /** The entries above s, each index as it was read last. */
  ghost predicate EntriesRead(ents: seq<Entry>, es: seq<Entry>, s: nat) {
    && s + |ents| == LastAbove(es, s)
    && forall i | 0 <= i < |ents| :: Latest(es, s + 1 + i) == Some(ents[i])
  }

  /** Everything the records say has been gathered. */
  ghost predicate Gathered(r: Reading, bs: seq<Body>, start: WalSnapshot) {
    && r.Reading? && r.state == StateIn(bs) && EntriesRead(r.ents, EntriesIn(bs), start.index)
    && (r.matched <==> SnapshotBody(start) in bs)
    && (r.metadata.None? ==> forall b | b in bs :: !b.MetadataBody?)
    && (r.metadata.Some? ==> MetadataBody(r.metadata.value) in bs && MetadataIs(bs, r.metadata.value))
  }

  lemma EntryRead(ents: seq<Entry>, es: seq<Entry>, e: Entry, s: nat)
    requires EntriesRead(ents, es, s) && e.index <= LastAbove(es, s) + 1
    ensures e.index <= s ==> EntriesRead(ents, es + [e], s)
    ensures e.index > s ==> e.index - s - 1 <= |ents| && EntriesRead(ents[..e.index - s - 1] + [e], es + [e], s)
  {
    assert (es + [e])[..|es|] == es;
  }

  lemma GatheredNext(sum: Checksum, r: Reading, recs: seq<Record>, start: WalSnapshot, n: nat)
    requires n < |recs| && Gathered(r, Bodies(recs[..n]), start) && r.crc == Before(recs, n)
    requires Fault(sum, recs, start, n).None?
    ensures var t := ReadOne(sum, r, recs[n], start);
            Gathered(t, Bodies(recs[..n]) + [recs[n].body], start) && t.crc == recs[n].crc
  {
    hide EntriesIn, StateIn, Latest, LastAbove;
    var bs, b := Bodies(recs[..n]), recs[n].body;
    BodiesNext(bs, b);
    if b.EntryBody? {
      EntryRead(r.ents, EntriesIn(bs), b.entry, start.index);
      LastAboveIs(EntriesIn(bs), start.index);
    } else {
      assert EntriesIn(bs + [b]) == EntriesIn(bs);
    }
  }

  lemma FaultStops(sum: Checksum, r: Reading, recs: seq<Record>, start: WalSnapshot, n: nat)
    requires n < |recs| && Gathered(r, Bodies(recs[..n]), start) && r.crc == Before(recs, n)
    requires Fault(sum, recs, start, n).Some?
    ensures ReadOne(sum, r, recs[n], start) == Failed(Fault(sum, recs, start, n).value)
  {
    hide EntriesIn, StateIn, Latest, LastAbove;
    LastAboveIs(EntriesIn(Bodies(recs[..n])), start.index);
  }

  lemma {:induction false} ReadSoFar(sum: Checksum, recs: seq<Record>, start: WalSnapshot, n: nat)
    requires n <= |recs| && FaultFree(sum, recs, start, n)
    ensures var r := ReadRecords(sum, recs[..n], start);
            Gathered(r, Bodies(recs[..n]), start) && r.crc == Before(recs, n)
  {
    if n == 0 {
      assert recs[..0] == [] && Bodies(recs[..0]) == [];
    } else {
      hide ReadOne, Gathered, Fault;
      ReadSoFar(sum, recs, start, n - 1);
      GatheredIsReading(ReadRecords(sum, recs[..n-1], start), Bodies(recs[..n-1]), start);
      GatheredNext(sum, ReadRecords(sum, recs[..n-1], start), recs, start, n - 1);
      assert recs[..n][..n-1] == recs[..n-1];
      assert Bodies(recs[..n]) == Bodies(recs[..n-1]) + [recs[n-1].body];
    }
  }

  lemma GatheredIsReading(r: Reading, bs: seq<Body>, start: WalSnapshot)
    requires Gathered(r, bs, start)
    ensures r.Reading?
  {
  }

  lemma {:induction false} FailureStays(sum: Checksum, recs: seq<Record>, start: WalSnapshot, n: nat)
    requires n <= |recs| && ReadRecords(sum, recs[..n], start).Failed?
    ensures ReadRecords(sum, recs, start) == ReadRecords(sum, recs[..n], start)
  {
    if n == |recs| {
      assert recs[..n] == recs;
    } else {
      assert recs[..|recs|-1][..n] == recs[..n];
      FailureStays(sum, recs[..|recs|-1], start, n);
    }
  }

  /** Reading stops at the first faulty record with that record's error. */
  lemma FirstFaultReported(sum: Checksum, recs: seq<Record>, start: WalSnapshot, n: nat)
    requires n < |recs| && FaultFree(sum, recs, start, n) && Fault(sum, recs, start, n).Some?
    ensures ReadRecords(sum, recs, start) == Failed(Fault(sum, recs, start, n).value)
  {
    hide ReadOne, Fault;
    ReadSoFar(sum, recs, start, n);
    FaultStops(sum, ReadRecords(sum, recs[..n], start), recs, start, n);
    assert recs[..n+1][..n] == recs[..n];
    FailureStays(sum, recs, start, n + 1);
  }

  lemma {:induction false} SomeFaultIsFirst(sum: Checksum, recs: seq<Record>, start: WalSnapshot, n: nat) returns (i: nat)
    requires n <= |recs| && !FaultFree(sum, recs, start, n)
    ensures i < n && FaultFree(sum, recs, start, i) && Fault(sum, recs, start, i).Some?
  {
    hide Fault;
    i := n - 1;
    if !FaultFree(sum, recs, start, n - 1) { i := SomeFaultIsFirst(sum, recs, start, n - 1); }
  }

  /** Reading succeeds exactly if no record is faulty, and then gives what the records say. */
  lemma ReadExactly(sum: Checksum, recs: seq<Record>, start: WalSnapshot)
    ensures ReadRecords(sum, recs, start).Reading? <==> FaultFree(sum, recs, start, |recs|)
    ensures ReadRecords(sum, recs, start).Reading? ==> Gathered(ReadRecords(sum, recs, start), Bodies(recs), start)
  {
    hide ReadRecords, Fault, Gathered;
    assert recs[..|recs|] == recs;
    if FaultFree(sum, recs, start, |recs|) {
      ReadSoFar(sum, recs, start, |recs|);
      GatheredIsReading(ReadRecords(sum, recs, start), Bodies(recs), start);
    } else {
      var i := SomeFaultIsFirst(sum, recs, start, |recs|);
      FirstFaultReported(sum, recs, start, i);
    }
  }

  lemma FaultLocal(sum: Checksum, recs: seq<Record>, other: seq<Record>, start: WalSnapshot, i: nat)
    requires i < |recs| && i < |other| && recs[..i+1] == other[..i+1]
    ensures Fault(sum, recs, start, i) == Fault(sum, other, start, i)
  {
    assert recs[..i] == recs[..i+1][..i] == other[..i];
    assert recs[i] == recs[..i+1][i] == other[i];
    if i > 0 { assert recs[i-1] == recs[..i+1][i-1] == other[i-1]; }
  }

  /** A readable log in which one record is damaged, so that its data and checksum no longer fit, is refused, whatever
      follows the record. */
  lemma DamageRefused(sum: Checksum, recs: seq<Record>, start: WalSnapshot, n: nat, rec: Record, rest: seq<Record>)
    requires n < |recs| && ReadRecords(sum, recs, start).Reading?
    requires !rec.body.CrcBody? && rec.crc != sum(Before(recs, n), rec.body)
    ensures ReadRecords(sum, recs[..n] + [rec] + rest, start) == Failed(CrcMismatch)
  {
    ReadExactly(sum, recs, start);
    var other := recs[..n] + [rec] + rest;
    assert Fault(sum, other, start, n) == Some(CrcMismatch);
    hide ReadRecords, Fault;
    forall i | 0 <= i < n ensures Fault(sum, other, start, i).None? {
      assert recs[..i+1] == other[..i+1];
      FaultLocal(sum, recs, other, start, i);
    }
    FirstFaultReported(sum, other, start, n);
  }

  // ----- Opening -----

  /** The segments from i on are those to read: i is the last that may hold the start, and their numbers follow on. */
  ghost predicate ReadsFrom(segs: seq<Segment>, index: nat, i: nat) {
    && i < |segs| && segs[i].index <= index && (forall j | i < j < |segs| :: segs[j].index > index)
    && forall j | i < j < |segs| :: segs[j-1].number == 0 || segs[j].number == segs[j-1].number + 1
  }

  /** Opening any segments at all: the files are found exactly if there is a last segment named at or below the index,
      and those from it on are numbered without a hole; then the records in them decide. */
  lemma OpenDecides(sum: Checksum, segs: seq<Segment>, start: WalSnapshot)
    ensures OpenAndRead(sum, segs, start).FileNotFound? <==> forall i | 0 <= i < |segs| :: !ReadsFrom(segs, start.index, i)
    ensures forall i | 0 <= i < |segs| && ReadsFrom(segs, start.index, i) ::
              var recs, r := AllRecords(segs[i..]), OpenAndRead(sum, segs, start);
              && (r.ReadFailed? <==> !FaultFree(sum, recs, start, |recs|))
              && (r.Opened? ==> SnapshotBody(start) in Bodies(recs))
              && (r.SnapshotNotFound? ==> SnapshotBody(start) !in Bodies(recs))
              && (!r.ReadFailed? ==> Gathered(Reading(r.metadata, r.state, r.ents, r.Opened?, 0), Bodies(recs), start))
  {
    hide ReadRecords, Fault, AllRecords, SearchIndex;
    var found := SearchIndex(segs, start.index);
    if found.Some? {
      var i := found.value;
      assert segs[i..][0] == segs[i];
      assert IsValidSeq(segs[i..]) <==> ReadsFrom(segs, start.index, i) by { ValidSeqIs(segs, i); }
      ReadExactly(sum, AllRecords(segs[i..]), start);
    }
  }

  lemma ValidSeqIs(segs: seq<Segment>, i: nat)
    requires i <= |segs|
    ensures IsValidSeq(segs[i..]) <==>
            forall j | i < j < |segs| :: segs[j-1].number == 0 || segs[j].number == segs[j-1].number + 1
  {
    var t := segs[i..];
    if IsValidSeq(t) {
      forall j | i < j < |segs| ensures segs[j-1].number == 0 || segs[j].number == segs[j-1].number + 1 {
        assert t[j-i] == segs[j] && t[j-i-1] == segs[j-1];
      }
    } else {
      var k :| 0 < k < |t| && t[k-1].number != 0 && t[k-1].number + 1 != t[k].number;
      assert t[k] == segs[i+k] && t[k-1] == segs[i+k-1];
    }
  }
}
