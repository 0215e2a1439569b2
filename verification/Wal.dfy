/**
 * The write-ahead log: records in numbered segments, each record carrying a
 * running checksum. A session writes it; opening at a saved snapshot and reading
 * everything gives back the log above the snapshot.
 *
 * The checksum is any function; marshalling and the framing of records are taken
 * as exact inverses.
 */
module Wal {
  import opened Options
  import opened RaftTypes

  datatype WalSnapshot = WalSnapshot(index: nat, term: nat)

  datatype Body =
    | MetadataBody(metadata: string)
    | EntryBody(entry: Entry)
    | StateBody(state: HardState)
    | CrcBody
    | SnapshotBody(snapshot: WalSnapshot)

  datatype Record = Record(body: Body, crc: nat)

  type Checksum = (nat, Body) -> nat

  /** A checksum record carries no data and so does not move the checksum. */
  function NextCrc(sum: Checksum, crc: nat, body: Body): nat { if body.CrcBody? then crc else sum(crc, body) }

  /** number and index are the two parts of the segment's file name. */
  datatype Segment = Segment(number: nat, index: nat, records: seq<Record>)

  // ----- Writing -----

  datatype Writer = Writer(metadata: string, state: HardState, segments: seq<Segment>, enti: nat, crc: nat)

  function Encode(sum: Checksum, w: Writer, body: Body): Writer
    requires w.segments != []
  {
    var crc := NextCrc(sum, w.crc, body);
    var last := w.segments[|w.segments|-1];
    w.(segments := w.segments[|w.segments|-1 := last.(records := last.records + [Record(body, crc)])], crc := crc)
  }

  function SaveSnapshot(sum: Checksum, w: Writer, snap: WalSnapshot): (r: Writer)
    requires w.segments != []
    ensures r.segments != []
  {
    Encode(sum, w, SnapshotBody(snap)).(enti := Max(w.enti, snap.index))
  }

  function Create(sum: Checksum, metadata: string): (w: Writer)
    ensures w.segments != []
  {
    var w0 := Writer(metadata, EMPTY_STATE, [Segment(0, 0, [])], 0, 0);
    var w1 := Encode(sum, w0, CrcBody);
    SaveSnapshot(sum, Encode(sum, w1, MetadataBody(metadata)), WalSnapshot(0, 0))
  }

  function SaveEntry(sum: Checksum, w: Writer, e: Entry): (r: Writer)
    requires w.segments != []
    ensures r.segments != []
  {
    Encode(sum, w, EntryBody(e)).(enti := e.index)
  }

  function SaveEntries(sum: Checksum, w: Writer, es: seq<Entry>): (r: Writer)
    requires w.segments != []
    ensures r.segments != []
  {
    if es == [] then w else SaveEntry(sum, SaveEntries(sum, w, es[..|es|-1]), es[|es|-1])
  }

  function SaveState(sum: Checksum, w: Writer, st: HardState): (r: Writer)
    requires w.segments != []
    ensures r.segments != []
  {
    if st == EMPTY_STATE then w else Encode(sum, w.(state := st), StateBody(st))
  }

  /** A new segment starts with the checksum so far, the metadata and the latest state. */
  function Cut(sum: Checksum, w: Writer): (r: Writer)
    requires w.segments != []
    ensures r.segments != []
  {
    var w1 := w.(segments := w.segments + [Segment(w.segments[|w.segments|-1].number + 1, w.enti + 1, [])]);
    SaveState(sum, Encode(sum, Encode(sum, w1, CrcBody), MetadataBody(w.metadata)), w.state)
  }

  /** full says that the segment has reached its size. */
  function Save(sum: Checksum, w: Writer, st: HardState, es: seq<Entry>, full: bool): (r: Writer)
    requires w.segments != []
    ensures r.segments != []
  {
    if st == EMPTY_STATE && es == [] then w
    else
      var saved := SaveState(sum, SaveEntries(sum, w, es), st);
      if full then Cut(sum, saved) else saved
  }

  datatype Op = SaveOp(st: HardState, es: seq<Entry>, full: bool) | SnapshotOp(snap: WalSnapshot)

  function Run(sum: Checksum, metadata: string, ops: seq<Op>): (w: Writer)
    ensures w.segments != []
  {
    if ops == [] then Create(sum, metadata)
    else
      var w := Run(sum, metadata, ops[..|ops|-1]);
      match ops[|ops|-1]
      case SaveOp(st, es, full) => Save(sum, w, st, es, full)
      case SnapshotOp(snap) => SaveSnapshot(sum, w, snap)
  }

  // ----- Opening and reading -----

  /** The last segment whose name index is at most the given one. */
  function SearchIndex(segs: seq<Segment>, index: nat): (i: Option<nat>)
    ensures i.Some? ==> i.value < |segs| && segs[i.value].index <= index
    ensures i.Some? ==> forall j | i.value < j < |segs| :: segs[j].index > index
    ensures i.None? ==> forall j | 0 <= j < |segs| :: segs[j].index > index
  {
    if segs == [] then None
    else if segs[|segs|-1].index <= index then Some(|segs| - 1)
    else SearchIndex(segs[..|segs|-1], index)
  }

  /** Segment numbers increase by one; number 0 is not compared with what follows. */
  predicate IsValidSeq(segs: seq<Segment>) {
    forall i | 0 < i < |segs| :: segs[i-1].number == 0 || segs[i-1].number + 1 == segs[i].number
  }

  function AllRecords(segs: seq<Segment>): seq<Record> {
    if segs == [] then [] else segs[0].records + AllRecords(segs[1..])
  }

  datatype ReadError = CrcMismatch | MetadataConflict | SnapshotMismatch | OutOfRange

  /** What the reader has gathered so far. */
  datatype Reading =
    | Reading(metadata: Option<string>, state: HardState, ents: seq<Entry>, matched: bool, crc: nat)
    | Failed(error: ReadError)

  const NOTHING_READ := Reading(None, EMPTY_STATE, [], false, 0)

  function ReadOne(sum: Checksum, r: Reading, rec: Record, start: WalSnapshot): Reading
    requires r.Reading?
  {
    var crc := NextCrc(sum, r.crc, rec.body);
    if !rec.body.CrcBody? && rec.crc != crc then Failed(CrcMismatch)
    else match rec.body
      case EntryBody(e) =>
        if e.index <= start.index then r.(crc := crc)
        else if e.index - start.index - 1 > |r.ents| then Failed(OutOfRange)
        else r.(crc := crc, ents := r.ents[..e.index - start.index - 1] + [e])
      case StateBody(st) => r.(crc := crc, state := st)
      case MetadataBody(m) =>
        if r.metadata.Some? && r.metadata.value != m then Failed(MetadataConflict) else r.(crc := crc, metadata := Some(m))
      case CrcBody => if r.crc != 0 && rec.crc != r.crc then Failed(CrcMismatch) else r.(crc := rec.crc)
      case SnapshotBody(snap) =>
        if snap.index != start.index then r.(crc := crc)
        else if snap.term != start.term then Failed(SnapshotMismatch)
        else r.(crc := crc, matched := true)
  }

  function ReadRecords(sum: Checksum, recs: seq<Record>, start: WalSnapshot): Reading {
    if recs == [] then NOTHING_READ
    else match ReadRecords(sum, recs[..|recs|-1], start)
      case Failed(e) => Failed(e)
      case r => ReadOne(sum, r, recs[|recs|-1], start)
  }

  datatype OpenResult =
    | FileNotFound
    | ReadFailed(error: ReadError)
    | SnapshotNotFound(metadata: Option<string>, state: HardState, ents: seq<Entry>)
    | Opened(metadata: Option<string>, state: HardState, ents: seq<Entry>)

  function OpenAndRead(sum: Checksum, segs: seq<Segment>, start: WalSnapshot): OpenResult {
    match SearchIndex(segs, start.index)
    case None => FileNotFound
    case Some(i) =>
      if !IsValidSeq(segs[i..]) then FileNotFound
      else match ReadRecords(sum, AllRecords(segs[i..]), start)
        case Failed(e) => ReadFailed(e)
        case Reading(m, st, ents, matched, _) =>
          if matched then Opened(m, st, ents) else SnapshotNotFound(m, st, ents)
  }
}
