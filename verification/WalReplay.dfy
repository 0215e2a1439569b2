/** Reading a write-ahead log gives back what the session saved. */
module WalReplay {
  import opened Options
  import opened RaftTypes
  import opened Wal

  // ----- What a session saved -----

  /** The entries and snapshots of a session, in the order they were saved. */
  function Items(ops: seq<Op>): seq<Body> {
    if ops == [] then [SnapshotBody(WalSnapshot(0, 0))]
    else
      Items(ops[..|ops|-1]) + OpItems(ops[|ops|-1])
  }

  function OpItems(op: Op): seq<Body> {
    match op
    case SaveOp(_, es, _) => EntryBodies(es)
    case SnapshotOp(snap) => [SnapshotBody(snap)]
  }

  function EntryBodies(es: seq<Entry>): seq<Body> { seq(|es|, i requires 0 <= i < |es| => EntryBody(es[i])) }

  /** How much had been saved when each segment was begun: a save that fills a segment ends it. */
  function Cuts(ops: seq<Op>): seq<nat> {
    if ops == [] then [0]
    else Cuts(ops[..|ops|-1]) + if EndsSegment(ops[|ops|-1]) then [|Items(ops)|] else []
  }

  predicate EndsSegment(op: Op) { op.SaveOp? && op.full && !(op.st == EMPTY_STATE && op.es == []) }

  /** The last state saved that is not empty. */
  function LastState(ops: seq<Op>): HardState {
    if ops == [] then EMPTY_STATE
    else match ops[|ops|-1]
      case SaveOp(st, _, _) => if st != EMPTY_STATE then st else LastState(ops[..|ops|-1])
      case SnapshotOp(_) => LastState(ops[..|ops|-1])
  }

  function EntriesIn(bs: seq<Body>): seq<Entry> {
    if bs == [] then []
    else EntriesIn(bs[..|bs|-1]) + if bs[|bs|-1].EntryBody? then [bs[|bs|-1].entry] else []
  }

  function LastIndex(es: seq<Entry>): nat { if es == [] then 0 else es[|es|-1].index }

  /** Entries follow on or rewrite: each index is at most one above that of the entry before. */
  ghost predicate FollowOn(es: seq<Entry>) { forall i | 0 <= i < |es| :: FollowsAt(es, i) }

  predicate FollowsAt(es: seq<Entry>, i: nat)
    requires i < |es|
  {
    1 <= es[i].index <= 1 + if i == 0 then 0 else es[i-1].index
  }

  // ----- Rewritten entries: the last one counts -----

  /** The last entry saved with the given index. */
  function Latest(es: seq<Entry>, index: nat): Option<Entry> {
    if es == [] then None
    else if es[|es|-1].index == index then Some(es[|es|-1])
    else Latest(es[..|es|-1], index)
  }

  /** The log a session leaves above index s: up to the last entry saved, each index as it was
      saved last. */
  ghost predicate IsLogAbove(es: seq<Entry>, s: nat, log: seq<Entry>) {
    && |log| == (if LastIndex(es) > s then LastIndex(es) - s else 0)
    && forall i | 0 <= i < |log| :: Latest(es, s + 1 + i) == Some(log[i])
  }

  /** What reading does with the entries; None if one would be out of range. */
  function Replay(es: seq<Entry>, s: nat): Option<seq<Entry>> {
    if es == [] then Some([])
    else match Replay(es[..|es|-1], s)
      case None => None
      case Some(log) =>
        var e := es[|es|-1];
        if e.index <= s then Some(log)
        else if e.index - s - 1 > |log| then None
        else Some(log[..e.index - s - 1] + [e])
  }

  /** The index of the last entry above s. */
  function LastAbove(es: seq<Entry>, s: nat): nat {
    if es == [] then s
    else if es[|es|-1].index > s then es[|es|-1].index
    else LastAbove(es[..|es|-1], s)
  }

  predicate NoneAbove(es: seq<Entry>, s: nat) { forall e | e in es :: e.index <= s }

  /** The log as read from the entries es, which follow entries p that end at or below s. */
  ghost predicate ReplayOk(es: seq<Entry>, s: nat) {
    var r := Replay(es, s);
    && r.Some? && s + |r.value| == LastAbove(es, s)
    && forall i | 0 <= i < |r.value| :: Latest(es, s + 1 + i) == Some(r.value[i])
  }

  lemma FollowOnPrefix(a: seq<Entry>, e: Entry)
    requires FollowOn(a + [e])
    ensures FollowOn(a)
  {
    forall i | 0 <= i < |a| ensures FollowsAt(a, i) { assert FollowsAt(a + [e], i); }
  }

  lemma {:induction false} ReplayIs(p: seq<Entry>, es: seq<Entry>, s: nat)
    requires FollowOn(p + es) && LastIndex(p) <= s
    ensures ReplayOk(es, s)
  {
    if es != [] {
      var q, e := es[..|es|-1], es[|es|-1];
      assert p + es == (p + q) + [e];
      FollowOnPrefix(p + q, e);
      ReplayIs(p, q, s);
      ReplayNext(p, q, e, s);
      assert es == q + [e];
    }
  }

  lemma FollowsHere(es: seq<Entry>, i: nat)
    requires FollowOn(es) && i < |es|
    ensures FollowsAt(es, i)
  {
  }

  lemma ReplayNext(p: seq<Entry>, q: seq<Entry>, e: Entry, s: nat)
    requires FollowOn((p + q) + [e]) && LastIndex(p) <= s && ReplayOk(q, s)
    ensures ReplayOk(q + [e], s)
  {
    hide FollowOn;
    assert (q + [e])[..|q|] == q;
    var all := (p + q) + [e];
    var n := |p + q|;
    assert all[n] == e && FollowsAt(all, n) by { FollowsHere(all, n); }
    if n > 0 { assert all[n-1] == (p + q)[n-1]; }
    if q != [] {
      assert (p + q)[n-1] == q[|q|-1];
    } else if p != [] {
      assert (p + q)[n-1] == p[|p|-1];
    }
  }

  lemma {:induction false} LatestSuffix(p: seq<Entry>, es: seq<Entry>, index: nat)
    requires Latest(es, index).Some?
    ensures Latest(p + es, index) == Latest(es, index)
  {
    var q := es[..|es|-1];
    assert (p + es)[..|p + es|-1] == p + q;
    if es[|es|-1].index != index { LatestSuffix(p, q, index); }
  }

  lemma {:induction false} LastAboveIs(es: seq<Entry>, s: nat)
    ensures LastIndex(es) > s ==> LastAbove(es, s) == LastIndex(es)
    ensures LastAbove(es, s) == s <==> NoneAbove(es, s)
    ensures LastAbove(es, s) >= s
  {
    if es != [] {
      var p := es[..|es|-1];
      LastAboveIs(p, s);
      assert es == p + [es[|es|-1]];
      assert NoneAbove(es, s) <==> NoneAbove(p, s) && es[|es|-1].index <= s;
    }
  }

  /** The part of a session that is read yields the session's log above s exactly if the session
      ended above s or nothing above s is in that part. */
  lemma ReplayIsLog(p: seq<Entry>, es: seq<Entry>, s: nat)
    requires FollowOn(p + es) && LastIndex(p) <= s
    ensures Replay(es, s).Some?
    ensures IsLogAbove(p + es, s, Replay(es, s).value) <==>
            LastIndex(p + es) > s || NoneAbove(es, s)
  {
    hide Replay, Latest, LastAbove;
    ReplayIs(p, es, s);
    LastAboveIs(es, s);
    var log := Replay(es, s).value;
    if es == [] { assert p + es == p; } else { assert (p + es)[|p + es|-1] == es[|es|-1]; }
    forall i | 0 <= i < |log| ensures Latest(p + es, s + 1 + i) == Some(log[i]) {
      assert Latest(es, s + 1 + i) == Some(log[i]);
      LatestSuffix(p, es, s + 1 + i);
    }
  }

  // ----- Reading the records of a valid chain -----

  function Bodies(recs: seq<Record>): seq<Body> { seq(|recs|, i requires 0 <= i < |recs| => recs[i].body) }

  function LastCrc(recs: seq<Record>, a: nat): nat { if recs == [] then a else recs[|recs|-1].crc }

  /** The records carry the running checksum that starts at a. */
  ghost predicate Chain(sum: Checksum, recs: seq<Record>, a: nat) {
    recs != [] ==>
      var p, rec := recs[..|recs|-1], recs[|recs|-1];
      Chain(sum, p, a) && rec.crc == NextCrc(sum, LastCrc(p, a), rec.body)
  }

  function StateIn(bs: seq<Body>): HardState {
    if bs == [] then EMPTY_STATE
    else if bs[|bs|-1].StateBody? then bs[|bs|-1].state
    else StateIn(bs[..|bs|-1])
  }

  /** All metadata records agree, and snapshot records with the index of start have its term. */
  ghost predicate Agreeing(bs: seq<Body>, metadata: string, start: WalSnapshot) {
    forall b | b in bs ::
      && (b.MetadataBody? ==> b.metadata == metadata)
      && (b.SnapshotBody? && b.snapshot.index == start.index ==> b.snapshot == start)
  }

  ghost predicate ReadOk(r: Reading, bs: seq<Body>, metadata: string, start: WalSnapshot, crc: nat) {
    && r.Reading? && r.state == StateIn(bs) && r.crc == crc
    && Replay(EntriesIn(bs), start.index) == Some(r.ents)
    && (r.metadata == if MetadataBody(metadata) in bs then Some(metadata) else None)
    && (r.matched <==> SnapshotBody(start) in bs)
  }

  lemma BodiesNext(bs: seq<Body>, b: Body)
    ensures EntriesIn(bs + [b]) == EntriesIn(bs) + if b.EntryBody? then [b.entry] else []
    ensures StateIn(bs + [b]) == if b.StateBody? then b.state else StateIn(bs)
    ensures forall x :: x in bs + [b] <==> x in bs || x == b
  {
    assert (bs + [b])[..|bs|] == bs;
  }

  lemma ReplaySnoc(es: seq<Entry>, e: Entry, s: nat)
    requires Replay(es, s).Some?
    ensures Replay(es + [e], s) ==
            var log := Replay(es, s).value;
            if e.index <= s then Some(log) else if e.index - s - 1 > |log| then None else Some(log[..e.index - s - 1] + [e])
  {
    assert (es + [e])[..|es|] == es;
  }

  lemma ReadNext(sum: Checksum, r: Reading, bs: seq<Body>, rec: Record, metadata: string, start: WalSnapshot, crc: nat)
    requires ReadOk(r, bs, metadata, start, crc) && Agreeing(bs + [rec.body], metadata, start)
    requires rec.crc == NextCrc(sum, crc, rec.body) && Replay(EntriesIn(bs + [rec.body]), start.index).Some?
    ensures ReadOk(ReadOne(sum, r, rec, start), bs + [rec.body], metadata, start, rec.crc)
  {
    hide EntriesIn, StateIn, Replay;
    var b := rec.body;
    BodiesNext(bs, b);
    assert b in bs + [b];
    if b.EntryBody? {
      ReplaySnoc(EntriesIn(bs), b.entry, start.index);
    } else {
      assert EntriesIn(bs + [b]) == EntriesIn(bs);
    }
  }

  lemma FirstRead(sum: Checksum, rec: Record, metadata: string, start: WalSnapshot)
    requires rec.body.CrcBody?
    ensures ReadOk(ReadRecords(sum, [rec], start), [CrcBody], metadata, start, rec.crc)
  {
    assert [rec][..0] == [];
    assert EntriesIn([CrcBody]) == [] && StateIn([CrcBody]) == EMPTY_STATE;
  }

  lemma ReplayPrefix(bs: seq<Body>, b: Body, s: nat)
    requires Replay(EntriesIn(bs + [b]), s).Some?
    ensures Replay(EntriesIn(bs), s).Some?
  {
    assert (bs + [b])[..|bs|] == bs;
    if b.EntryBody? {
      assert (EntriesIn(bs) + [b.entry])[..|EntriesIn(bs)|] == EntriesIn(bs);
    } else {
      assert EntriesIn(bs + [b]) == EntriesIn(bs);
    }
  }

  /** Reading a valid chain reports the last state, the replayed entries and whether the snapshot was seen. */
  lemma {:induction false} ReadChain(sum: Checksum, recs: seq<Record>, metadata: string, start: WalSnapshot, a: nat)
    requires recs != [] && recs[0].body.CrcBody? && Chain(sum, recs, a)
    requires Agreeing(Bodies(recs), metadata, start) && Replay(EntriesIn(Bodies(recs)), start.index).Some?
    ensures ReadOk(ReadRecords(sum, recs, start), Bodies(recs), metadata, start, LastCrc(recs, a))
  {
    hide ReadOne;
    var p, rec := recs[..|recs|-1], recs[|recs|-1];
    assert Bodies(recs) == Bodies(p) + [rec.body];
    assert recs == p + [rec];
    if p == [] {
      assert recs == [rec] && Bodies(recs) == [CrcBody];
      FirstRead(sum, rec, metadata, start);
    } else {
      assert p[0] == recs[0];
      ReplayPrefix(Bodies(p), rec.body, start.index);
      assert Agreeing(Bodies(p), metadata, start) by { assert forall x | x in Bodies(p) :: x in Bodies(recs); }
      ReadChain(sum, p, metadata, start, a);
      ReadNext(sum, ReadRecords(sum, p, start), Bodies(p), rec, metadata, start, LastCrc(p, a));
    }
  }

  // ----- What the writer keeps -----

  /** Entries and snapshots among the bodies. */
  function ItemsIn(bs: seq<Body>): seq<Body> {
    if bs == [] then []
    else ItemsIn(bs[..|bs|-1]) + if bs[|bs|-1].EntryBody? || bs[|bs|-1].SnapshotBody? then [bs[|bs|-1]] else []
  }

  /** The index the next segment is named after, less one. */
  function EntiOf(items: seq<Body>): nat {
    if items == [] then 0 else EntiAfter(EntiOf(items[..|items|-1]), items[|items|-1])
  }

  function EntiAfter(enti: nat, body: Body): nat {
    match body
    case EntryBody(e) => e.index
    case SnapshotBody(snap) => Max(enti, snap.index)
    case _ => enti
  }

  ghost predicate MetadataIs(bs: seq<Body>, metadata: string) {
    MetadataBody(metadata) in bs && forall b | b in bs && b.MetadataBody? :: b.metadata == metadata
  }

  /** The records from some segment on: a valid chain that begins with a checksum, repeats metadata
      and state, and holds the items from position mark on. */
  ghost predicate SuffixOk(sum: Checksum, w: Writer, recs: seq<Record>, items: seq<Body>, mark: nat) {
    && recs != [] && recs[0].body.CrcBody? && (exists a: nat :: Chain(sum, recs, a)) && LastCrc(recs, 0) == w.crc
    && MetadataIs(Bodies(recs), w.metadata) && StateIn(Bodies(recs)) == w.state
    && mark <= |items| && ItemsIn(Bodies(recs)) == items[mark..]
  }

  ghost predicate SegmentOk(sum: Checksum, w: Writer, items: seq<Body>, marks: seq<nat>, i: nat)
    requires i < |w.segments| == |marks|
  {
    && w.segments[i].number == i && marks[i] <= |items|
    && SuffixOk(sum, w, AllRecords(w.segments[i..]), items, marks[i])
    && if i == 0 then marks[i] == 0 && w.segments[i].index == 0
       else w.segments[i].index == EntiOf(items[..marks[i]]) + 1
  }

  ghost predicate Written(sum: Checksum, w: Writer, items: seq<Body>, marks: seq<nat>) {
    && |w.segments| == |marks| > 0 && w.enti == EntiOf(items)
    && forall i: nat | i < |marks| :: SegmentOk(sum, w, items, marks, i)
  }

  function NewItems(body: Body): seq<Body> { if body.EntryBody? || body.SnapshotBody? then [body] else [] }

  lemma {:induction false} AllRecordsSnoc(segs: seq<Segment>, seg: Segment)
    ensures AllRecords(segs + [seg]) == AllRecords(segs) + seg.records
  {
    if segs != [] {
      assert (segs + [seg])[1..] == segs[1..] + [seg];
      AllRecordsSnoc(segs[1..], seg);
    } else {
      assert segs + [seg] == [seg] && [seg][1..] == [];
    }
  }

  lemma EncodeAppends(sum: Checksum, w: Writer, body: Body, i: nat)
    requires i < |w.segments|
    ensures AllRecords(Encode(sum, w, body).segments[i..]) ==
            AllRecords(w.segments[i..]) + [Record(body, NextCrc(sum, w.crc, body))]
  {
    var n := |w.segments| - 1;
    var t := Encode(sum, w, body);
    assert w.segments[i..] == w.segments[i..n] + [w.segments[n]];
    assert t.segments[i..] == w.segments[i..n] + [t.segments[n]];
    AllRecordsSnoc(w.segments[i..n], w.segments[n]);
    AllRecordsSnoc(w.segments[i..n], t.segments[n]);
  }

  /** One more record: a state record changes the writer's state, all others leave it. */
  lemma SuffixNext(sum: Checksum, w: Writer, recs: seq<Record>, items: seq<Body>, mark: nat, body: Body, t: Writer)
    requires SuffixOk(sum, w, recs, items, mark)
    requires t.metadata == w.metadata && t.crc == NextCrc(sum, w.crc, body)
    requires body.MetadataBody? ==> body.metadata == w.metadata
    requires t.state == if body.StateBody? then body.state else w.state
    ensures SuffixOk(sum, t, recs + [Record(body, t.crc)], items + NewItems(body), mark)
  {
    var rec := Record(body, t.crc);
    var all := recs + [rec];
    assert Bodies(all) == Bodies(recs) + [body];
    assert Bodies(all)[..|recs|] == Bodies(recs) && Bodies(all)[|recs|] == body;
    assert all[..|all|-1] == recs && all[|all|-1] == rec;
    var a: nat :| Chain(sum, recs, a);
    assert Chain(sum, all, a);
    assert (items + NewItems(body))[mark..] == items[mark..] + NewItems(body);
    assert MetadataBody(w.metadata) in Bodies(all) by { assert MetadataBody(w.metadata) in Bodies(recs); }
  }

  // ----- The writer's operations -----

  lemma EntiNext(items: seq<Body>, body: Body)
    ensures EntiOf(items + NewItems(body)) == EntiAfter(EntiOf(items), body)
  {
    if NewItems(body) == [] {
      assert items + NewItems(body) == items;
    } else {
      assert (items + [body])[..|items|] == items;
    }
  }

  /** Writing one record to the last segment. */
  lemma EncodeWritten(sum: Checksum, w: Writer, items: seq<Body>, marks: seq<nat>, body: Body, t: Writer)
    requires Written(sum, w, items, marks) && (body.MetadataBody? ==> body.metadata == w.metadata)
    requires t.segments == Encode(sum, w, body).segments && t.crc == NextCrc(sum, w.crc, body) && t.metadata == w.metadata
    requires t.state == if body.StateBody? then body.state else w.state
    requires t.enti == EntiOf(items + NewItems(body))
    ensures Written(sum, t, items + NewItems(body), marks)
  {
    hide SuffixOk, AllRecords, EntiOf;
    forall i: nat | i < |marks| ensures SegmentOk(sum, t, items + NewItems(body), marks, i) {
      assert SegmentOk(sum, w, items, marks, i);
      EncodeAppends(sum, w, body, i);
      SuffixNext(sum, w, AllRecords(w.segments[i..]), items, marks[i], body, t);
      assert (items + NewItems(body))[..marks[i]] == items[..marks[i]];
    }
  }

  lemma StateWritten(sum: Checksum, w: Writer, items: seq<Body>, marks: seq<nat>, st: HardState)
    requires Written(sum, w, items, marks)
    ensures Written(sum, SaveState(sum, w, st), items, marks)
    ensures SaveState(sum, w, st).state == if st != EMPTY_STATE then st else w.state
  {
    hide SegmentOk, EntiOf;
    if st != EMPTY_STATE {
      EntiNext(items, StateBody(st));
      assert items + NewItems(StateBody(st)) == items;
      EncodeWritten(sum, w, items, marks, StateBody(st), SaveState(sum, w, st));
    }
  }

  lemma SnapshotWritten(sum: Checksum, w: Writer, items: seq<Body>, marks: seq<nat>, snap: WalSnapshot)
    requires Written(sum, w, items, marks)
    ensures Written(sum, SaveSnapshot(sum, w, snap), items + [SnapshotBody(snap)], marks)
  {
    hide SegmentOk, EntiOf;
    EntiNext(items, SnapshotBody(snap));
    EncodeWritten(sum, w, items, marks, SnapshotBody(snap), SaveSnapshot(sum, w, snap));
  }

  lemma {:induction false} EntriesWritten(sum: Checksum, w: Writer, items: seq<Body>, marks: seq<nat>, es: seq<Entry>)
    requires Written(sum, w, items, marks)
    ensures Written(sum, SaveEntries(sum, w, es), items + EntryBodies(es), marks)
    ensures SaveEntries(sum, w, es).state == w.state
  {
    hide SegmentOk, EntiOf;
    if es == [] {
      assert items + EntryBodies(es) == items;
    } else {
      var p, e := es[..|es|-1], es[|es|-1];
      EntriesWritten(sum, w, items, marks, p);
      var v, its := SaveEntries(sum, w, p), items + EntryBodies(p);
      EntiNext(its, EntryBody(e));
      EncodeWritten(sum, v, its, marks, EntryBody(e), SaveEntries(sum, w, es));
      assert items + EntryBodies(es) == its + [EntryBody(e)];
    }
  }

  /** The records at the head of a new segment. */
  function Header(sum: Checksum, w: Writer): seq<Record> {
    var c := sum(w.crc, MetadataBody(w.metadata));
    [Record(CrcBody, w.crc), Record(MetadataBody(w.metadata), c)] +
    if w.state == EMPTY_STATE then [] else [Record(StateBody(w.state), sum(c, StateBody(w.state)))]
  }

  lemma EncodeLast(sum: Checksum, w: Writer, segs: seq<Segment>, seg: Segment, body: Body)
    requires w.segments == segs + [seg]
    ensures var crc := NextCrc(sum, w.crc, body);
            Encode(sum, w, body) == w.(segments := segs + [seg.(records := seg.records + [Record(body, crc)])], crc := crc)
  {
  }

  /** Writing a header into an empty last segment. */
  lemma HeaderIs(sum: Checksum, w: Writer, segs: seq<Segment>, seg: Segment)
    requires w.segments == segs + [seg] && seg.records == []
    ensures SaveState(sum, Encode(sum, Encode(sum, w, CrcBody), MetadataBody(w.metadata)), w.state) ==
            w.(segments := segs + [seg.(records := Header(sum, w))], crc := LastCrc(Header(sum, w), 0))
  {
    hide Encode;
    var c := sum(w.crc, MetadataBody(w.metadata));
    var r0, r1 := Record(CrcBody, w.crc), Record(MetadataBody(w.metadata), c);
    EncodeLast(sum, w, segs, seg, CrcBody);
    var w1, s1 := Encode(sum, w, CrcBody), seg.(records := [r0]);
    assert [] + [r0] == [r0];
    EncodeLast(sum, w1, segs, s1, MetadataBody(w.metadata));
    var w2, s2 := Encode(sum, w1, MetadataBody(w.metadata)), seg.(records := [r0, r1]);
    assert [r0] + [r1] == [r0, r1];
    if w.state != EMPTY_STATE {
      assert w2.(state := w.state) == w2;
      EncodeLast(sum, w2, segs, s2, StateBody(w.state));
    } else {
      assert [r0, r1] + [] == [r0, r1];
    }
  }

  lemma CutIs(sum: Checksum, w: Writer)
    requires w.segments != []
    ensures Cut(sum, w) == w.(segments := w.segments + [Segment(w.segments[|w.segments|-1].number + 1, w.enti + 1, Header(sum, w))],
                              crc := LastCrc(Header(sum, w), 0))
  {
    hide Encode, SaveState, Header;
    var seg := Segment(w.segments[|w.segments|-1].number + 1, w.enti + 1, []);
    var w1 := w.(segments := w.segments + [seg]);
    HeaderIs(sum, w1, w.segments, seg);
    SameHeader(sum, w, w1);
  }

  lemma SameHeader(sum: Checksum, w: Writer, t: Writer)
    requires t.metadata == w.metadata && t.state == w.state && t.crc == w.crc
    ensures Header(sum, t) == Header(sum, w)
  {
  }

  lemma ChainSnoc(sum: Checksum, recs: seq<Record>, rec: Record, a: nat)
    requires Chain(sum, recs, a) && rec.crc == NextCrc(sum, LastCrc(recs, a), rec.body)
    ensures Chain(sum, recs + [rec], a)
  {
    assert (recs + [rec])[..|recs|] == recs;
  }

  lemma HeaderOk(sum: Checksum, w: Writer, items: seq<Body>, t: Writer)
    requires t.metadata == w.metadata && t.state == w.state && t.crc == LastCrc(Header(sum, w), 0)
    ensures SuffixOk(sum, t, Header(sum, w), items, |items|)
  {
    hide SuffixOk;
    var hd, m := Header(sum, w), MetadataBody(w.metadata);
    var two := [hd[0], hd[1]];
    var v := w.(state := EMPTY_STATE, crc := hd[1].crc);
    TwoOk(sum, w, items, v);
    if w.state == EMPTY_STATE {
      assert hd == two;
      SameWriter(sum, v, t, hd, items, |items|);
    } else {
      assert items + [] == items;
      SuffixNext(sum, v, two, items, |items|, StateBody(w.state), t);
      assert hd == two + [hd[2]];
    }
  }

  lemma TwoOk(sum: Checksum, w: Writer, items: seq<Body>, v: Writer)
    requires v == w.(state := EMPTY_STATE, crc := Header(sum, w)[1].crc)
    ensures SuffixOk(sum, v, [Header(sum, w)[0], Header(sum, w)[1]], items, |items|)
  {
    var r0, r1, m := Header(sum, w)[0], Header(sum, w)[1], MetadataBody(w.metadata);
    assert Chain(sum, [], w.crc);
    ChainSnoc(sum, [], r0, w.crc);
    assert [] + [r0] == [r0] && [r0] + [r1] == [r0, r1];
    ChainSnoc(sum, [r0], r1, w.crc);
    var bs := Bodies([r0, r1]);
    assert bs == [CrcBody, m] && bs[1] == m;
    assert [CrcBody, m][..1] == [CrcBody] && [CrcBody][..0] == [];
    assert ItemsIn([CrcBody]) == [] && StateIn([CrcBody]) == EMPTY_STATE;
  }

  lemma CutWritten(sum: Checksum, w: Writer, items: seq<Body>, marks: seq<nat>)
    requires Written(sum, w, items, marks)
    ensures Written(sum, Cut(sum, w), items, marks + [|items|])
  {
    hide SuffixOk, AllRecords, EntiOf, Cut, Header;
    CutIs(sum, w);
    var t, hd, n := Cut(sum, w), Header(sum, w), |marks|;
    var seg := t.segments[n];
    assert SegmentOk(sum, w, items, marks, n - 1);
    forall i: nat | i <= n ensures SegmentOk(sum, t, items, marks + [|items|], i) {
      if i < n {
        assert SegmentOk(sum, w, items, marks, i);
        assert t.segments[i..] == w.segments[i..] + [seg];
        AllRecordsSnoc(w.segments[i..], seg);
        SuffixCut(sum, w, AllRecords(w.segments[i..]), items, marks[i], t);
      } else {
        assert t.segments[i..] == [] + [seg];
        AllRecordsSnoc([], seg);
        NoRecords();
        HeaderOk(sum, w, items, t);
        assert items[..|items|] == items;
      }
    }
  }

  lemma NoRecords()
    ensures forall r: seq<Record> :: AllRecords([]) + r == r
  {
  }

  lemma SuffixCut(sum: Checksum, w: Writer, recs: seq<Record>, items: seq<Body>, mark: nat, t: Writer)
    requires SuffixOk(sum, w, recs, items, mark) && t.metadata == w.metadata && t.state == w.state
    requires t.crc == LastCrc(Header(sum, w), 0)
    ensures SuffixOk(sum, t, recs + Header(sum, w), items, mark)
  {
    hide SuffixOk;
    var hd := Header(sum, w);
    var w1 := w.(crc := hd[1].crc);
    assert items + [] == items;
    SuffixNext(sum, w, recs, items, mark, CrcBody, w);
    SuffixNext(sum, w, recs + [hd[0]], items, mark, MetadataBody(w.metadata), w1);
    if w.state == EMPTY_STATE {
      assert recs + hd == (recs + [hd[0]]) + [hd[1]];
      SameWriter(sum, w1, t, recs + hd, items, mark);
    } else {
      SuffixNext(sum, w1, (recs + [hd[0]]) + [hd[1]], items, mark, StateBody(w.state), t);
      assert recs + hd == ((recs + [hd[0]]) + [hd[1]]) + [hd[2]];
    }
  }

  lemma SameWriter(sum: Checksum, w: Writer, t: Writer, recs: seq<Record>, items: seq<Body>, mark: nat)
    requires SuffixOk(sum, w, recs, items, mark) && t.metadata == w.metadata && t.state == w.state && t.crc == w.crc
    ensures SuffixOk(sum, t, recs, items, mark)
  {
  }

  lemma CreateWritten(sum: Checksum, metadata: string)
    ensures Written(sum, Create(sum, metadata), [SnapshotBody(WalSnapshot(0, 0))], [0])
    ensures Create(sum, metadata).state == EMPTY_STATE
  {
    hide EntiOf, SuffixOk, Encode, Header, SaveSnapshot;
    var w0 := Writer(metadata, EMPTY_STATE, [Segment(0, 0, [])], 0, 0);
    var seg := Segment(0, 0, Header(sum, w0));
    assert w0.segments == [] + [Segment(0, 0, [])];
    HeaderIs(sum, w0, [], Segment(0, 0, []));
    var w1 := w0.(segments := [] + [seg], crc := LastCrc(Header(sum, w0), 0));
    HeaderOk(sum, w0, [], w1);
    NoItems();
    assert w1.segments[0..] == [] + [seg];
    AllRecordsSnoc([], seg);
    NoRecords();
    assert SegmentOk(sum, w1, [], [0], 0);
    SnapshotWritten(sum, w1, [], [0], WalSnapshot(0, 0));
    assert [] + [SnapshotBody(WalSnapshot(0, 0))] == [SnapshotBody(WalSnapshot(0, 0))];
    SnapshotKeepsState(sum, w1, WalSnapshot(0, 0));
  }

  lemma SnapshotKeepsState(sum: Checksum, w: Writer, snap: WalSnapshot)
    requires w.segments != []
    ensures SaveSnapshot(sum, w, snap).state == w.state
  {
  }

  lemma NoItems()
    ensures EntiOf([]) == 0
  {
  }

  /** Whatever a session does, its segments hold what it saved, each from where it was begun. */
  lemma {:induction false} SessionWritten(sum: Checksum, metadata: string, ops: seq<Op>)
    ensures Written(sum, Run(sum, metadata, ops), Items(ops), Cuts(ops))
    ensures Run(sum, metadata, ops).state == LastState(ops) && Run(sum, metadata, ops).metadata == metadata
  {
    hide Written, Create;
    if ops == [] {
      CreateWritten(sum, metadata);
      CreateMetadata(sum, metadata);
    } else {
      var p := ops[..|ops|-1];
      SessionWritten(sum, metadata, p);
      var w, items, cuts := Run(sum, metadata, p), Items(p), Cuts(p);
      assert cuts + [] == cuts;
      match ops[|ops|-1]
      case SnapshotOp(snap) =>
        SnapshotWritten(sum, w, items, cuts, snap);
      case SaveOp(st, es, full) =>
        if st == EMPTY_STATE && es == [] {
          assert items + EntryBodies(es) == items;
        } else {
          SaveWritten(sum, w, items, cuts, st, es, full);
        }
    }
  }

  lemma CreateMetadata(sum: Checksum, metadata: string)
    ensures Create(sum, metadata).metadata == metadata
  {
  }

  lemma SaveWritten(sum: Checksum, w: Writer, items: seq<Body>, marks: seq<nat>, st: HardState, es: seq<Entry>, full: bool)
    requires Written(sum, w, items, marks) && !(st == EMPTY_STATE && es == [])
    ensures Written(sum, Save(sum, w, st, es, full), items + EntryBodies(es),
                    if full then marks + [|items + EntryBodies(es)|] else marks)
    ensures Save(sum, w, st, es, full).state == if st != EMPTY_STATE then st else w.state
    ensures Save(sum, w, st, es, full).metadata == w.metadata
  {
    hide Written;
    HasSegments(sum, w, items, marks);
    EntriesWritten(sum, w, items, marks, es);
    EntriesMetadata(sum, w, es);
    var v := SaveEntries(sum, w, es);
    StateWritten(sum, v, items + EntryBodies(es), marks, st);
    var u := SaveState(sum, v, st);
    if full {
      CutWritten(sum, u, items + EntryBodies(es), marks);
      CutIs(sum, u);
    }
  }

  lemma HasSegments(sum: Checksum, w: Writer, items: seq<Body>, marks: seq<nat>)
    requires Written(sum, w, items, marks)
    ensures w.segments != []
  {
  }

  lemma {:induction false} EntriesMetadata(sum: Checksum, w: Writer, es: seq<Entry>)
    requires w.segments != []
    ensures SaveEntries(sum, w, es).metadata == w.metadata
  {
    if es != [] { EntriesMetadata(sum, w, es[..|es|-1]); }
  }

  // ----- Opening -----

  lemma {:induction false} ItemsInAre(bs: seq<Body>)
    ensures EntriesIn(bs) == EntriesIn(ItemsIn(bs))
    ensures forall b: Body | b.SnapshotBody? :: b in bs <==> b in ItemsIn(bs)
  {
    if bs != [] {
      var p, b := bs[..|bs|-1], bs[|bs|-1];
      assert bs == p + [b];
      ItemsInAre(p);
      BodiesNext(p, b);
      BodiesNext(ItemsIn(p), b);
      if !(b.EntryBody? || b.SnapshotBody?) { assert ItemsIn(bs) == ItemsIn(p); }
    }
  }

  lemma {:induction false} EntriesSplit(a: seq<Body>, b: seq<Body>)
    ensures EntriesIn(a + b) == EntriesIn(a) + EntriesIn(b)
    decreases |b|
  {
    if b == [] {
      assert a + b == a;
    } else {
      var p, x := b[..|b|-1], b[|b|-1];
      assert a + b == (a + p) + [x] && b == p + [x];
      EntriesSplit(a, p);
      BodiesNext(a + p, x);
      BodiesNext(p, x);
    }
  }

  lemma {:induction false} EntiCovers(items: seq<Body>)
    ensures LastIndex(EntriesIn(items)) <= EntiOf(items)
  {
    if items != [] {
      var p, b := items[..|items|-1], items[|items|-1];
      EntiCovers(p);
      if !b.EntryBody? { assert EntriesIn(items) == EntriesIn(p); }
    }
  }

  lemma {:induction false} AllItems(ops: seq<Op>)
    ensures SnapshotBody(WalSnapshot(0, 0)) in Items(ops) && forall b | b in Items(ops) :: b.EntryBody? || b.SnapshotBody?
  {
    if ops == [] {
      assert Items(ops)[0] == SnapshotBody(WalSnapshot(0, 0));
    } else {
      AllItems(ops[..|ops|-1]);
    }
  }

  /** Snapshots of the same index are the same. */
  ghost predicate OneTermPerIndex(items: seq<Body>, s: WalSnapshot) {
    forall b | b in items && b.SnapshotBody? && b.snapshot.index == s.index :: b.snapshot == s
  }

  /** The last segment begun before anything was saved or when the last index was below s. */
  function LastCutBelow(items: seq<Body>, cuts: seq<nat>, s: nat): (c: nat)
    requires forall i | 0 <= i < |cuts| :: cuts[i] <= |items|
    ensures c <= |items|
  {
    if |cuts| <= 1 then 0
    else if EntiOf(items[..cuts[|cuts|-1]]) < s then cuts[|cuts|-1]
    else LastCutBelow(items, cuts[..|cuts|-1], s)
  }

  /** Where reading from index s begins, among the items of a session. */
  function MarkOf(ops: seq<Op>, s: nat): (m: nat)
    ensures m <= |Items(ops)|
  {
    CutsAscend(ops);
    LastCutBelow(Items(ops), Cuts(ops), s)
  }

  ghost predicate Ascending(cuts: seq<nat>) { forall i, j | 0 <= i < j < |cuts| :: cuts[i] <= cuts[j] }

  lemma {:induction false} CutsAscend(ops: seq<Op>)
    ensures Cuts(ops) != [] && Cuts(ops)[0] == 0 && Ascending(Cuts(ops))
    ensures forall i | 0 <= i < |Cuts(ops)| :: Cuts(ops)[i] <= |Items(ops)|
  {
    if ops != [] { CutsAscend(ops[..|ops|-1]); }
  }

  /** The segment found by its name is the one that reading is said to begin with. */
  lemma {:induction false} CutFound(items: seq<Body>, cuts: seq<nat>, s: nat, i: nat)
    requires i < |cuts| && cuts[0] == 0 && forall j | 0 <= j < |cuts| :: cuts[j] <= |items|
    requires i > 0 ==> EntiOf(items[..cuts[i]]) < s
    requires forall j | i < j < |cuts| :: EntiOf(items[..cuts[j]]) >= s
    ensures LastCutBelow(items, cuts, s) == cuts[i]
    decreases |cuts|
  {
    if i < |cuts| - 1 {
      CutFound(items, cuts[..|cuts|-1], s, i);
    }
  }

  /** Since item q no segment has been begun while the last index was below s. */
  ghost predicate NotCutBelow(ops: seq<Op>, q: nat, s: nat) {
    forall c | c in Cuts(ops) && q < c <= |Items(ops)| :: EntiOf(Items(ops)[..c]) >= s
  }

  /** The snapshot was saved, and since then no segment has been begun while the last index was below it. */
  ghost predicate StillFound(ops: seq<Op>, s: WalSnapshot) {
    exists q | 0 <= q < |Items(ops)| :: Items(ops)[q] == SnapshotBody(s) && NotCutBelow(ops, q, s.index)
  }

  /** The session ended above s, or saved nothing above s since the segment reading begins with. */
  ghost predicate StillComplete(ops: seq<Op>, s: nat) {
    LastIndex(EntriesIn(Items(ops))) > s || NoneAbove(EntriesIn(Items(ops)[MarkOf(ops, s)..]), s)
  }

  lemma {:induction false} LastCutBelowIs(items: seq<Body>, cuts: seq<nat>, s: nat)
    requires cuts != [] && cuts[0] == 0 && Ascending(cuts) && forall j | 0 <= j < |cuts| :: cuts[j] <= |items|
    ensures var m := LastCutBelow(items, cuts, s);
            && m in cuts && (m > 0 ==> EntiOf(items[..m]) < s)
            && forall c | c in cuts && c > m :: EntiOf(items[..c]) >= s
    decreases |cuts|
  {
    if |cuts| > 1 {
      var p, last := cuts[..|cuts|-1], cuts[|cuts|-1];
      assert cuts == p + [last];
      if EntiOf(items[..last]) >= s {
        LastCutBelowIs(items, p, s);
      }
    }
  }

  /** Reading begins no later than item q exactly if no segment was begun below s since. */
  lemma MarkExactly(ops: seq<Op>, q: nat, s: nat)
    ensures MarkOf(ops, s) <= q <==> NotCutBelow(ops, q, s)
  {
    hide Items, Cuts, EntiOf, LastCutBelow;
    CutsAscend(ops);
    LastCutBelowIs(Items(ops), Cuts(ops), s);
  }

  /** Opening a session's log at s never fails on a record. The snapshot is found exactly if no
      segment was begun below it since it was saved; and what is returned is the session's log above
      s exactly if the session ended above s or saved nothing above s since the segment read first. */
  lemma OpenExact(sum: Checksum, metadata: string, ops: seq<Op>, s: WalSnapshot)
    requires FollowOn(EntriesIn(Items(ops))) && OneTermPerIndex(Items(ops), s)
    ensures var o := OpenAndRead(sum, Run(sum, metadata, ops).segments, s);
            && (o.Opened? || o.SnapshotNotFound?) && o.metadata == Some(metadata) && o.state == LastState(ops)
            && (o.Opened? <==> StillFound(ops, s))
            && (IsLogAbove(EntriesIn(Items(ops)), s.index, o.ents) <==> StillComplete(ops, s.index))
  {
    hide Items, Cuts, EntriesIn, IsLogAbove, NoneAbove, LastState, Run, OpenAndRead, NotCutBelow;
    var rest := ReadFromMark(sum, metadata, ops, s);
    var items, mark := Items(ops), MarkOf(ops, s.index);
    forall q | 0 <= q < |items| ensures mark <= q <==> NotCutBelow(ops, q, s.index) { MarkExactly(ops, q, s.index); }
    if SnapshotBody(s) in rest {
      var k :| 0 <= k < |rest| && rest[k] == SnapshotBody(s);
      assert items[mark + k] == SnapshotBody(s);
    }
    if StillFound(ops, s) {
      var q :| 0 <= q < |items| && items[q] == SnapshotBody(s) && NotCutBelow(ops, q, s.index);
      InSuffix(items, mark, q);
    }
  }

  lemma ReadFromMark(sum: Checksum, metadata: string, ops: seq<Op>, s: WalSnapshot) returns (rest: seq<Body>)
    requires FollowOn(EntriesIn(Items(ops))) && OneTermPerIndex(Items(ops), s)
    ensures rest == Items(ops)[MarkOf(ops, s.index)..]
    ensures var o := OpenAndRead(sum, Run(sum, metadata, ops).segments, s);
            && (o.Opened? || o.SnapshotNotFound?) && o.metadata == Some(metadata) && o.state == LastState(ops)
            && (o.Opened? <==> SnapshotBody(s) in rest)
            && (IsLogAbove(EntriesIn(Items(ops)), s.index, o.ents) <==> StillComplete(ops, s.index))
  {
    hide Items, Cuts, EntriesIn, ItemsIn, EntiOf, Replay, ReadRecords, AllRecords, Bodies, IsLogAbove, NoneAbove, Chain, StateIn,
         MetadataIs, LastState, Run, LastCutBelow;
    var w, items, cuts := Run(sum, metadata, ops), Items(ops), Cuts(ops);
    SessionWritten(sum, metadata, ops);
    assert SegmentOk(sum, w, items, cuts, 0);
    var found := SearchIndex(w.segments, s.index);
    var i := found.value;
    MarkFound(sum, w, ops, i, s.index);
    assert SegmentOk(sum, w, items, cuts, i);
    ValidNumbers(sum, w, items, cuts, i);
    var mark := cuts[i];
    rest := items[mark..];
    var recs, p := AllRecords(w.segments[i..]), items[..mark];
    assert items == p + rest;
    EntriesSplit(p, rest);
    EntiCovers(p);
    NothingYet();
    assert i == 0 ==> p == [];
    ItemsInAre(Bodies(recs));
    ReplayIsLog(EntriesIn(p), EntriesIn(rest), s.index);
    ReadSuffix(sum, w, recs, items, mark, s);
  }

  lemma MarkFound(sum: Checksum, w: Writer, ops: seq<Op>, i: nat, s: nat)
    requires Written(sum, w, Items(ops), Cuts(ops)) && i < |w.segments| && w.segments[i].index <= s
    requires forall j | i < j < |w.segments| :: w.segments[j].index > s
    ensures MarkOf(ops, s) == Cuts(ops)[i]
  {
    hide Items, Cuts, EntiOf, SuffixOk, LastCutBelow;
    CutsAscend(ops);
    forall j: nat | 0 < j < |w.segments| ensures w.segments[j].index == EntiOf(Items(ops)[..Cuts(ops)[j]]) + 1 {
      assert SegmentOk(sum, w, Items(ops), Cuts(ops), j);
    }
    CutFound(Items(ops), Cuts(ops), s, i);
  }

  /** Opening at s succeeds and returns the session's log above s exactly under a condition on what
      the session saved and where it cut. */
  lemma ReplayExactly(sum: Checksum, metadata: string, ops: seq<Op>, s: WalSnapshot)
    requires FollowOn(EntriesIn(Items(ops))) && OneTermPerIndex(Items(ops), s)
    ensures OpenAndRead(sum, Run(sum, metadata, ops).segments, s).Opened? &&
            IsLogAbove(EntriesIn(Items(ops)), s.index, OpenAndRead(sum, Run(sum, metadata, ops).segments, s).ents)
            <==> StillFound(ops, s) && StillComplete(ops, s.index)
  {
    hide *;
    OpenExact(sum, metadata, ops, s);
  }

  lemma InSuffix(items: seq<Body>, c: nat, q: nat)
    requires c <= q < |items|
    ensures items[q] in items[c..]
  {
    assert items[c..][q - c] == items[q];
  }

  lemma NothingYet()
    ensures EntriesIn([]) == []
  {
  }

  lemma ValidNumbers(sum: Checksum, w: Writer, items: seq<Body>, marks: seq<nat>, i: nat)
    requires Written(sum, w, items, marks) && i < |marks|
    ensures IsValidSeq(w.segments[i..])
  {
    hide SuffixOk;
    var segs := w.segments[i..];
    forall j | 0 < j < |segs| ensures segs[j-1].number + 1 == segs[j].number {
      assert SegmentOk(sum, w, items, marks, i + j - 1) && SegmentOk(sum, w, items, marks, i + j);
    }
  }

  lemma ReadSuffix(sum: Checksum, w: Writer, recs: seq<Record>, items: seq<Body>, mark: nat, s: WalSnapshot)
    requires SuffixOk(sum, w, recs, items, mark) && OneTermPerIndex(items, s)
    requires Replay(EntriesIn(items[mark..]), s.index).Some?
    ensures var r := ReadRecords(sum, recs, s);
            && r.Reading? && r.metadata == Some(w.metadata) && r.state == w.state
            && Replay(EntriesIn(items[mark..]), s.index) == Some(r.ents)
            && (r.matched <==> SnapshotBody(s) in items[mark..])
  {
    hide Replay, ReadRecords, EntriesIn, ItemsIn, Chain;
    ItemsInAre(Bodies(recs));
    var a: nat :| Chain(sum, recs, a);
    assert forall b | b in items[mark..] :: b in items;
    assert Agreeing(Bodies(recs), w.metadata, s);
    ReadChain(sum, recs, w.metadata, s, a);
  }

  /** Once an entry above s has been saved, nothing at or below s is rewritten. */
  ghost predicate NotRewound(es: seq<Entry>, s: nat) {
    forall a, b | 0 <= a < b < |es| :: es[a].index > s ==> es[b].index > s
  }

  /** After item q no entry below s is saved. */
  ghost predicate StaysAt(items: seq<Body>, q: nat, s: nat) {
    forall j | q < j < |items| && items[j].EntryBody? :: items[j].entry.index >= s
  }

  lemma {:induction false} EntiStays(items: seq<Body>, q: nat, s: WalSnapshot)
    requires q < |items| && items[q] == SnapshotBody(s) && StaysAt(items, q, s.index)
    ensures EntiOf(items) >= s.index
  {
    if q < |items| - 1 {
      var p := items[..|items|-1];
      assert forall j | 0 <= j < |p| :: p[j] == items[j];
      EntiStays(p, q, s);
    }
  }

  /** Replay: opening at a saved snapshot s returns the metadata, the last state and exactly the
      session's log above s, provided nothing below s is saved after the snapshot and nothing at or
      below s after an entry above it. */
  lemma WalReplayed(sum: Checksum, metadata: string, ops: seq<Op>, s: WalSnapshot, q: nat)
    requires FollowOn(EntriesIn(Items(ops))) && OneTermPerIndex(Items(ops), s)
    requires q < |Items(ops)| && Items(ops)[q] == SnapshotBody(s) && StaysAt(Items(ops), q, s.index)
    requires NotRewound(EntriesIn(Items(ops)), s.index)
    ensures var o := OpenAndRead(sum, Run(sum, metadata, ops).segments, s);
            && o.Opened? && o.metadata == Some(metadata) && o.state == LastState(ops)
            && IsLogAbove(EntriesIn(Items(ops)), s.index, o.ents)
  {
    hide Items, Cuts, EntriesIn, EntiOf, IsLogAbove, LastState, Run, OpenAndRead, NoneAbove, MarkOf, NotRewound;
    var items, mark := Items(ops), MarkOf(ops, s.index);
    OpenExact(sum, metadata, ops, s);
    assert NotCutBelow(ops, q, s.index) by {
      forall c | c in Cuts(ops) && q < c <= |items| ensures EntiOf(items[..c]) >= s.index {
        assert items[..c][q] == items[q];
        assert StaysAt(items[..c], q, s.index);
        EntiStays(items[..c], q, s);
      }
    }
    assert items == items[..mark] + items[mark..];
    EntriesSplit(items[..mark], items[mark..]);
    NeverAbove(EntriesIn(items[..mark]), EntriesIn(items[mark..]), s.index);
  }

  lemma NeverAbove(p: seq<Entry>, es: seq<Entry>, s: nat)
    requires NotRewound(p + es, s)
    ensures LastIndex(p + es) > s || NoneAbove(es, s)
  {
    var all := p + es;
    if es != [] && all[|all|-1].index <= s {
      forall e | e in es ensures e.index <= s {
        var i :| 0 <= i < |es| && es[i] == e;
        assert all[|p| + i] == e;
      }
    }
  }

  /** From the initial snapshot the whole log is read, whatever the session rewrote. */
  lemma ReplayedFromStart(sum: Checksum, metadata: string, ops: seq<Op>)
    requires FollowOn(EntriesIn(Items(ops))) && OneTermPerIndex(Items(ops), WalSnapshot(0, 0))
    ensures var o := OpenAndRead(sum, Run(sum, metadata, ops).segments, WalSnapshot(0, 0));
            && o.Opened? && o.metadata == Some(metadata) && o.state == LastState(ops)
            && IsLogAbove(EntriesIn(Items(ops)), 0, o.ents)
  {
    hide EntriesIn, IsLogAbove, LastState, Run, OpenAndRead, OneTermPerIndex;
    AllItems(ops);
    var q :| 0 <= q < |Items(ops)| && Items(ops)[q] == SnapshotBody(WalSnapshot(0, 0));
    var es := EntriesIn(Items(ops));
    forall b | 0 <= b < |es| ensures es[b].index > 0 { assert FollowsAt(es, b); }
    WalReplayed(sum, metadata, ops, WalSnapshot(0, 0), q);
  }

  // ----- A snapshot can be lost behind a cut -----

  /** A snapshot is lost to every session that begins a segment while the last index is below it and
      does not save it again. */
  lemma LostBehindCut(sum: Checksum, metadata: string, ops: seq<Op>, s: WalSnapshot, c: nat)
    requires FollowOn(EntriesIn(Items(ops))) && OneTermPerIndex(Items(ops), s)
    requires c in Cuts(ops) && 0 < c <= |Items(ops)| && EntiOf(Items(ops)[..c]) < s.index && SnapshotBody(s) !in Items(ops)[c..]
    ensures OpenAndRead(sum, Run(sum, metadata, ops).segments, s).SnapshotNotFound?
  {
    hide Items, Cuts, EntriesIn, EntiOf, IsLogAbove, LastState, Run, OpenAndRead, MarkOf, StillComplete;
    var items := Items(ops);
    OpenExact(sum, metadata, ops, s);
    forall q: nat | c <= q < |items| ensures items[q] != SnapshotBody(s) { InSuffix(items, c, q); }
  }

  /** Whatever a session saved before: right after entries below s have been saved and a new segment
      begun, that segment is the one found, and no snapshot is in it. */
  lemma LostAtCut(sum: Checksum, metadata: string, ops: seq<Op>, st: HardState, es: seq<Entry>, s: WalSnapshot)
    requires es != [] && es[|es|-1].index < s.index
    ensures OpenAndRead(sum, Run(sum, metadata, ops + [SaveOp(st, es, true)]).segments, s).SnapshotNotFound?
  {
    hide Run;
    var all := ops + [SaveOp(st, es, true)];
    assert all[..|ops|] == ops;
    var w := Run(sum, metadata, ops);
    RunNext(sum, metadata, ops, SaveOp(st, es, true));
    LastSegment(sum, w, st, es);
    var segs := Run(sum, metadata, all).segments;
    var seg := segs[|segs|-1];
    assert SearchIndex(segs, s.index) == Some(|segs| - 1);
    assert segs[|segs|-1..] == [] + [seg];
    AllRecordsSnoc([], seg);
    NoRecords();
    HeaderRead(sum, SaveState(sum, SaveEntries(sum, w, es), st), s);
  }

  lemma RunNext(sum: Checksum, metadata: string, ops: seq<Op>, op: Op)
    requires op.SaveOp?
    ensures Run(sum, metadata, ops + [op]) == Save(sum, Run(sum, metadata, ops), op.st, op.es, op.full)
  {
    assert (ops + [op])[..|ops|] == ops;
  }

  lemma LastSegment(sum: Checksum, w: Writer, st: HardState, es: seq<Entry>)
    requires w.segments != [] && es != []
    ensures var t := Save(sum, w, st, es, true);
            var seg := t.segments[|t.segments|-1];
            && seg.index == es[|es|-1].index + 1
            && seg.records == Header(sum, SaveState(sum, SaveEntries(sum, w, es), st))
  {
    hide Cut, Header;
    CutIs(sum, SaveState(sum, SaveEntries(sum, w, es), st));
  }

  lemma HeaderRead(sum: Checksum, w: Writer, s: WalSnapshot)
    ensures var r := ReadRecords(sum, Header(sum, w), s); r.Reading? && !r.matched
  {
    var hd := Header(sum, w);
    var t := w.(crc := LastCrc(hd, 0));
    HeaderOk(sum, w, [], t);
    var none: seq<Body> := [];
    assert none[0..] == none;
    NothingYet();
    ReadSuffix(sum, t, hd, none, 0, s);
  }

  /** The guard on what follows the snapshot cannot be dropped: here no entry above the snapshot was
      ever saved, yet opening at it fails. */
  lemma SnapshotLost(sum: Checksum, metadata: string, st: HardState)
    ensures var s := WalSnapshot(2, 1);
            var ops := [SaveOp(st, [Entry(1, 1, ""), Entry(2, 1, "")], false), SnapshotOp(s), SaveOp(st, [Entry(1, 2, "")], true)];
            && SnapshotBody(s) in Items(ops) && FollowOn(EntriesIn(Items(ops))) && NotRewound(EntriesIn(Items(ops)), 2)
            && OpenAndRead(sum, Run(sum, metadata, ops).segments, s).SnapshotNotFound?
  {
    hide OpenAndRead, Run;
    var s := WalSnapshot(2, 1);
    var a, b, c := Entry(1, 1, ""), Entry(2, 1, ""), Entry(1, 2, "");
    var x, y, z := SaveOp(st, [a, b], false), SnapshotOp(s), SaveOp(st, [c], true);
    assert [x, y] + [z] == [x, y, z];
    LostAtCut(sum, metadata, [x, y], st, [c], s);
    var i0 := SnapshotBody(WalSnapshot(0, 0));
    assert [x][..0] == [] && [x, y][..1] == [x] && [x, y, z][..2] == [x, y];
    assert EntryBodies([a, b]) == [EntryBody(a), EntryBody(b)] && EntryBodies([c]) == [EntryBody(c)];
    assert Items([x]) == [i0, EntryBody(a), EntryBody(b)];
    assert Items([x, y]) == [i0, EntryBody(a), EntryBody(b), SnapshotBody(s)];
    var items := Items([x, y, z]);
    assert items == [i0, EntryBody(a), EntryBody(b), SnapshotBody(s)] + [EntryBody(c)];
    assert items[3] == SnapshotBody(s);
    EntriesOfFive(i0, a, b, SnapshotBody(s), c);
    assert items == [i0, EntryBody(a), EntryBody(b), SnapshotBody(s), EntryBody(c)];
  }

  lemma EntriesOfFive(x: Body, a: Entry, b: Entry, y: Body, c: Entry)
    requires x.SnapshotBody? && y.SnapshotBody?
    ensures EntriesIn([x, EntryBody(a), EntryBody(b), y, EntryBody(c)]) == [a, b, c]
  {
    hide EntriesIn;
    NothingYet();
    BodiesNext([], x);
    assert [] + [x] == [x];
    BodiesNext([x], EntryBody(a));
    assert [x] + [EntryBody(a)] == [x, EntryBody(a)];
    BodiesNext([x, EntryBody(a)], EntryBody(b));
    assert [x, EntryBody(a)] + [EntryBody(b)] == [x, EntryBody(a), EntryBody(b)];
    BodiesNext([x, EntryBody(a), EntryBody(b)], y);
    assert [x, EntryBody(a), EntryBody(b)] + [y] == [x, EntryBody(a), EntryBody(b), y];
    BodiesNext([x, EntryBody(a), EntryBody(b), y], EntryBody(c));
    assert [x, EntryBody(a), EntryBody(b), y] + [EntryBody(c)] == [x, EntryBody(a), EntryBody(b), y, EntryBody(c)];
  }
}
