/**
 * The append-message stream between two peers. Encoder and decoder both remember
 * the term and index the last message ended at, so that a message that simply
 * continues can be sent without them.
 */
module MsgAppCodec {
  import opened Options
  import opened RaftTypes
  import opened MvccKeys
  import opened MvccRevisionBytes

  const MSG_TYPE_LINK_HEARTBEAT: Byte := 0
  const MSG_TYPE_APP_ENTRIES: Byte := 1
  const MSG_TYPE_APP: Byte := 2

  type Bytes = seq<Byte>

  /** other stands for the fields of a message that an append does not use. */
  datatype StreamMessage =
    | LinkHeartbeat
    | App(from: Id, to: Id, term: nat, logTerm: nat, index: nat, entries: seq<Entry>, commit: nat, other: string)

  /** Marshalling of entries and messages. */
  datatype Codec = Codec(entryOut: Entry -> Bytes, entryIn: Bytes -> Entry,
                         messageOut: StreamMessage -> Bytes, messageIn: Bytes -> StreamMessage)

  predicate Fits64(n: nat) { n < Pow256(8) }

  ghost predicate IsInverse(c: Codec) {
    && (forall e {:trigger c.entryOut(e)} :: c.entryIn(c.entryOut(e)) == e)
    && (forall m {:trigger c.messageOut(m)} :: c.messageIn(c.messageOut(m)) == m)
  }

  function U64(n: nat): Bytes { BigEndian(n, 8) }

  /** What both ends remember. */
  datatype Position = Position(term: nat, index: nat)

  const START := Position(0, 0)

  // ----- Encoding -----

  /** The message continues where the stream stands. */
  predicate Continues(p: Position, m: StreamMessage) {
    m.App? && p.index == m.index && p.term == m.logTerm && m.logTerm == m.term
  }

  function EncodeEntries(c: Codec, es: seq<Entry>): Bytes {
    if es == [] then [] else U64(|c.entryOut(es[0])|) + c.entryOut(es[0]) + EncodeEntries(c, es[1..])
  }

  function Encode(c: Codec, p: Position, m: StreamMessage): Bytes {
    if m.LinkHeartbeat? then [MSG_TYPE_LINK_HEARTBEAT]
    else if Continues(p, m) then [MSG_TYPE_APP_ENTRIES] + U64(|m.entries|) + EncodeEntries(c, m.entries) + U64(m.commit)
    else [MSG_TYPE_APP] + U64(|c.messageOut(m)|) + c.messageOut(m)
  }

  function AfterFull(m: StreamMessage): Position
    requires m.App?
  {
    Position(m.term, if m.entries == [] then m.index else m.entries[|m.entries|-1].index)
  }

  function Moved(p: Position, m: StreamMessage): Position {
    if m.LinkHeartbeat? then p
    else if Continues(p, m) then p.(index := p.index + |m.entries|)
    else AfterFull(m)
  }

  function EncodeAll(c: Codec, p: Position, ms: seq<StreamMessage>): Bytes
    decreases |ms|
  {
    if ms == [] then [] else Encode(c, p, ms[0]) + EncodeAll(c, Moved(p, ms[0]), ms[1..])
  }

  // ----- Decoding -----

  datatype Decoded<T> = Decoded(value: T, rest: Bytes) | Broken

  function Take(b: Bytes, n: nat): Decoded<Bytes> { if |b| < n then Broken else Decoded(b[..n], b[n..]) }

  function TakeU64(b: Bytes): Decoded<nat> { if |b| < 8 then Broken else Decoded(Value(b[..8]), b[8..]) }

  function DecodeEntries(c: Codec, b: Bytes, n: nat): Decoded<seq<Entry>> {
    if n == 0 then Decoded([], b)
    else match TakeU64(b)
      case Broken => Broken
      case Decoded(size, b1) =>
        match Take(b1, size)
        case Broken => Broken
        case Decoded(data, b2) =>
          match DecodeEntries(c, b2, n - 1)
          case Broken => Broken
          case Decoded(es, b3) => Decoded([c.entryIn(data)] + es, b3)
  }

  /** Decoding at position p as the peer local of the peer remote; the third part is the new position. */
  function Decode(c: Codec, local: Id, remote: Id, p: Position, b: Bytes): Decoded<(StreamMessage, Position)> {
    if b == [] then Broken
    else if b[0] == MSG_TYPE_LINK_HEARTBEAT then Decoded((LinkHeartbeat, p), b[1..])
    else if b[0] == MSG_TYPE_APP_ENTRIES then
      match TakeU64(b[1..])
      case Broken => Broken
      case Decoded(n, b1) =>
        match DecodeEntries(c, b1, n)
        case Broken => Broken
        case Decoded(es, b2) =>
          match TakeU64(b2)
          case Broken => Broken
          case Decoded(commit, b3) =>
            Decoded((App(remote, local, p.term, p.term, p.index, es, commit, ""), p.(index := p.index + n)), b3)
    else if b[0] == MSG_TYPE_APP then
      match TakeU64(b[1..])
      case Broken => Broken
      case Decoded(size, b1) =>
        match Take(b1, size)
        case Broken => Broken
        case Decoded(data, b2) =>
          var m := c.messageIn(data);
          Decoded((m, if m.App? then AfterFull(m) else p), b2)
    else Broken
  }

  function DecodeAll(c: Codec, local: Id, remote: Id, p: Position, b: Bytes): Option<seq<StreamMessage>>
    decreases |b|
  {
    if b == [] then Some([])
    else match Decode(c, local, remote, p, b)
      case Broken => None
      case Decoded(r, rest) =>
        if |rest| >= |b| then None
        else match DecodeAll(c, local, remote, r.1, rest)
          case None => None
          case Some(ms) => Some([r.0] + ms)
  }

  // ----- Round trip -----

  /** Every length fits its eight bytes. */
  ghost predicate Encodable(c: Codec, m: StreamMessage) {
    m.App? ==>
      && Fits64(|m.entries|) && Fits64(m.commit) && Fits64(|c.messageOut(m)|)
      && forall e | e in m.entries :: Fits64(|c.entryOut(e)|)
  }

  /** What the decoder makes of a message: the compressed form names the peers and nothing else. */
  function Received(local: Id, remote: Id, p: Position, m: StreamMessage): StreamMessage {
    if Continues(p, m) then m.(from := remote, to := local, other := "") else m
  }

  lemma TakeU64Of(n: nat, tail: Bytes)
    requires Fits64(n)
    ensures TakeU64(U64(n) + tail) == Decoded(n, tail)
  {
    hide BigEndian, Value, Pow256;
    BigEndianValue(n, 8);
    var b := U64(n) + tail;
    assert b[..8] == U64(n) && b[8..] == tail;
  }

  lemma TakeOf(data: Bytes, tail: Bytes)
    ensures Take(data + tail, |data|) == Decoded(data, tail)
  {
    assert (data + tail)[..|data|] == data && (data + tail)[|data|..] == tail;
  }

  lemma {:induction false} EntriesRoundTrip(c: Codec, es: seq<Entry>, tail: Bytes)
    requires IsInverse(c) && forall e | e in es :: Fits64(|c.entryOut(e)|)
    ensures DecodeEntries(c, EncodeEntries(c, es) + tail, |es|) == Decoded(es, tail)
  {
    hide U64, TakeU64, Take, Fits64;
    if es == [] {
      assert EncodeEntries(c, es) + tail == tail;
    } else {
      var data, rest := c.entryOut(es[0]), EncodeEntries(c, es[1..]);
      assert es[0] in es;
      var b := EncodeEntries(c, es) + tail;
      assert b == U64(|data|) + (data + (rest + tail));
      TakeU64Of(|data|, data + (rest + tail));
      TakeOf(data, rest + tail);
      EntriesRoundTrip(c, es[1..], tail);
      assert [es[0]] + es[1..] == es;
    }
  }

  /** One message: the decoder ends at the encoder's position. */
  lemma MessageRoundTrip(c: Codec, local: Id, remote: Id, p: Position, m: StreamMessage, tail: Bytes)
    requires IsInverse(c) && Encodable(c, m)
    ensures Decode(c, local, remote, p, Encode(c, p, m) + tail) == Decoded((Received(local, remote, p, m), Moved(p, m)), tail)
  {
    hide U64, TakeU64, Take, Fits64, EncodeEntries, DecodeEntries;
    var b := Encode(c, p, m) + tail;
    if m.LinkHeartbeat? {
      assert b[1..] == tail;
    } else if Continues(p, m) {
      var es, k := EncodeEntries(c, m.entries), U64(m.commit);
      assert b[1..] == U64(|m.entries|) + (es + (k + tail));
      TakeU64Of(|m.entries|, es + (k + tail));
      EntriesRoundTrip(c, m.entries, k + tail);
      TakeU64Of(m.commit, tail);
    } else {
      var data := c.messageOut(m);
      assert b[1..] == U64(|data|) + (data + tail);
      TakeU64Of(|data|, data + tail);
      TakeOf(data, tail);
      assert c.messageIn(data) == m;
    }
  }

  function ReceivedAll(local: Id, remote: Id, p: Position, ms: seq<StreamMessage>): seq<StreamMessage>
    decreases |ms|
  {
    if ms == [] then [] else [Received(local, remote, p, ms[0])] + ReceivedAll(local, remote, Moved(p, ms[0]), ms[1..])
  }

  lemma {:induction false} StreamDecodes(c: Codec, local: Id, remote: Id, p: Position, ms: seq<StreamMessage>)
    requires IsInverse(c) && forall m | m in ms :: Encodable(c, m)
    ensures DecodeAll(c, local, remote, p, EncodeAll(c, p, ms)) == Some(ReceivedAll(local, remote, p, ms))
    decreases |ms|
  {
    hide Decode, Encode, Encodable, IsInverse, Received, Moved;
    if ms != [] {
      var m, tail := ms[0], EncodeAll(c, Moved(p, ms[0]), ms[1..]);
      assert m in ms;
      MessageRoundTrip(c, local, remote, p, m, tail);
      NotEmpty(c, p, m);
      StreamDecodes(c, local, remote, Moved(p, m), ms[1..]);
    }
  }

  lemma NotEmpty(c: Codec, p: Position, m: StreamMessage)
    ensures Encode(c, p, m) != []
  {
  }

  /** A message that survives compression: it names the two peers and uses no other field. */
  predicate Plain(local: Id, remote: Id, m: StreamMessage) {
    m.App? ==> m.from == remote && m.to == local && m.other == ""
  }

  /** Every message of the stream that is sent in compressed form is plain. */
  ghost predicate CompressedPlain(local: Id, remote: Id, p: Position, ms: seq<StreamMessage>)
    decreases |ms|
  {
    ms != [] ==>
      (Continues(p, ms[0]) ==> Plain(local, remote, ms[0])) && CompressedPlain(local, remote, Moved(p, ms[0]), ms[1..])
  }

  lemma {:induction false} ReceivedIsSent(local: Id, remote: Id, p: Position, ms: seq<StreamMessage>)
    ensures ReceivedAll(local, remote, p, ms) == ms <==> CompressedPlain(local, remote, p, ms)
    decreases |ms|
  {
    if ms != [] {
      var m, rest := ms[0], ReceivedAll(local, remote, Moved(p, ms[0]), ms[1..]);
      ReceivedIsSent(local, remote, Moved(p, m), ms[1..]);
      assert ms == [m] + ms[1..];
      assert ([Received(local, remote, p, m)] + rest)[0] == Received(local, remote, p, m);
      assert ([Received(local, remote, p, m)] + rest)[1..] == rest;
    }
  }

  lemma {:induction false} AllPlain(local: Id, remote: Id, p: Position, ms: seq<StreamMessage>)
    requires forall m | m in ms :: Plain(local, remote, m)
    ensures CompressedPlain(local, remote, p, ms)
    decreases |ms|
  {
    if ms != [] {
      assert ms[0] in ms;
      AllPlain(local, remote, Moved(p, ms[0]), ms[1..]);
    }
  }

  /** Stream round trip: decoding the concatenated encodings gives back the messages exactly if every
      message that went out compressed is plain; in particular for all append messages between the
      two peers that use no other field. */
  lemma StreamRoundTrip(c: Codec, local: Id, remote: Id, ms: seq<StreamMessage>)
    requires IsInverse(c) && forall m | m in ms :: Encodable(c, m)
    ensures DecodeAll(c, local, remote, START, EncodeAll(c, START, ms)) == Some(ms) <==> CompressedPlain(local, remote, START, ms)
    ensures (forall m | m in ms :: Plain(local, remote, m)) ==>
              DecodeAll(c, local, remote, START, EncodeAll(c, START, ms)) == Some(ms)
  {
    hide IsInverse, Encodable, Plain;
    StreamDecodes(c, local, remote, START, ms);
    ReceivedIsSent(local, remote, START, ms);
    if forall m | m in ms :: Plain(local, remote, m) { AllPlain(local, remote, START, ms); }
  }

  // ----- The two ends -----

  class Encoder {
    const codec: Codec
    var term: nat
    var index: nat
    var out: Bytes

    constructor (codec: Codec)
      ensures this.codec == codec && term == index == 0 && out == []
    {
      this.codec := codec;
      term, index, out := 0, 0, [];
    }

    /** Writes entries, advancing the index with each. */
    method WriteEntries(es: seq<Entry>)
      modifies this`out, this`index
      ensures out == old(out) + EncodeEntries(codec, es) && index == old(index) + |es|
    {
      hide U64;
      assert es[0..] == es;
      for i := 0 to |es|
        invariant out + EncodeEntries(codec, es[i..]) == old(out) + EncodeEntries(codec, es)
        invariant index == old(index) + i
      {
        var data := codec.entryOut(es[i]);
        ghost var rest := EncodeEntries(codec, es[i+1..]);
        assert es[i..][0] == es[i] && es[i..][1..] == es[i+1..];
        assert out + (U64(|data|) + data + rest) == (out + U64(|data|) + data) + rest;
        out := out + U64(|data|);
        out := out + data;
        index := index + 1;
      }
    }

    method EncodeMessage(m: StreamMessage)
      modifies this
      ensures out == old(out) + Encode(codec, Position(old(term), old(index)), m)
      ensures Position(term, index) == Moved(Position(old(term), old(index)), m)
    {
      hide U64, EncodeEntries;
      if m.LinkHeartbeat? {
        out := out + [MSG_TYPE_LINK_HEARTBEAT];
      } else if index == m.index && term == m.logTerm && m.logTerm == m.term {
        out := out + [MSG_TYPE_APP_ENTRIES];
        out := out + U64(|m.entries|);
        WriteEntries(m.entries);
        out := out + U64(m.commit);
      } else {
        out := out + [MSG_TYPE_APP];
        var data := codec.messageOut(m);
        out := out + U64(|data|);
        out := out + data;
        term := m.term;
        index := m.index;
        if |m.entries| > 0 { index := m.entries[|m.entries|-1].index; }
      }
    }
  }

  class Decoder {
    const codec: Codec
    const local: Id
    const remote: Id
    var term: nat
    var index: nat
    var input: Bytes

    constructor (codec: Codec, local: Id, remote: Id, input: Bytes)
      ensures this.codec == codec && this.local == local && this.remote == remote
      ensures term == index == 0 && this.input == input
    {
      this.codec, this.local, this.remote := codec, local, remote;
      term, index, this.input := 0, 0, input;
    }

    method ReadU64() returns (ok: bool, n: nat)
      modifies this`input
      ensures TakeU64(old(input)) == if ok then Decoded(n, input) else Broken
    {
      if |input| < 8 { return false, 0; }
      n := Value(input[..8]);
      input := input[8..];
      ok := true;
    }

    method ReadFull(n: nat) returns (ok: bool, data: Bytes)
      modifies this`input
      ensures Take(old(input), n) == if ok then Decoded(data, input) else Broken
    {
      if |input| < n { return false, []; }
      data := input[..n];
      input := input[n..];
      ok := true;
    }

    /** Reads n entries, advancing the index with each. */
    method ReadEntries(n: nat) returns (ok: bool, es: seq<Entry>)
      modifies this`input, this`index
      ensures DecodeEntries(codec, old(input), n) == if ok then Decoded(es, input) else Broken
      ensures ok ==> index == old(index) + n
    {
      hide TakeU64, Take;
      es := [];
      PrependNone(DecodeEntries(codec, input, n));
      for i := 0 to n
        invariant index == old(index) + i
        invariant DecodeEntries(codec, old(input), n) == Prepend(es, DecodeEntries(codec, input, n - i))
      {
        ghost var before := input;
        var size;
        ok, size := ReadU64();
        if !ok { return; }
        var data;
        ok, data := ReadFull(size);
        if !ok { return; }
        index := index + 1;
        PrependOne(es, codec.entryIn(data), DecodeEntries(codec, input, n - i - 1));
        es := es + [codec.entryIn(data)];
      }
      assert es + [] == es;
      ok := true;
    }

    method DecodeMessage() returns (ok: bool, m: StreamMessage)
      modifies this
      ensures Decode(codec, local, remote, Position(old(term), old(index)), old(input)) ==
              if ok then Decoded((m, Position(term, index)), input) else Broken
    {
      hide DecodeEntries, TakeU64, Take;
      m := LinkHeartbeat;
      if |input| < 1 { return false, m; }
      var typ := input[0];
      input := input[1..];
      if typ == MSG_TYPE_LINK_HEARTBEAT { return true, m; }
      if typ == MSG_TYPE_APP_ENTRIES {
        var i := index;
        var n;
        ok, n := ReadU64();
        if !ok { return; }
        var es;
        ok, es := ReadEntries(n);
        if !ok { return; }
        var commit;
        ok, commit := ReadU64();
        m := App(remote, local, term, term, i, es, commit, "");
        return;
      }
      if typ == MSG_TYPE_APP {
        var size;
        ok, size := ReadU64();
        if !ok { return; }
        var data;
        ok, data := ReadFull(size);
        if !ok { return; }
        m := codec.messageIn(data);
        if m.App? {
          term := m.term;
          index := m.index;
          if |m.entries| > 0 { index := m.entries[|m.entries|-1].index; }
        }
        return;
      }
      ok := false;
    }
  }

  function Prepend(es: seq<Entry>, d: Decoded<seq<Entry>>): Decoded<seq<Entry>> {
    match d
    case Broken => Broken
    case Decoded(fs, rest) => Decoded(es + fs, rest)
  }

  lemma PrependNone(d: Decoded<seq<Entry>>)
    ensures Prepend([], d) == d
  {
    if d.Decoded? { assert [] + d.value == d.value; }
  }

  lemma PrependOne(es: seq<Entry>, e: Entry, d: Decoded<seq<Entry>>)
    ensures Prepend(es, match d { case Broken => Broken case Decoded(fs, rest) => Decoded([e] + fs, rest) }) == Prepend(es + [e], d)
  {
    if d.Decoded? { assert es + ([e] + d.value) == (es + [e]) + d.value; }
  }
}
