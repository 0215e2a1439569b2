/** The bytes of the append-message stream, said in terms of the message before, and what becomes of a stream cut short. */
module MsgAppWire {
  import opened Options
  import opened RaftTypes
  import opened MvccRevisionBytes
  import opened MsgAppCodec

  // ----- The wire form -----

  /** The entries of an append follow on its index. */
  ghost predicate Numbered(m: StreamMessage) {
    m.App? ==> forall i | 0 <= i < |m.entries| :: m.entries[i].index == m.index + 1 + i
  }

  /** The message starts where the append before it ended, in the same term throughout. */
  predicate GoesOn(last: Option<StreamMessage>, m: StreamMessage) {
    && m.App? && m.logTerm == m.term
    && match last
       case None => m.term == 0 && m.index == 0
       case Some(l) => l.App? && l.term == m.term && l.index + |l.entries| == m.index
  }

  /** One entry after the other, each behind its length. */
  function EntryBytes(c: Codec, es: seq<Entry>): Bytes {
    if es == [] then []
    else
      var data := c.entryOut(es[|es|-1]);
      EntryBytes(c, es[..|es|-1]) + BigEndian(|data|, 8) + data
  }

  /** The bytes of a message; last is the append before it, if there was one. */
  function Wire(c: Codec, last: Option<StreamMessage>, m: StreamMessage): Bytes {
    if m.LinkHeartbeat? then [0]
    else if GoesOn(last, m) then [1] + BigEndian(|m.entries|, 8) + EntryBytes(c, m.entries) + BigEndian(m.commit, 8)
    else [2] + BigEndian(|c.messageOut(m)|, 8) + c.messageOut(m)
  }

  function WireAll(c: Codec, last: Option<StreamMessage>, ms: seq<StreamMessage>): Bytes
    decreases |ms|
  {
    if ms == [] then [] else Wire(c, last, ms[0]) + WireAll(c, if ms[0].App? then Some(ms[0]) else last, ms[1..])
  }

  lemma {:induction false} EntryBytesCat(c: Codec, a: seq<Entry>, b: seq<Entry>)
    ensures EntryBytes(c, a + b) == EntryBytes(c, a) + EntryBytes(c, b)
  {
    if b == [] {
      assert a + b == a;
    } else {
      EntryBytesCat(c, a, b[..|b|-1]);
      assert (a + b)[..|a + b|-1] == a + b[..|b|-1];
    }
  }

  lemma {:induction false} EntryBytesAre(c: Codec, es: seq<Entry>)
    ensures EncodeEntries(c, es) == EntryBytes(c, es)
    decreases |es|
  {
    if es != [] {
      EntryBytesAre(c, es[1..]);
      EntryBytesCat(c, [es[0]], es[1..]);
      assert es == [es[0]] + es[1..];
      assert [es[0]][..0] == [];
    }
  }

  ghost predicate StandsAfter(p: Position, last: Option<StreamMessage>) {
    match last
    case None => p == START
    case Some(l) => l.App? && p == Position(l.term, l.index + |l.entries|)
  }

  /** Every message of a stream has its wire form: the short one exactly if it goes on where the append before it ended. */
  lemma {:induction false} StreamOnTheWire(c: Codec, p: Position, last: Option<StreamMessage>, ms: seq<StreamMessage>)
    requires StandsAfter(p, last) && forall m | m in ms :: Numbered(m)
    ensures EncodeAll(c, p, ms) == WireAll(c, last, ms)
    decreases |ms|
  {
    hide BigEndian;
    if ms != [] {
      var m := ms[0];
      assert m in ms;
      if m.App? { EntryBytesAre(c, m.entries); }
      StreamOnTheWire(c, Moved(p, m), if m.App? then Some(m) else last, ms[1..]);
    }
  }

  // ----- A stream cut short -----

  lemma {:induction false} EntriesCutShort(c: Codec, es: seq<Entry>, k: nat)
    requires IsInverse(c) && (forall e | e in es :: Fits64(|c.entryOut(e)|)) && k < |EncodeEntries(c, es)|
    ensures DecodeEntries(c, EncodeEntries(c, es)[..k], |es|).Broken?
  {
    hide BigEndian, TakeU64, Take, Fits64;
    var data, rest := c.entryOut(es[0]), EncodeEntries(c, es[1..]);
    assert es[0] in es;
    var b := EncodeEntries(c, es);
    assert b == U64(|data|) + (data + rest) && |U64(|data|)| == 8;
    if k < 8 {
      ShortU64(b[..k]);
    } else {
      var b1 := (data + rest)[..k - 8];
      assert b[..k] == U64(|data|) + b1;
      TakeU64Of(|data|, b1);
      if k - 8 < |data| {
        ShortTake(b1, |data|);
      } else {
        var b2 := rest[..k - 8 - |data|];
        assert b1 == data + b2;
        TakeOf(data, b2);
        EntriesCutShort(c, es[1..], |b2|);
      }
    }
  }

  lemma ShortU64(b: Bytes)
    requires |b| < 8
    ensures TakeU64(b).Broken?
  {
  }

  lemma ShortTake(b: Bytes, n: nat)
    requires |b| < n
    ensures Take(b, n).Broken?
  {
  }

  lemma CompressedCutShort(c: Codec, local: Id, remote: Id, p: Position, m: StreamMessage, k: nat)
    requires IsInverse(c) && Encodable(c, m) && Continues(p, m) && 0 < k < |Encode(c, p, m)|
    ensures Decode(c, local, remote, p, Encode(c, p, m)[..k]).Broken?
  {
    hide BigEndian, TakeU64, Take, Fits64, EncodeEntries, DecodeEntries;
    var b, n, es, t := Encode(c, p, m), U64(|m.entries|), EncodeEntries(c, m.entries), U64(m.commit);
    assert |n| == |t| == 8;
    assert b[..k][1..] == (n + (es + t))[..k-1];
    if k - 1 < 8 {
      ShortU64(b[..k][1..]);
    } else {
      var b1 := (es + t)[..k - 9];
      assert b[..k][1..] == n + b1;
      TakeU64Of(|m.entries|, b1);
      if k - 9 < |es| {
        assert b1 == es[..k - 9];
        EntriesCutShort(c, m.entries, k - 9);
      } else {
        var b2 := t[..k - 9 - |es|];
        assert b1 == es + b2;
        EntriesRoundTrip(c, m.entries, b2);
        ShortU64(b2);
      }
    }
  }

  lemma FullCutShort(c: Codec, local: Id, remote: Id, p: Position, m: StreamMessage, k: nat)
    requires IsInverse(c) && Encodable(c, m) && m.App? && !Continues(p, m) && 0 < k < |Encode(c, p, m)|
    ensures Decode(c, local, remote, p, Encode(c, p, m)[..k]).Broken?
  {
    hide BigEndian, TakeU64, Take, Fits64, DecodeEntries;
    var b, data := Encode(c, p, m), c.messageOut(m);
    var n := U64(|data|);
    assert |n| == 8;
    assert b[..k][1..] == (n + data)[..k-1];
    if k - 1 < 8 {
      ShortU64(b[..k][1..]);
    } else {
      var b1 := data[..k - 9];
      assert b[..k][1..] == n + b1;
      TakeU64Of(|data|, b1);
      ShortTake(b1, |data|);
    }
  }

  /** No part of a message is taken for a message: decoding fails until all of its bytes are there. */
  lemma CutShort(c: Codec, local: Id, remote: Id, p: Position, m: StreamMessage, k: nat)
    requires IsInverse(c) && Encodable(c, m) && k < |Encode(c, p, m)|
    ensures Decode(c, local, remote, p, Encode(c, p, m)[..k]).Broken?
  {
    if k > 0 && m.App? {
      hide Encode, Decode, Encodable, IsInverse;
      if Continues(p, m) { CompressedCutShort(c, local, remote, p, m, k); } else { FullCutShort(c, local, remote, p, m, k); }
    }
  }

  /** Bytes of another type are refused. */
  lemma UnknownType(c: Codec, local: Id, remote: Id, p: Position, b: Bytes)
    requires b != [] && b[0] > 2
    ensures Decode(c, local, remote, p, b).Broken?
  {
  }
}
