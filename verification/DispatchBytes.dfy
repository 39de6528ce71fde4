/** What the engine makes of messages as a server writes them. */
module DispatchBytes {
  import opened Bytes
  import opened Rpc
  import opened Dispatch
  import W = Wire

  // ---- Results ----

  /** An rpc_result for a request. */
  function ResultMsg(req: int, body: seq<byte>): (b: seq<byte>) { W.Uint(0xf35c6d01) + W.Long(req) + body }

  predicate Word(w: nat) { w < 0x1_0000_0000 }
  predicate Int32(i: int) { -0x8000_0000 <= i < 0x8000_0000 }
  predicate Int64(i: int) { -0x8000_0000_0000_0000 <= i < 0x8000_0000_0000_0000 }

  lemma ResultIs(gz: Gunzip, depth: nat, req: int, body: seq<byte>)
    requires Int64(req)
    ensures Tree(gz, depth, ResultMsg(req, body)) ==
      match BodyOf(gz, body) case None => Malformed case Some((res, bad)) => Result(req, res, bad)
  {
    hide W.Uint, W.Long, W.ReadUint, W.ReadLong, BodyOf;
    assert ResultMsg(req, body) == W.Uint(0xf35c6d01) + (W.Long(req) + body);
    W.UintRoundTrip(0xf35c6d01, W.Long(req) + body);
    W.LongRoundTrip(req, body);
  }

  /** An answer of any constructor other than rpc_error and gzip_packed comes out whole, id included. */
  lemma PlainAnswer(gz: Gunzip, depth: nat, req: int, ctor: nat, tail: seq<byte>)
    requires Int64(req) && Word(ctor) && ctor != 0x2144ca19 && ctor != 0x3072cfa1
    ensures var body := W.Uint(ctor) + tail;
      Tree(gz, depth, ResultMsg(req, body)) == Result(req, Payload(body), false)
  {
    hide W.Uint, W.ReadUint, Tree, ResultMsg;
    W.UintRoundTrip(ctor, tail);
    ResultIs(gz, depth, req, W.Uint(ctor) + tail);
  }

  lemma ErrorAnswer(gz: Gunzip, depth: nat, req: int, code: int, text: seq<byte>, rest: seq<byte>)
    requires Int64(req) && Int32(code) && |text| < 0x100_0000
    ensures Tree(gz, depth, ResultMsg(req, W.Uint(0x2144ca19) + W.Int(code) + W.ByteString(text) + rest)) ==
      Result(req, ServerError(code, text), false)
  {
    hide W.Uint, W.Int, W.ByteString, W.ReadUint, W.ReadInt, W.ReadBytes, Tree, ResultMsg;
    var tail := W.ByteString(text) + rest;
    var body := W.Uint(0x2144ca19) + W.Int(code) + W.ByteString(text) + rest;
    assert body == W.Uint(0x2144ca19) + (W.Int(code) + tail);
    W.UintRoundTrip(0x2144ca19, W.Int(code) + tail);
    W.IntRoundTrip(code, tail);
    W.ByteStringRoundTrip(text, rest);
    ResultIs(gz, depth, req, body);
  }

  /** A packed answer is unpacked; if it cannot be, the caller is told so and the message fails. */
  lemma PackedAnswer(gz: Gunzip, depth: nat, req: int, packed: seq<byte>, rest: seq<byte>)
    requires Int64(req) && |packed| < 0x100_0000
    ensures Tree(gz, depth, ResultMsg(req, W.Uint(0x3072cfa1) + W.ByteString(packed) + rest)) ==
      match gz(packed) case Some(p) => Result(req, Payload(p), false) case None => Result(req, DecodeError, true)
  {
    hide W.Uint, W.ByteString, W.ReadUint, W.ReadBytes, Tree, ResultMsg;
    var tail := W.ByteString(packed) + rest;
    var body := W.Uint(0x3072cfa1) + W.ByteString(packed) + rest;
    assert body == W.Uint(0x3072cfa1) + tail;
    W.UintRoundTrip(0x3072cfa1, tail);
    W.ByteStringRoundTrip(packed, rest);
    ResultIs(gz, depth, req, body);
  }

  /** An rpc_error that breaks off is a decoding error for the caller. */
  lemma BrokenError(gz: Gunzip, depth: nat, req: int, tail: seq<byte>)
    requires Int64(req) && |tail| < 8
    ensures Tree(gz, depth, ResultMsg(req, W.Uint(0x2144ca19) + tail)) == Result(req, DecodeError, true)
  {
    hide W.Uint, W.ReadUint, Tree, ResultMsg;
    W.UintRoundTrip(0x2144ca19, tail);
    ResultIs(gz, depth, req, W.Uint(0x2144ca19) + tail);
    ShortError(tail);
  }

  lemma ShortError(tail: seq<byte>)
    requires |tail| < 8
    ensures W.ReadInt(tail).Ok? ==> W.ReadBytes(W.ReadInt(tail).rest).Fail?
  {
    if W.ReadInt(tail).Ok? {
      ShortString(W.ReadInt(tail).rest);
    }
  }

  lemma ShortString(s: seq<byte>)
    requires |s| < 4
    ensures W.ReadBytes(s).Fail?
  {
    if W.ReadBytes(s).Ok? {
      W.ReadBytesUses(s);
    }
  }

  // ---- Packed messages and the rest ----

  /** A gzip_packed message is the message inside it, one layer down. */
  lemma PackedMessage(gz: Gunzip, depth: nat, packed: seq<byte>, rest: seq<byte>)
    requires |packed| < 0x100_0000 && depth > 0
    ensures Tree(gz, depth, W.Uint(0x3072cfa1) + W.ByteString(packed) + rest) ==
      match gz(packed) case Some(p) => Gzip(Tree(gz, depth - 1, p)) case None => Malformed
  {
    hide W.Uint, W.ByteString, W.ReadUint, W.ReadBytes;
    var tail := W.ByteString(packed) + rest;
    assert W.Uint(0x3072cfa1) + W.ByteString(packed) + rest == W.Uint(0x3072cfa1) + tail;
    W.UintRoundTrip(0x3072cfa1, tail);
    W.ByteStringRoundTrip(packed, rest);
  }

  /** Every other constructor is left alone, and less than a constructor is malformed. */
  lemma OtherMessage(gz: Gunzip, depth: nat, ctor: nat, tail: seq<byte>)
    requires Word(ctor) && !(ctor in [0x73f1f8dc, 0x3072cfa1, 0xf35c6d01])
    ensures Tree(gz, depth, W.Uint(ctor) + tail) == Other
    ensures |tail| < 4 ==> Tree(gz, depth, tail) == Malformed
  {
    hide W.Uint;
    W.UintRoundTrip(ctor, tail);
    assert [0x73f1f8dc, 0x3072cfa1, 0xf35c6d01][0] == CRC_CONTAINER;
    assert [0x73f1f8dc, 0x3072cfa1, 0xf35c6d01][1] == CRC_GZIP;
    assert [0x73f1f8dc, 0x3072cfa1, 0xf35c6d01][2] == CRC_RESULT;
  }

  // ---- Containers ----

  datatype Entry = Entry(id: int, seqNo: int, raw: seq<byte>)

  predicate Sendable(e: Entry) { Int64(e.id) && Int32(e.seqNo) && |e.raw| < 0x8000_0000 }

  function EntryBytes(e: Entry): (b: seq<byte>) { W.Long(e.id) + W.Int(e.seqNo) + W.Int(|e.raw|) + e.raw }

  function EntriesBytes(es: seq<Entry>): (b: seq<byte>)
  {
    if |es| == 0 then [] else EntryBytes(es[0]) + EntriesBytes(es[1..])
  }

  function Items(gz: Gunzip, depth: nat, es: seq<Entry>): (items: seq<Item>)
    ensures |items| == |es|
    ensures forall i :: 0 <= i < |es| ==> items[i] == Item(es[i].id, Tree(gz, depth, es[i].raw))
  {
    seq(|es|, i requires 0 <= i < |es| => Item(es[i].id, Tree(gz, depth, es[i].raw)))
  }

  /** The item at the front is exactly an entry as it is written. */
  lemma HeadIff(b: seq<byte>, id: int, raw: seq<byte>, rest: seq<byte>)
    ensures ItemHead(b) == Head(id, raw, rest) <==>
      exists seqNo :: Sendable(Entry(id, seqNo, raw)) && b == EntryBytes(Entry(id, seqNo, raw)) + rest
  {
    hide EntryBytes;
    if ItemHead(b) == Head(id, raw, rest) {
      var seqNo := HeadWritten(b);
    }
    if seqNo :| Sendable(Entry(id, seqNo, raw)) && b == EntryBytes(Entry(id, seqNo, raw)) + rest {
      WrittenHead(Entry(id, seqNo, raw), rest);
    }
  }

  lemma WrittenHead(e: Entry, rest: seq<byte>)
    requires Sendable(e)
    ensures ItemHead(EntryBytes(e) + rest) == Head(e.id, e.raw, rest)
  {
    hide W.Long, W.Int, W.ReadLong, W.ReadInt;
    var b3 := e.raw + rest;
    var b2 := W.Int(|e.raw|) + b3;
    var b1 := W.Int(e.seqNo) + b2;
    assert EntryBytes(e) + rest == W.Long(e.id) + b1;
    W.LongRoundTrip(e.id, b1);
    W.IntRoundTrip(e.seqNo, b2);
    W.IntRoundTrip(|e.raw|, b3);
    assert b3[..|e.raw|] == e.raw && b3[|e.raw|..] == rest;
  }

  lemma HeadWritten(b: seq<byte>) returns (seqNo: int)
    requires ItemHead(b).Head?
    ensures var h := ItemHead(b); var e := Entry(h.id, seqNo, h.raw); Sendable(e) && b == EntryBytes(e) + h.rest
  {
    hide W.Long, W.Int, W.ReadLong, W.ReadInt;
    var h := ItemHead(b);
    var b1 := W.ReadLong(b).rest;
    var b2 := W.ReadInt(b1).rest;
    var b3 := W.ReadInt(b2).rest;
    seqNo := W.ReadInt(b1).value;
    W.LongWritten(b);
    W.IntWritten(b1);
    W.IntWritten(b2);
    var e := Entry(h.id, seqNo, h.raw);
    assert b == W.Long(h.id) + (W.Int(seqNo) + (W.Int(|h.raw|) + b3));
    assert b3 == h.raw + h.rest;
    assert b == EntryBytes(e) + h.rest;
  }

  /** A container as a server writes it. */
  function ContainerMsg(count: int, es: seq<Entry>, rest: seq<byte>): (b: seq<byte>)
  {
    W.Uint(0x73f1f8dc) + W.Int(count) + (EntriesBytes(es) + rest)
  }

  /**
   * A container parses to exactly its entries in order, whatever follows; one that announces more
   * than it holds keeps those it holds and is not whole.
   */
  lemma ContainerIs(gz: Gunzip, depth: nat, count: int, es: seq<Entry>, rest: seq<byte>)
    requires Int32(count) && count >= |es| && forall i :: 0 <= i < |es| ==> Sendable(es[i])
    requires count > |es| ==> ItemHead(rest).Broken?
    ensures Tree(gz, depth, ContainerMsg(count, es, rest)) == Container(Items(gz, depth, es), count == |es|)
  {
    hide W.Uint, W.Int, W.ReadUint, W.ReadInt, ContainerOf, EntriesBytes, Items, ItemHead;
    var body := EntriesBytes(es) + rest;
    assert ContainerMsg(count, es, rest) == W.Uint(0x73f1f8dc) + (W.Int(count) + body);
    W.UintRoundTrip(0x73f1f8dc, W.Int(count) + body);
    W.IntRoundTrip(count, body);
    EntriesAre(gz, depth, count, es, rest);
  }

  lemma {:induction false} EntriesAre(gz: Gunzip, depth: nat, count: int, es: seq<Entry>, rest: seq<byte>)
    requires count >= |es| && forall i :: 0 <= i < |es| ==> Sendable(es[i])
    requires count > |es| ==> ItemHead(rest).Broken?
    ensures ContainerOf(gz, depth, count, EntriesBytes(es) + rest) == Container(Items(gz, depth, es), count == |es|)
    decreases |es|
  {
    hide ItemHead, EntryBytes, Sendable, Tree;
    if |es| == 0 {
      assert EntriesBytes(es) + rest == rest;
    } else {
      var more := EntriesBytes(es[1..]) + rest;
      assert EntriesBytes(es) + rest == EntryBytes(es[0]) + more;
      WrittenHead(es[0], more);
      EntriesAre(gz, depth, count - 1, es[1..], rest);
      assert Items(gz, depth, es) == [Item(es[0].id, Tree(gz, depth, es[0].raw))] + Items(gz, depth, es[1..]);
    }
  }

  // ---- What callers get ----

  /**
   * Dispatching the answer to a pending request puts exactly that answer into its caller's channel,
   * removes the request, queues the message's id, and changes nothing else.
   */
  lemma AnswerReachesCaller(s: Core, gz: Gunzip, depth: nat, id: int, req: int, ctor: nat, tail: seq<byte>)
    requires s.Ready() && Int64(req) && Word(ctor) && ctor != 0x2144ca19 && ctor != 0x3072cfa1 && req in s.pending
    ensures s.pending[req] < |s.bufs|
    ensures var body := W.Uint(ctor) + tail; var n := s.pending[req];
      Effect(s, id, Tree(gz, depth, ResultMsg(req, body))) ==
        (Core(s.pending - {req}, s.closed, s.bufs[n := [Payload(body)]], s.acks + [id]), Done)
  {
    hide Tree, ResultMsg, W.Uint;
    PlainAnswer(gz, depth, req, ctor, tail);
    var r := Payload(W.Uint(ctor) + tail);
    HandParts(s.(acks := s.acks + [id]), req, r);
    assert s.bufs[s.pending[req]] + [r] == [r];
  }

  /** An answer nobody waits for is only acknowledged. */
  lemma AnswerToNobody(s: Core, gz: Gunzip, depth: nat, id: int, req: int, ctor: nat, tail: seq<byte>)
    requires s.Ready() && Int64(req) && Word(ctor) && ctor != 0x2144ca19 && ctor != 0x3072cfa1 && req !in s.pending
    ensures Effect(s, id, Tree(gz, depth, ResultMsg(req, W.Uint(ctor) + tail))) == (s.(acks := s.acks + [id]), Done)
  {
    hide Tree, ResultMsg, W.Uint;
    PlainAnswer(gz, depth, req, ctor, tail);
  }

  /** A packed answer that cannot be unpacked fails the call and the message. */
  lemma BadAnswerFails(s: Core, gz: Gunzip, depth: nat, id: int, req: int, packed: seq<byte>, rest: seq<byte>)
    requires s.Ready() && Int64(req) && |packed| < 0x100_0000 && gz(packed) == None && req in s.pending
    ensures s.pending[req] < |s.bufs|
    ensures var n := s.pending[req];
      Effect(s, id, Tree(gz, depth, ResultMsg(req, W.Uint(0x3072cfa1) + W.ByteString(packed) + rest))) ==
        (Core(s.pending - {req}, s.closed, s.bufs[n := [DecodeError]], s.acks + [id]), Failed)
  {
    hide Tree, ResultMsg, W.Uint, W.ByteString;
    PackedAnswer(gz, depth, req, packed, rest);
    HandParts(s.(acks := s.acks + [id]), req, DecodeError);
    assert s.bufs[s.pending[req]] + [DecodeError] == [DecodeError];
  }

  /** A container's effect is its items' one after the other, and one that is not whole never succeeds. */
  lemma ContainerEffect(s: Core, id: int, first: Item, more: seq<Item>, whole: bool)
    requires s.Ready()
    ensures var s1 := s.(acks := s.acks + [id]);
      var r := Effect(s1, first.id, first.msg);
      var all := Effect(s, id, Container([first] + more, whole));
      && (r.1 != Done ==> all == r)
      && (r.1 == Done ==> all.0 == EffectItems(r.0, more).0)
      && (r.1 == Done ==> (all.1 == Done <==> EffectItems(r.0, more).1 == Done && whole))
  {
    var items := [first] + more;
    var s1 := s.(acks := s.acks + [id]);
    hide Core.Ready, Effect;
    AckReady(s, id);
    ContainerUnfolds(s, id, items, whole);
    assert items[0] == first && items[1..] == more;
    assert EffectItem(s1, items[0]) == Effect(s1, first.id, first.msg);
  }

  lemma ContainerUnfolds(s: Core, id: int, items: seq<Item>, whole: bool)
    requires s.Ready() && s.(acks := s.acks + [id]).Ready()
    ensures Effect(s, id, Container(items, whole)) == WholeEffect(s.(acks := s.acks + [id]), Container(items, whole))
  {
    hide Core.Ready, WholeEffect, Hand;
  }
}
