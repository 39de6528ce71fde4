/** Dispatching a server message: containers, gzip layers, results and acknowledgements. */
module Dispatch {
  import opened Bytes
  import opened Rpc
  import W = Wire

  const CRC_GZIP: nat := 0x3072cfa1
  const CRC_RESULT: nat := 0xf35c6d01
  const CRC_ERROR: nat := 0x2144ca19
  const CRC_CONTAINER: nat := 0x73f1f8dc

  /** Decompression, None for data that is not gzip. */
  type Gunzip = seq<byte> -> Option<seq<byte>>

  // ---- The message as a tree ----

  /** A payload read to the end: Malformed where reading it fails, Unknown where gzip layers go
      deeper than the bound given. A container that breaks off keeps the items before the break. */
  datatype Msg =
    | Malformed
    | Container(items: seq<Item>, whole: bool)
    | Gzip(inner: Msg)
    | Result(req: int, res: RpcResult, bad: bool)
    | Other
    | Unknown
  datatype Item = Item(id: int, msg: Msg)

  function Decompress(gz: Gunzip, b: seq<byte>): (r: Option<seq<byte>>)
  {
    match W.ReadBytes(b) case Fail(_) => None case Ok(c, _) => gz(c)
  }

  /** The body of an rpc_result: the result, and whether it could not be read; None if it has no id. */
  function BodyOf(gz: Gunzip, body: seq<byte>): (r: Option<(RpcResult, bool)>)
    ensures r.None? <==> W.ReadUint(body).Fail?
  {
    match W.ReadUint(body)
    case Fail(_) => None
    case Ok(crc, inner) =>
      if crc == CRC_ERROR then
        match W.ReadInt(inner)
        case Fail(_) => Some((DecodeError, true))
        case Ok(code, text) =>
          match W.ReadBytes(text)
          case Fail(_) => Some((DecodeError, true))
          case Ok(t, _) => Some((ServerError(code, t), false))
      else if crc == CRC_GZIP then
        match Decompress(gz, inner)
        case None => Some((DecodeError, true))
        case Some(p) => Some((Payload(p), false))
      else Some((Payload(body), false))
  }

  /** An rpc_result after its constructor id; bad when its body cannot be read. */
  function ResultOf(gz: Gunzip, b: seq<byte>): (m: Msg)
    ensures m.Malformed? || m.Result?
  {
    match W.ReadLong(b)
    case Fail(_) => Malformed
    case Ok(req, body) =>
      match BodyOf(gz, body)
      case None => Malformed
      case Some((res, bad)) => Result(req, res, bad)
  }

  /** The tree of a payload; depth bounds the nesting of gzip layers, which nothing else bounds. */
  function Tree(gz: Gunzip, depth: nat, b: seq<byte>): (m: Msg)
    decreases depth, |b|, 1, 0
  {
    match W.ReadUint(b)
    case Fail(_) => Malformed
    case Ok(crc, rest) =>
      if crc == CRC_CONTAINER then
        match W.ReadInt(rest)
        case Fail(_) => Malformed
        case Ok(n, body) => ContainerOf(gz, depth, n, body)
      else if crc == CRC_GZIP then
        match Decompress(gz, rest)
        case None => Malformed
        case Some(p) => if depth == 0 then Unknown else Gzip(Tree(gz, depth - 1, p))
      else if crc == CRC_RESULT then ResultOf(gz, rest)
      else Other
  }

  datatype Head = Head(id: int, raw: seq<byte>, rest: seq<byte>) | Broken

  /** The next item of a container: id, sequence number, length and that many bytes. */
  function ItemHead(b: seq<byte>): (h: Head)
    ensures h.Head? ==> |h.raw| + |h.rest| + 16 == |b|
  {
    match W.ReadLong(b)
    case Fail(_) => Broken
    case Ok(id, b1) =>
      match W.ReadInt(b1)
      case Fail(_) => Broken
      case Ok(_, b2) =>
        match W.ReadInt(b2)
        case Fail(_) => Broken
        case Ok(n, b3) =>
          if n < 0 || n > |b3| then Broken else Head(id, b3[..n], b3[n..])
  }

  function ContainerOf(gz: Gunzip, depth: nat, n: int, b: seq<byte>): (m: Msg)
    ensures m.Container?
    decreases depth, |b|, 0, if n > 0 then n else 0
  {
    if n <= 0 then Container([], true)
    else
      match ItemHead(b)
      case Broken => Container([], false)
      case Head(id, raw, rest) =>
        var m := ContainerOf(gz, depth, n - 1, rest);
        Container([Item(id, Tree(gz, depth, raw))] + m.items, m.whole)
  }

  // ---- What dispatching it does ----

  /** The ids to acknowledge, in preorder; a gzip layer repeats its message's id. */
  function Preorder(id: int, m: Msg): (ids: seq<int>)
    decreases m, 1
  {
    [id] +
    match m
    case Container(items, _) => PreorderItems(items)
    case Gzip(inner) => Preorder(id, inner)
    case _ => []
  }

  function PreorderItems(items: seq<Item>): (ids: seq<int>)
    decreases items, 0
  {
    if |items| == 0 then [] else PreorderItem(items[0]) + PreorderItems(items[1..])
  }

  function PreorderItem(it: Item): (ids: seq<int>)
    decreases it, 0
  {
    Preorder(it.id, it.msg)
  }

  datatype Status = Done | Failed | TooDeep

  /** Handing a result to its caller, if there still is one. */
  ghost function Hand(s: Core, req: int, r: RpcResult): (s': Core)
    requires s.Ready()
    ensures s'.Ready() && s'.acks == s.acks
  {
    if req !in s.pending then s
    else
      var s' := SentTo(Removed(s, req), s.pending[req], r);
      s'
  }

  /** The effect of a message tree: acknowledge its id, then do its parts in order, until one fails. */
  ghost function Effect(s: Core, id: int, m: Msg): (r: (Core, Status))
    requires s.Ready()
    ensures r.0.Ready()
    decreases m, 1
  {
    var s1 := s.(acks := s.acks + [id]);
    match m
    case Malformed => (s1, Failed)
    case Container(items, whole) => WholeEffect(s1, m)
    case Gzip(inner) => Effect(s1, id, inner)
    case Result(req, res, bad) => (Hand(s1, req, res), if bad && req in s1.pending then Failed else Done)
    case Other => (s1, Done)
    case Unknown => (s1, TooDeep)
  }

  /** The effect of a container's items; breaking off before the last one is a failure. */
  ghost function WholeEffect(s: Core, m: Msg): (r: (Core, Status))
    requires s.Ready() && m.Container?
    ensures r.0.Ready()
    decreases m, 0
  {
    var r := EffectItems(s, m.items);
    if r.1.Done? && !m.whole then (r.0, Failed) else r
  }

  ghost function EffectItems(s: Core, items: seq<Item>): (r: (Core, Status))
    requires s.Ready()
    ensures r.0.Ready()
    decreases items, 0
  {
    if |items| == 0 then (s, Done)
    else
      var r := EffectItem(s, items[0]);
      if r.1.Done? then EffectItems(r.0, items[1..]) else r
  }

  ghost function EffectItem(s: Core, it: Item): (r: (Core, Status))
    requires s.Ready()
    ensures r.0.Ready()
    decreases it, 0
  {
    Effect(s, it.id, it.msg)
  }

  /** The ids queued between two states: all of ids if the run succeeded, otherwise a prefix. */
  ghost predicate Queued(s: Core, r: (Core, Status), ids: seq<int>)
  {
    && (r.1.Done? ==> r.0.acks == s.acks + ids)
    && exists k :: 0 <= k <= |ids| && r.0.acks == s.acks + ids[..k]
  }

  lemma QueuedAll(s: Core, r: (Core, Status), ids: seq<int>)
    requires r.0.acks == s.acks + ids
    ensures Queued(s, r, ids)
  {
    assert ids[..|ids|] == ids;
  }

  /** What is queued after more has been queued. */
  lemma QueuedAfter(s: Core, first: seq<int>, s1: Core, r: (Core, Status), ids: seq<int>)
    requires s1.acks == s.acks + first && Queued(s1, r, ids)
    ensures Queued(s, r, first + ids)
  {
    var k :| 0 <= k <= |ids| && r.0.acks == s1.acks + ids[..k];
    assert (first + ids)[..|first| + k] == first + ids[..k];
    assert r.0.acks == s.acks + (first + ids)[..|first| + k];
    if r.1.Done? {
      assert s1.acks + ids == s.acks + (first + ids);
    }
  }

  /** On success exactly the preorder ids are queued, on failure a prefix of them. */
  lemma {:induction false} AcksOfEffect(s: Core, id: int, m: Msg)
    requires s.Ready()
    ensures Queued(s, Effect(s, id, m), Preorder(id, m))
    decreases m, 1
  {
    hide Core.Ready, Queued, Hand;
    var s1 := s.(acks := s.acks + [id]);
    var r := Effect(s, id, m);
    match m
    case Container(items, whole) =>
      assert s1.Ready() by { AckReady(s, id); }
      assert r == WholeEffect(s1, m);
      AcksOfItems(s1, items);
      QueuedAfter(s, [id], s1, EffectItems(s1, items), PreorderItems(items));
      if r != EffectItems(s1, items) {
        QueuedFailed(s, EffectItems(s1, items), Preorder(id, m));
      }
    case Gzip(inner) =>
      assert s1.Ready() by { AckReady(s, id); }
      AcksOfEffect(s1, id, inner);
      QueuedAfter(s, [id], s1, r, Preorder(id, inner));
    case _ =>
      assert Preorder(id, m) == [id];
      QueuedAll(s, r, [id]);
  }

  lemma AckReady(s: Core, id: int)
    requires s.Ready()
    ensures s.(acks := s.acks + [id]).Ready()
  {
  }

  lemma QueuedFailed(s: Core, r: (Core, Status), ids: seq<int>)
    requires Queued(s, r, ids)
    ensures Queued(s, (r.0, Failed), ids)
  {
  }

  lemma {:induction false} AcksOfItems(s: Core, items: seq<Item>)
    requires s.Ready()
    ensures Queued(s, EffectItems(s, items), PreorderItems(items))
    decreases items, 0
  {
    if |items| == 0 {
      QueuedAll(s, EffectItems(s, items), []);
    } else {
      hide Core.Ready, Queued, EffectItem, PreorderItem;
      var r, ids, more := EffectItem(s, items[0]), PreorderItem(items[0]), PreorderItems(items[1..]);
      AcksOfItem(s, items[0]);
      if r.1.Done? {
        AcksOfItems(r.0, items[1..]);
        QueuedDone(s, r, ids);
        QueuedAfter(s, ids, r.0, EffectItems(s, items), more);
      } else {
        QueuedPrefix(s, r, ids, more);
      }
    }
  }

  lemma QueuedDone(s: Core, r: (Core, Status), ids: seq<int>)
    requires Queued(s, r, ids) && r.1.Done?
    ensures r.0.acks == s.acks + ids
  {
  }

  lemma QueuedPrefix(s: Core, r: (Core, Status), ids: seq<int>, more: seq<int>)
    requires Queued(s, r, ids) && !r.1.Done?
    ensures Queued(s, r, ids + more)
  {
    var k :| 0 <= k <= |ids| && r.0.acks == s.acks + ids[..k];
    assert (ids + more)[..k] == ids[..k];
  }

  lemma {:induction false} AcksOfItem(s: Core, it: Item)
    requires s.Ready()
    ensures Queued(s, EffectItem(s, it), PreorderItem(it))
    decreases it, 0
  {
    AcksOfEffect(s, it.id, it.msg);
  }

  /** The effects of the items before a failing one stay: the run is that of the items up to it. */
  lemma {:induction false} EarlierItemsStay(s: Core, items: seq<Item>, more: seq<Item>)
    requires s.Ready()
    ensures EffectItems(s, items + more) ==
      if EffectItems(s, items).1.Done? then EffectItems(EffectItems(s, items).0, more) else EffectItems(s, items)
    decreases |items|
  {
    if |items| == 0 {
      assert items + more == more;
    } else {
      hide Core.Ready, EffectItem;
      var all := items + more;
      assert all[0] == items[0] && all[1..] == items[1..] + more;
      var r := EffectItem(s, items[0]);
      if r.1.Done? {
        EarlierItemsStay(r.0, items[1..], more);
      }
    }
  }

  /** No node of the tree was cut off by the bound on gzip layers. */
  predicate Bounded(m: Msg)
  {
    match m
    case Unknown => false
    case Gzip(inner) => Bounded(inner)
    case Container(items, _) => forall i :: 0 <= i < |items| ==> Bounded(items[i].msg)
    case _ => true
  }

  /** A bound that is large enough does not matter: a larger one gives the same tree. */
  lemma {:induction false} TreeStable(gz: Gunzip, depth: nat, more: nat, b: seq<byte>)
    requires depth <= more && Bounded(Tree(gz, depth, b))
    ensures Tree(gz, more, b) == Tree(gz, depth, b)
    decreases depth, |b|, 1, 0
  {
    hide W.ReadUint, W.ReadInt, Decompress, ResultOf, ContainerOf;
    var r := W.ReadUint(b);
    if r.Ok? && r.value == CRC_CONTAINER {
      var n := W.ReadInt(r.rest);
      if n.Ok? {
        ContainerStable(gz, depth, more, n.value, n.rest);
      }
    } else if r.Ok? && r.value == CRC_GZIP {
      var p := Decompress(gz, r.rest);
      if p.Some? && depth > 0 {
        TreeStable(gz, depth - 1, more - 1, p.value);
      }
    }
  }

  lemma {:induction false} ContainerStable(gz: Gunzip, depth: nat, more: nat, n: int, b: seq<byte>)
    requires depth <= more && Bounded(ContainerOf(gz, depth, n, b))
    ensures ContainerOf(gz, more, n, b) == ContainerOf(gz, depth, n, b)
    decreases depth, |b|, 0, if n > 0 then n else 0
  {
    hide ItemHead, Decompress;
    var h := ItemHead(b);
    if n > 0 && h.Head? {
      var m, m' := ContainerOf(gz, depth, n, b), ContainerOf(gz, depth, n - 1, h.rest);
      assert m.items[0].msg == Tree(gz, depth, h.raw);
      assert forall i :: 0 <= i < |m'.items| ==> m'.items[i] == m.items[i + 1];
      TreeStable(gz, depth, more, h.raw);
      ContainerStable(gz, depth, more, n - 1, h.rest);
    }
  }

  /** One turn of the container loop. */
  lemma ContainerStep(s: Core, gz: Gunzip, depth: nat, n: int, b: seq<byte>)
    requires s.Ready() && n > 0
    ensures var whole := WholeEffect(s, ContainerOf(gz, depth, n, b));
      match ItemHead(b)
      case Broken => whole == (s, Failed)
      case Head(id, raw, rest) =>
        var r := Effect(s, id, Tree(gz, depth, raw));
        whole == if r.1.Done? then WholeEffect(r.0, ContainerOf(gz, depth, n - 1, rest)) else r
  {
    hide Core.Ready, Effect, Tree, ItemHead;
    match ItemHead(b)
    case Broken =>
    case Head(id, raw, rest) =>
      var m, m' := ContainerOf(gz, depth, n, b), ContainerOf(gz, depth, n - 1, rest);
      assert m.items[0] == Item(id, Tree(gz, depth, raw)) && m.items[1..] == m'.items && m.whole == m'.whole;
      assert EffectItem(s, m.items[0]) == Effect(s, id, Tree(gz, depth, raw));
  }

  lemma ContainerEnd(s: Core, gz: Gunzip, depth: nat, n: int, b: seq<byte>)
    requires s.Ready() && n <= 0
    ensures WholeEffect(s, ContainerOf(gz, depth, n, b)) == (s, Done)
  {
  }

  /** Close is under way: t has failed those of the pending calls of s that it no longer holds. */
  ghost predicate Closing(s: Core, t: Core)
  {
    && t.closed && t.acks == s.acks && |t.bufs| == |s.bufs| && s.Ready()
    && (forall id :: id in t.pending ==> id in s.pending && t.pending[id] == s.pending[id])
    && (forall n :: 0 <= n < |s.bufs| ==>
          t.bufs[n] == if IsPending(s, n) && !IsPending(t, n) then s.bufs[n] + [EngineClosed] else s.bufs[n])
  }

  lemma SomeKey(p: map<int, nat>)
    ensures p == map[] || exists id :: id in p
  {
    if forall id :: id !in p {
      assert p == map[];
    }
  }

  lemma ClosingStart(s: Core)
    requires s.Ready()
    ensures Closing(s, s.(closed := true))
  {
    assert forall n :: 0 <= n < |s.bufs| ==> IsPending(s.(closed := true), n) == IsPending(s, n);
  }

  lemma ClosingStep(s: Core, t: Core, t': Core, id: int)
    requires Closing(s, t) && id in t.pending && t.pending[id] < |t.bufs|
    requires t' == SentTo(Removed(t, id), t.pending[id], EngineClosed)
    ensures Closing(s, t')
  {
    var n := t.pending[id];
    PendingWitness(s, id);
    PendingWitness(t, id);
    forall m | 0 <= m < |s.bufs|
      ensures t'.bufs[m] == if IsPending(s, m) && !IsPending(t', m) then s.bufs[m] + [EngineClosed] else s.bufs[m]
    {
      if m != n && IsPending(t, m) {
        var i :| i in t.pending && t.pending[i] == m;
        assert i in t'.pending && t'.pending[i] == m;
      }
    }
  }

  lemma ClosingEnd(s: Core, t: Core)
    requires Closing(s, t) && t.pending == map[]
    ensures t == Closed(s) && t.Ready()
  {
    assert forall n :: 0 <= n < |s.bufs| ==> !IsPending(t, n);
    assert t.bufs == Closed(s).bufs;
    forall n | 0 <= n < |t.bufs| ensures |t.bufs[n]| <= 1 {
      if IsPending(s, n) {
        var i :| i in s.pending && s.pending[i] == n;
      }
    }
  }

  lemma CallNumber(s: Core, req: int)
    requires s.Ready() && req in s.pending
    ensures s.pending[req] < |s.bufs|
  {
  }

  /** Handing over a result, field by field. */
  lemma HandParts(s: Core, req: int, r: RpcResult)
    requires s.Ready() && req in s.pending && s.pending[req] < |s.bufs|
    ensures var n := s.pending[req];
      Hand(s, req, r) == Core(s.pending - {req}, s.closed, s.bufs[n := s.bufs[n] + [r]], s.acks)
  {
  }

  lemma HandNobody(s: Core, req: int)
    requires s.Ready() && req !in s.pending
    ensures forall r :: Hand(s, req, r) == s
  {
  }

  // ---- The engine ----

  class Engine {
    const gunzip: Gunzip
    var pending: map<int, nat>
    var closed: bool
    var bufs: seq<seq<RpcResult>>
    var ackIDs: seq<int>

    ghost function View(): (s: Core) reads this { Core(pending, closed, bufs, ackIDs) }

    ghost predicate Valid() reads this { View().Ready() }

    constructor (gunzip: Gunzip)
      ensures Valid() && View() == START.core && this.gunzip == gunzip
    {
      this.gunzip := gunzip;
      pending, closed, bufs, ackIDs := map[], false, [], [];
    }

    /** Register: the number of the new call. */
    method Register(msgID: int) returns (n: nat)
      requires Valid()
      modifies this
      ensures Valid() && View() == Registered(old(View()), msgID) && n == |old(bufs)|
    {
      n := |bufs|;
      if closed {
        bufs := bufs + [[EngineClosed]];
        return;
      }
      bufs := bufs + [[]];
      pending := pending[msgID := n];
    }

    method CancelCall(msgID: int)
      requires Valid()
      modifies this
      ensures Valid() && View() == Removed(old(View()), msgID)
    {
      pending := pending - {msgID};
    }

    /** PopAcks: the queued ids, which are then forgotten. */
    method PopAcks() returns (out: seq<int>)
      requires Valid()
      modifies this
      ensures Valid() && out == old(ackIDs) && View() == old(View()).(acks := [])
    {
      out := ackIDs;
      ackIDs := ackIDs[..0];
    }

    /** Close: a send to every pending call, one by one, each removing its entry. */
    method CloseEngine()
      requires Valid()
      modifies this
      ensures Valid() && View() == Closed(old(View()))
    {
      hide IsPending;
      closed := true;
      ghost var s := old(View());
      ClosingStart(s);
      while pending != map[]
        invariant Closing(s, View())
        decreases pending.Keys
      {
        SomeKey(pending);
        var id :| id in pending;
        ghost var before := View();
        var n := pending[id];
        bufs := bufs[n := bufs[n] + [EngineClosed]];
        pending := pending - {id};
        ClosingStep(s, before, View(), id);
      }
      ClosingEnd(s, View());
    }

    /** Dispatch: the effect of the message's tree. */
    method Dispatch(depth: nat, msgID: int, payload: seq<byte>) returns (st: Status)
      requires Valid()
      modifies this
      ensures Valid() && (View(), st) == Effect(old(View()), msgID, Tree(gunzip, depth, payload))
      decreases depth, |payload|, 1, 0
    {
      hide W.ReadUint, W.ReadInt, W.ReadBytes, W.ReadLong, ContainerOf, ResultOf, EffectItems, Hand;
      ackIDs := ackIDs + [msgID];
      var d := new W.Decoder(payload);
      var crc := d.PeekUint();
      if crc.Failure? {
        return Failed;
      }
      if crc.value == CRC_CONTAINER {
        st := HandleContainer(depth, payload);
      } else if crc.value == CRC_GZIP {
        var _ := d.Uint();
        var p := DecompressGzip(d);
        if p == None {
          return Failed;
        }
        if depth == 0 {
          return TooDeep;
        }
        st := Dispatch(depth - 1, msgID, p.value);
      } else if crc.value == CRC_RESULT {
        st := HandleRPCResult(payload);
      } else {
        st := Done;
      }
    }

    method DecompressGzip(d: W.Decoder) returns (p: Option<seq<byte>>)
      requires d.Valid()
      modifies d
      ensures p == Decompress(gunzip, old(d.Rest()))
    {
      var c := d.Bytes();
      p := if c.Success? then gunzip(c.value) else None;
    }

    method HandleContainer(depth: nat, payload: seq<byte>) returns (st: Status)
      requires Valid() && W.ReadUint(payload).Ok? && W.ReadUint(payload).value == CRC_CONTAINER
      modifies this
      ensures match W.ReadInt(W.ReadUint(payload).rest)
        case Fail(_) => st == Failed && View() == old(View())
        case Ok(n, b) => (View(), st) == WholeEffect(old(View()), ContainerOf(gunzip, depth, n, b))
      ensures Valid()
      decreases depth, |payload|, 0, 0
    {
      hide W.ReadUint, W.ReadInt, WholeEffect, ContainerOf, Core.Ready;
      var d := new W.Decoder(payload);
      var _ := d.Uint();
      var count := d.Int();
      if count.Failure? {
        return Failed;
      }
      st := DispatchItems(depth, d, count.value);
    }

    /** The loop over the items. */
    method DispatchItems(depth: nat, d: W.Decoder, n: int) returns (st: Status)
      requires Valid() && d.Valid()
      modifies this, d`pos
      ensures Valid() && (View(), st) == WholeEffect(old(View()), ContainerOf(gunzip, depth, n, old(d.Rest())))
      decreases depth, |d.Rest()|, 0, 1
    {
      hide ItemHead, Tree, Effect, WholeEffect, ContainerOf, Core.Ready;
      var i := 0;
      ghost var goal := WholeEffect(View(), ContainerOf(gunzip, depth, n, d.Rest()));
      while i < n
        invariant Valid() && d.Valid() && d.pos >= old(d.pos)
        invariant goal == WholeEffect(View(), ContainerOf(gunzip, depth, n - i, d.Rest()))
        decreases n - i
      {
        ContainerStep(View(), gunzip, depth, n - i, d.Rest());
        st := DispatchItem(depth, d);
        if !st.Done? {
          return;
        }
        i := i + 1;
      }
      ContainerEnd(View(), gunzip, depth, n - i, d.Rest());
      st := Done;
    }

    /** The body of the loop: the next item off the decoder, and its effect. */
    method DispatchItem(depth: nat, d: W.Decoder) returns (st: Status)
      requires Valid() && d.Valid()
      modifies this, d`pos
      ensures Valid() && d.Valid() && d.pos >= old(d.pos)
      ensures match ItemHead(old(d.Rest()))
        case Broken => st == Failed && View() == old(View())
        case Head(id, raw, rest) =>
          (View(), st) == Effect(old(View()), id, Tree(gunzip, depth, raw)) && d.Rest() == rest
      decreases depth, |d.Rest()|, 0, 0
    {
      hide ItemHead, Tree, Effect, Core.Ready;
      var head := NextItem(d);
      if head == None {
        return Failed;
      }
      var (innerID, raw) := head.value;
      st := Dispatch(depth, innerID, raw);
    }

    /** The next item of a container off the decoder. */
    method NextItem(d: W.Decoder) returns (r: Option<(int, seq<byte>)>)
      requires d.Valid()
      modifies d`pos
      ensures d.Valid() && d.pos >= old(d.pos)
      ensures match ItemHead(old(d.Rest()))
        case Broken => r == None
        case Head(id, raw, rest) => r == Some((id, raw)) && d.Rest() == rest
    {
      var id := d.Long();
      if id.Failure? {
        return None;
      }
      var seqNo := d.Int();
      if seqNo.Failure? {
        return None;
      }
      var n := d.Int();
      if n.Failure? {
        return None;
      }
      if n.value < 0 || n.value > |d.buf| - d.pos {
        return None;
      }
      var raw := d.Raw(n.value);
      r := Some((id.value, raw.value));
    }

    /** handleRPCResult: the call is taken from the map first and its result sent afterwards. */
    method HandleRPCResult(payload: seq<byte>) returns (st: Status)
      requires Valid() && W.ReadUint(payload).Ok?
      modifies this
      ensures match ResultOf(gunzip, W.ReadUint(payload).rest)
        case Result(req, res, bad) =>
          View() == Hand(old(View()), req, res) && st == if bad && req in old(pending) then Failed else Done
        case _ => View() == old(View()) && st == Failed
      ensures Valid()
    {
      hide W.ReadUint, W.ReadLong, Core.Ready, BodyOf, Hand;
      ghost var s := View();
      var req, d := ReadHead(payload);
      if req == None {
        return Failed;
      }
      if req.value !in pending {
        HandNobody(s, req.value);
        return Done;
      }
      CallNumber(s, req.value);
      var n := pending[req.value];
      pending := pending - {req.value};
      var res, bad := ReadResult(d);
      HandParts(s, req.value, res);
      st := if bad then Failed else Done;
      bufs := bufs[n := bufs[n] + [res]];
    }

    /** The id a result is for, and a decoder at its body; None if either cannot be read. */
    method ReadHead(payload: seq<byte>) returns (req: Option<int>, d: W.Decoder)
      requires W.ReadUint(payload).Ok?
      ensures fresh(d) && d.Valid()
      ensures match W.ReadLong(W.ReadUint(payload).rest)
        case Fail(_) => req == None
        case Ok(id, body) =>
          if W.ReadUint(body).Fail? then req == None else req == Some(id) && d.Rest() == body
    {
      hide W.ReadUint, W.ReadLong;
      d := new W.Decoder(payload);
      var _ := d.Uint();
      var id := d.Long();
      if id.Failure? {
        return None, d;
      }
      var inner := d.PeekUint();
      req := if inner.Failure? then None else Some(id.value);
    }

    /** The body of a result: an error, gzip-packed data, or everything that is left. */
    method ReadResult(d: W.Decoder) returns (res: RpcResult, bad: bool)
      requires d.Valid() && W.ReadUint(d.Rest()).Ok?
      modifies d
      ensures BodyOf(gunzip, old(d.Rest())) == Some((res, bad))
    {
      hide W.ReadUint, W.ReadInt, W.ReadBytes, Decompress;
      var inner := d.PeekUint();
      if inner.value == CRC_ERROR {
        var _ := d.Uint();
        var code := d.Int();
        if code.Failure? {
          return DecodeError, true;
        }
        var text := d.Bytes();
        if text.Failure? {
          return DecodeError, true;
        }
        return ServerError(code.value, text.value), false;
      }
      if inner.value == CRC_GZIP {
        var _ := d.Uint();
        var p := DecompressGzip(d);
        if p == None {
          return DecodeError, true;
        }
        return Payload(p.value), false;
      }
      return Payload(d.Rest()), false;
    }
  }
}
