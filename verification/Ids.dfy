/** Message identifiers and sequence numbers of one session. */
module Ids {
  import opened Bytes

  const SECOND: nat := 1_000_000_000
  const MAX: int := 0x7fff_ffff_ffff_ffff

  // ---- Message identifiers ----

  /** The identifier a clock reading (nanoseconds since 1970) stands for: the seconds above bit 32,
      the nanoseconds below, the two low bits zero; in 64-bit arithmetic. */
  function ClockId(now: int): (t: int)
    ensures t % 4 == 0 && t <= MAX
  {
    LowBitsZero(now / SECOND, now % SECOND / 4);
    ToInt64(now / SECOND * TWO_32 + now % SECOND / 4 * 4)
  }

  lemma LowBitsZero(a: int, b: int)
    ensures var t := ToInt64(a * TWO_32 + b * 4); t % 4 == 0 && t <= MAX
  {
    var c := a * 0x4000_0000 + b;
    assert a * TWO_32 + b * 4 == 4 * c;
    Int64OfMultiple(c);
  }

  lemma Int64OfMultiple(c: int)
    ensures ToInt64(4 * c) % 4 == 0 && ToInt64(4 * c) <= MAX
  {
  }

  /** The identifier after `last` at clock identifier t. */
  function NextId(last: int, t: int): (id: int)
  {
    if t <= last then ToInt64(last + 4) else t
  }

  class MessageIDGenerator {
    var lastID: int
    var offset: int

    constructor ()
      ensures lastID == 0 && offset == 0
    {
      lastID, offset := 0, 0;
    }

    method SetServerTimeOffset(d: int)
      modifies this`offset
      ensures offset == d
    {
      offset := d;
    }

    /** Next, at wall-clock reading `wall`. */
    method Next(wall: int) returns (id: int)
      modifies this`lastID
      ensures id == lastID == NextId(old(lastID), ClockId(wall + offset))
    {
      var now := wall + offset;
      var sec, nano := now / SECOND, now % SECOND;
      id := ToInt64(sec * TWO_32 + nano / 4 * 4);
      if id <= lastID {
        id := ToInt64(lastID + 4);
      }
      lastID := id;
    }
  }

  /** The last of the identifiers handed out for the clock identifiers ts; 0 before the first. */
  function IdAfter(ts: seq<int>): (id: int)
  {
    if |ts| == 0 then 0 else NextId(IdAfter(ts[..|ts| - 1]), ts[|ts| - 1])
  }

  /** The clock identifiers ts leave room in 64 bits for as many further steps as follow each. */
  ghost predicate Fits(ts: seq<int>)
  {
    && 4 * |ts| <= MAX
    && forall j :: 0 <= j < |ts| ==> ts[j] % 4 == 0 && ts[j] + 4 * (|ts| - 1 - j) <= MAX
  }

  lemma NextIdIsMax(last: int, t: int)
    requires last % 4 == 0 && t % 4 == 0 && 0 <= last && last + 4 <= MAX
    ensures NextId(last, t) == if t > last + 4 then t else last + 4
  {
  }

  /**
   * For every sequence of readings, backward jumps included, the identifier of call k is the
   * largest of 4k and t_j + 4(k - j) over the calls j up to k.
   */
  lemma {:induction false} IdClosedForm(ts: seq<int>)
    requires Fits(ts) && |ts| > 0
    ensures Largest(ts, IdAfter(ts)) && IdAfter(ts) % 4 == 0
  {
    hide NextId, Largest;
    var k := |ts|;
    var front, t := ts[..k - 1], ts[k - 1];
    var last := IdAfter(front);
    if k > 1 {
      FitsFront(ts);
      IdClosedForm(front);
      LargestFits(ts, last);
    }
    NextIdIsMax(last, t);
    LargestStep(ts, last);
  }

  /** id is the largest of 4k and all t_j + 4(k - j). */
  ghost predicate Largest(ts: seq<int>, id: int)
  {
    var k := |ts|;
    && id >= 4 * k
    && (forall j :: 0 <= j < k ==> id >= ts[j] + 4 * (k - 1 - j))
    && (id == 4 * k || exists j :: 0 <= j < k && id == ts[j] + 4 * (k - 1 - j))
  }

  lemma FitsFront(ts: seq<int>)
    requires Fits(ts) && |ts| > 0
    ensures Fits(ts[..|ts| - 1])
  {
  }

  lemma LargestFits(ts: seq<int>, last: int)
    requires Fits(ts) && |ts| > 1 && Largest(ts[..|ts| - 1], last)
    ensures 0 <= last && last + 4 <= MAX
  {
    var k := |ts|;
    if last != 4 * (k - 1) {
      var j :| 0 <= j < k - 1 && last == ts[..k - 1][j] + 4 * (k - 2 - j);
      assert ts[j] + 4 * (k - 1 - j) <= MAX;
    }
  }

  lemma LargestStep(ts: seq<int>, last: int)
    requires |ts| > 0 && if |ts| == 1 then last == 0 else Largest(ts[..|ts| - 1], last)
    ensures var t := ts[|ts| - 1]; Largest(ts, if t > last + 4 then t else last + 4)
  {
    var k := |ts|;
    var t := ts[k - 1];
    assert t == t + 4 * (k - 1 - (k - 1));
    if k > 1 {
      var front := ts[..k - 1];
      forall j | 0 <= j < k - 1 ensures last + 4 >= ts[j] + 4 * (k - 1 - j) {
        assert last >= front[j] + 4 * (k - 2 - j);
      }
      if last != 4 * (k - 1) {
        var j :| 0 <= j < k - 1 && last == front[j] + 4 * (k - 2 - j);
        assert last + 4 == ts[j] + 4 * (k - 1 - j);
      }
    }
  }

  /** Hence the identifiers strictly increase from call to call, and stay multiples of 4. */
  lemma IdsIncrease(ts: seq<int>, k: nat)
    requires Fits(ts) && k < |ts|
    ensures IdAfter(ts[..k]) < IdAfter(ts[..k + 1])
    ensures IdAfter(ts[..k + 1]) % 4 == 0
  {
    var now, before := ts[..k + 1], ts[..k];
    assert now[..k] == before;
    assert Fits(now);
    IdClosedForm(now);
    if k > 0 {
      assert Fits(before);
      IdClosedForm(before);
      if IdAfter(before) != 4 * k {
        var j :| 0 <= j < k && IdAfter(before) == before[j] + 4 * (k - 1 - j);
        assert IdAfter(before) + 4 <= MAX;
      }
    }
  }

  /** A single step increases the identifier unless it overflows, and only then does it not. */
  lemma StepIncreases(last: int, t: int)
    requires -0x8000_0000_0000_0000 <= last <= MAX && -0x8000_0000_0000_0000 <= t <= MAX
    ensures NextId(last, t) > last <==> t > last || last + 4 <= MAX
  {
  }

  // ---- Identifiers and the clock ----

  /**
   * Until 2038 the identifier of a reading carries the time: the whole seconds above bit 32, and
   * below it the largest multiple of 4 not above the nanoseconds left.
   */
  lemma ClockIdIsTime(now: int)
    requires 0 <= now < 0x8000_0000 * 1_000_000_000
    ensures var t := ClockId(now); var high, low := t / 0x1_0000_0000, t % 0x1_0000_0000;
      && high * 1_000_000_000 <= now < (high + 1) * 1_000_000_000
      && low % 4 == 0 && low <= now - high * 1_000_000_000 < low + 4
  {
    var sec, nano := now / SECOND, now % SECOND;
    var low := nano / 4 * 4;
    ExactClock(sec, low);
    DivModUnique(sec * TWO_32 + low, TWO_32, sec, low);
  }

  lemma ExactClock(sec: int, low: int)
    requires 0 <= sec < TWO_31 && 0 <= low < TWO_32
    ensures ToInt64(sec * TWO_32 + low) == sec * TWO_32 + low
  {
    var x := sec * TWO_32 + low;
    assert 0 <= x < TWO_63;
  }

  /** Later readings have identifiers that are no smaller; 4 ns apart, and in another second, larger ones. */
  lemma ClockIdMonotone(a: int, b: int)
    requires 0 <= a <= b < 0x8000_0000 * 1_000_000_000
    ensures ClockId(a) <= ClockId(b)
    ensures b >= a + 4 || a / 1_000_000_000 < b / 1_000_000_000 ==> ClockId(a) + 4 <= ClockId(b)
  {
    hide ClockId;
    ClockIdIsTime(a);
    ClockIdIsTime(b);
    var ta, tb := ClockId(a), ClockId(b);
    var ha, hb := ta / 0x1_0000_0000, tb / 0x1_0000_0000;
    assert ha <= hb;
    assert a / 1_000_000_000 == ha && b / 1_000_000_000 == hb;
  }

  /** The clock identifiers of readings. */
  function Clocks(ws: seq<int>): (ts: seq<int>)
    ensures |ts| == |ws| && forall i :: 0 <= i < |ws| ==> ts[i] == ClockId(ws[i])
  {
    seq(|ws|, i requires 0 <= i < |ws| => ClockId(ws[i]))
  }

  /** Readings in the range of ClockIdIsTime that do not go back. */
  ghost predicate Forward(ws: seq<int>)
  {
    && (forall i :: 0 <= i < |ws| ==> 0 <= ws[i] < 0x8000_0000 * 1_000_000_000)
    && (forall i, j :: 0 <= i <= j < |ws| ==> ws[i] <= ws[j])
  }

  /** Without backward jumps the k-th identifier is at most 4k ahead of the clock, and never behind it. */
  lemma ForwardIds(ws: seq<int>)
    requires Forward(ws) && |ws| > 0 && Fits(Clocks(ws))
    ensures var k := |ws|; var now := ClockId(ws[k - 1]);
      now <= IdAfter(Clocks(ws)) <= now + 4 * k
  {
    hide IdAfter, ClockId, Fits;
    var k, ts := |ws|, Clocks(ws);
    IdClosedForm(ts);
    var id := IdAfter(ts);
    assert ts[k - 1] >= 0 by { ClockIdNatural(ws[k - 1]); }
    assert id >= ts[k - 1] + 4 * (k - 1 - (k - 1));
    if id != 4 * k {
      var j :| 0 <= j < k && id == ts[j] + 4 * (k - 1 - j);
      ClockIdMonotone(ws[j], ws[k - 1]);
    }
  }

  lemma ClockIdNatural(now: int)
    requires 0 <= now < 0x8000_0000 * 1_000_000_000
    ensures ClockId(now) >= 0
  {
    ExactClock(now / SECOND, now % SECOND / 4 * 4);
  }

  /** With readings at least 4 ns apart every identifier is exactly its clock reading's. */
  lemma {:induction false} SpacedIds(ws: seq<int>)
    requires Forward(ws) && |ws| > 0 && ws[0] >= 4
    requires forall i :: 0 < i < |ws| ==> ws[i] >= ws[i - 1] + 4
    ensures IdAfter(Clocks(ws)) == ClockId(ws[|ws| - 1])
    decreases |ws|
  {
    hide ClockId;
    var k, ts := |ws|, Clocks(ws);
    var front := ws[..k - 1];
    assert ts[..k - 1] == Clocks(front);
    if k == 1 {
      FirstClock(ws[0]);
      assert ts[..0] == [];
    } else {
      SpacedIds(front);
      ClockIdMonotone(ws[k - 2], ws[k - 1]);
    }
  }

  lemma FirstClock(now: int)
    requires 4 <= now < 0x8000_0000 * 1_000_000_000
    ensures ClockId(now) > 0
  {
    hide ClockId;
    ClockIdIsTime(now);
    ClockIdNatural(now);
  }

  // ---- Sequence numbers ----

  class SequenceGenerator {
    var contentCount: int

    constructor ()
      ensures contentCount == 0
    {
      contentCount := 0;
    }

    method Next(contentRelated: bool) returns (seqNo: int)
      modifies this
      ensures seqNo == ToInt32(old(contentCount) * 2 + if contentRelated then 1 else 0)
      ensures contentCount == if contentRelated then ToInt32(old(contentCount) + 1) else old(contentCount)
    {
      if contentRelated {
        seqNo := ToInt32(contentCount * 2 + 1);
        contentCount := ToInt32(contentCount + 1);
      } else {
        seqNo := ToInt32(contentCount * 2);
      }
    }
  }

  /** How many of the messages are content-related. */
  function ContentCount(msgs: seq<bool>): (n: nat)
  {
    if |msgs| == 0 then 0
    else ContentCount(msgs[..|msgs| - 1]) + if msgs[|msgs| - 1] then 1 else 0
  }

  /** The generator's 32-bit counter after the messages. */
  function CounterAfter(msgs: seq<bool>): (c: int)
  {
    if |msgs| == 0 then 0
    else
      var c := CounterAfter(msgs[..|msgs| - 1]);
      if msgs[|msgs| - 1] then ToInt32(c + 1) else c
  }

  /** 32-bit arithmetic on a 32-bit counter is exact arithmetic, reduced at the end. */
  lemma Wrap32(x: int, b: int)
    ensures ToInt32(ToInt32(x) * 2 + b) == ToInt32(x * 2 + b)
    ensures ToInt32(ToInt32(x) + b) == ToInt32(x + b)
  {
    var w := ToInt32(x);
    var k := (x - w) / TWO_32;
    assert x == w + k * TWO_32;
    SameResidue(w * 2 + b, 2 * k);
    SameResidue(w + b, k);
  }

  lemma SameResidue(x: int, k: int)
    ensures ToInt32(x + k * TWO_32) == ToInt32(x)
  {
    var m: int := TWO_32;
    assert x + k * m == (x / m + k) * m + x % m;
    DivModUnique(x + k * m, m, x / m + k, x % m);
  }

  lemma {:induction false} CounterIsCount(msgs: seq<bool>)
    ensures CounterAfter(msgs) == ToInt32(ContentCount(msgs))
  {
    if |msgs| > 0 {
      hide ToInt32;
      CounterIsCount(msgs[..|msgs| - 1]);
      Wrap32(ContentCount(msgs[..|msgs| - 1]), 1);
    }
  }

  /** The number of message k: twice the content-related messages before it, plus 1 for content. */
  lemma SeqNoLaw(msgs: seq<bool>, content: bool)
    ensures ToInt32(CounterAfter(msgs) * 2 + if content then 1 else 0)
         == ToInt32(ContentCount(msgs) * 2 + if content then 1 else 0)
  {
    hide ToInt32;
    CounterIsCount(msgs);
    Wrap32(ContentCount(msgs), if content then 1 else 0);
  }

  // ---- Several senders ----

  /** One lock-protected call: sender s takes its identifier, or its sequence number. */
  datatype Event = TakeId(s: nat, t: int) | TakeSeq(s: nat, content: bool)

  function Readings(evs: seq<Event>): (ts: seq<int>)
  {
    if |evs| == 0 then []
    else
      var front, e := Readings(evs[..|evs| - 1]), evs[|evs| - 1];
      if e.TakeId? then front + [e.t] else front
  }

  function Messages(evs: seq<Event>): (ms: seq<bool>)
  {
    if |evs| == 0 then []
    else
      var front, e := Messages(evs[..|evs| - 1]), evs[|evs| - 1];
      if e.TakeSeq? then front + [e.content] else front
  }

  /** The identifier taken by event k, and the sequence number taken by event k. */
  function IdAt(evs: seq<Event>, k: nat): (id: int)
    requires k < |evs| && evs[k].TakeId?
  {
    IdAfter(Readings(evs[..k + 1]))
  }

  function SeqAt(evs: seq<Event>, k: nat): (n: nat)
    requires k < |evs| && evs[k].TakeSeq?
  {
    ContentCount(Messages(evs[..k])) * 2 + if evs[k].content then 1 else 0
  }

  lemma {:induction false} ReadingsGrow(evs: seq<Event>, p: nat, q: nat)
    requires p <= q <= |evs|
    ensures Readings(evs[..p]) <= Readings(evs[..q])
    ensures p < q && evs[q - 1].TakeId? ==> |Readings(evs[..p])| < |Readings(evs[..q])|
    decreases q
  {
    if p < q {
      ReadingsGrow(evs, p, q - 1);
      assert evs[..q][..q - 1] == evs[..q - 1];
    }
  }

  lemma {:induction false} IdsIncreaseFar(ts: seq<int>, i: nat, j: nat)
    requires Fits(ts) && 0 < i < j <= |ts|
    ensures IdAfter(ts[..i]) < IdAfter(ts[..j])
    decreases j
  {
    IdsIncrease(ts, j - 1);
    if i < j - 1 {
      IdsIncreaseFar(ts, i, j - 1);
    }
  }

  /** Identifiers are in the order of the calls that took them. */
  lemma IdOrder(evs: seq<Event>, p: nat, q: nat)
    requires p < q < |evs| && evs[p].TakeId? && evs[q].TakeId? && Fits(Readings(evs))
    ensures IdAt(evs, p) < IdAt(evs, q)
  {
    hide Fits, Readings;
    var ts := Readings(evs);
    ReadingsGrow(evs, p, p + 1);
    ReadingsGrow(evs, p + 1, q + 1);
    ReadingsGrow(evs, q + 1, |evs|);
    assert evs[..|evs|] == evs;
    var i, j := |Readings(evs[..p + 1])|, |Readings(evs[..q + 1])|;
    assert ts[..i] == Readings(evs[..p + 1]) && ts[..j] == Readings(evs[..q + 1]);
    IdsIncreaseFar(ts, i, j);
  }

  lemma {:induction false} MessagesGrow(evs: seq<Event>, p: nat, q: nat)
    requires p < q <= |evs| && evs[p].TakeSeq?
    ensures ContentCount(Messages(evs[..q])) >= ContentCount(Messages(evs[..p])) + if evs[p].content then 1 else 0
    decreases q
  {
    assert evs[..q][..q - 1] == evs[..q - 1];
    var ms := Messages(evs[..q]);
    if evs[q - 1].TakeSeq? {
      assert ms[..|ms| - 1] == Messages(evs[..q - 1]);
    }
    if p < q - 1 {
      MessagesGrow(evs, p, q - 1);
    }
  }

  /** Numbers are in the order of the calls that took them, strictly if either send is content-related. */
  lemma SeqOrder(evs: seq<Event>, p: nat, q: nat)
    requires p < q < |evs| && evs[p].TakeSeq? && evs[q].TakeSeq?
    ensures SeqAt(evs, p) <= SeqAt(evs, q)
    ensures evs[p].content || evs[q].content ==> SeqAt(evs, p) < SeqAt(evs, q)
  {
    MessagesGrow(evs, p, q);
  }

  /** Some content-related number is taken at an event from lo to hi. */
  predicate ContentBetween(evs: seq<Event>, lo: nat, hi: nat)
    requires hi < |evs|
  {
    exists k :: lo <= k <= hi && evs[k].TakeSeq? && evs[k].content
  }

  lemma {:induction false} NoContent(evs: seq<Event>, lo: nat, hi: nat)
    requires lo <= hi < |evs| && forall k :: lo <= k < hi ==> !(evs[k].TakeSeq? && evs[k].content)
    ensures ContentCount(Messages(evs[..hi])) == ContentCount(Messages(evs[..lo]))
    decreases hi
  {
    if lo < hi {
      NoContent(evs, lo, hi - 1);
      assert evs[..hi][..hi - 1] == evs[..hi - 1];
      var ms := Messages(evs[..hi]);
      if evs[hi - 1].TakeSeq? {
        assert ms[..|ms| - 1] == Messages(evs[..hi - 1]);
      }
    }
  }

  /** Two numbers differ exactly if one of the sends, or one between them, is content-related. */
  lemma NumbersDifferIff(evs: seq<Event>, lo: nat, hi: nat)
    requires lo < hi < |evs| && evs[lo].TakeSeq? && evs[hi].TakeSeq?
    ensures SeqAt(evs, lo) != SeqAt(evs, hi) <==> ContentBetween(evs, lo, hi)
  {
    hide ContentCount, Messages;
    if k :| lo <= k <= hi && evs[k].TakeSeq? && evs[k].content {
      SeqOrder(evs, lo, hi);
      if lo < k < hi {
        MessagesGrow(evs, lo, k);
        MessagesGrow(evs, k, hi);
      }
    } else {
      NoContent(evs, lo, hi);
      assert !evs[lo].content && !evs[hi].content;
    }
  }

  /** The 32-bit number the generator hands out at event k. */
  function SentSeq(evs: seq<Event>, k: nat): (n: int)
    requires k < |evs| && evs[k].TakeSeq?
  {
    ToInt32(CounterAfter(Messages(evs[..k])) * 2 + if evs[k].content then 1 else 0)
  }

  /** It is the exact number as long as that fits, and only then. */
  lemma SentSeqExact(evs: seq<Event>, k: nat)
    requires k < |evs| && evs[k].TakeSeq?
    ensures SentSeq(evs, k) == SeqAt(evs, k) <==> SeqAt(evs, k) < TWO_31
  {
    hide CounterAfter, ContentCount, Messages;
    SeqNoLaw(Messages(evs[..k]), evs[k].content);
  }

  /** One send has the smaller identifier and the larger number. */
  predicate Conflict(evs: seq<Event>, p: nat, p': nat, q: nat, q': nat)
    requires p < |evs| && q < |evs| && evs[p].TakeId? && evs[q].TakeId?
    requires p' < |evs| && q' < |evs| && evs[p'].TakeSeq? && evs[q'].TakeSeq?
  {
    || (IdAt(evs, p) < IdAt(evs, q) && SeqAt(evs, p') > SeqAt(evs, q'))
    || (IdAt(evs, p) > IdAt(evs, q) && SeqAt(evs, p') < SeqAt(evs, q'))
  }

  /**
   * Two sends of any kind, one taking its identifier at p and its number at p', the other at q and
   * q': their orders conflict exactly when the two pairs of calls happen in opposite orders and
   * some content-related number is taken from the first to the second of the two numbers.
   */
  lemma OrdersConflictIff(evs: seq<Event>, p: nat, p': nat, q: nat, q': nat)
    requires p < p' < |evs| && q < q' < |evs| && p != q && p' != q' && Fits(Readings(evs))
    requires evs[p].TakeId? && evs[q].TakeId? && evs[p'].TakeSeq? && evs[q'].TakeSeq?
    ensures Conflict(evs, p, p', q, q') <==>
      (p < q <==> q' < p') && ContentBetween(evs, Min(p', q'), if p' < q' then q' else p')
  {
    hide Fits, Readings, Messages, IdAt, SeqAt, ContentBetween;
    NumbersDifferIff(evs, Min(p', q'), if p' < q' then q' else p');
    if p < q { IdOrder(evs, p, q); } else { IdOrder(evs, q, p); }
    if p' < q' { SeqOrder(evs, p', q'); } else { SeqOrder(evs, q', p'); }
  }

  /** When each send's two calls are adjacent the orders never conflict. */
  lemma AdjacentCallsAgree(evs: seq<Event>, p: nat, q: nat)
    requires p + 1 < |evs| && q + 1 < |evs| && p != q && Fits(Readings(evs))
    requires evs[p].TakeId? && evs[q].TakeId? && evs[p + 1].TakeSeq? && evs[q + 1].TakeSeq?
    ensures !Conflict(evs, p, p + 1, q, q + 1)
  {
    hide Fits, Readings, Messages, IdAt, SeqAt, Conflict, ContentBetween;
    OrdersConflictIff(evs, p, p + 1, q, q + 1);
  }

  /** Nothing makes them adjacent: two senders whose identifier and number orders disagree. */
  lemma OrdersCanDisagree() returns (evs: seq<Event>)
    ensures |evs| == 4 && evs[0].TakeId? && evs[1].TakeId? && evs[2].TakeSeq? && evs[3].TakeSeq?
    ensures evs[0].s == evs[3].s && evs[1].s == evs[2].s && evs[0].s != evs[1].s
    ensures Conflict(evs, 0, 3, 1, 2)
  {
    evs := [TakeId(0, 100), TakeId(1, 200), TakeSeq(1, true), TakeSeq(0, true)];
    TwoReadings(evs);
    hide IdAt, SeqAt, Conflict, Readings, Messages;
    assert ContentBetween(evs, 2, 3) by { assert evs[2].content; }
    OrdersConflictIff(evs, 0, 3, 1, 2);
  }

  lemma TwoReadings(evs: seq<Event>)
    requires |evs| == 4 && evs[0] == TakeId(0, 100) && evs[1] == TakeId(1, 200) && evs[2].TakeSeq? && evs[3].TakeSeq?
    ensures Fits(Readings(evs))
  {
    assert evs[..4] == evs && evs[..4][..3] == evs[..3] && evs[..3][..2] == evs[..2] && evs[..2][..1] == evs[..1];
    assert evs[..1][..0] == [];
    assert Readings(evs[..1]) == [100];
    assert Readings(evs[..2]) == [100, 200];
    assert Readings(evs[..3]) == [100, 200];
    assert Readings(evs) == [100, 200];
  }
}
