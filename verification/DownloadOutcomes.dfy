/** How a download ends: with the whole file, or at its first trouble. */
module DownloadOutcomes {
  import opened Bytes
  import opened Download
  import Chunker
  import Generated
  import W = Wire

  /** The bytes of a request, first or fallback. */
  lemma RequestBytes(loc: seq<byte>, offset: int, limit: int)
    ensures FirstRequest(loc, offset, limit) ==
      W.Uint(0xbe250529) + W.Uint(3) + loc + W.Long(offset) + W.Int(limit)
    ensures FallbackRequest(loc, offset, limit) == FirstRequest(loc, offset, limit)
  {
    hide W.Uint, W.Long, W.Int;
    assert SetBit(0, 0) == 1 && SetBit(1, 1) == 1 + 2 * SetBit(0, 0);
    SameRequest(loc, offset, limit);
  }

  /** At this offset every call is answered with the file's part, or redirected and then answered so. */
  ghost predicate Obliging(env: Env, file: seq<byte>, loc: seq<byte>, limit: nat, o: nat)
    requires o <= |file|
  {
    forall k: nat :: Answered(env, k, FirstRequest(loc, o, limit), Slice(file, o, limit))
  }

  predicate Answered(env: Env, k: nat, request: seq<byte>, part: seq<byte>)
  {
    || env.reply(k, request) == File(part)
    || (env.reply(k, request) == Redirect && env.reply(k + 1, request) == File(part))
  }

  /** A round at such an offset writes the part, directly or by the fallback. */
  lemma ObligingRound(env: Env, file: seq<byte>, loc: seq<byte>, limit: nat, i: nat, calls: nat, o: nat)
    requires o <= |file| && 0 < limit < TWO_31 && Obliging(env, file, loc, limit, o) && !env.done(i)
    ensures var a := OneRound(env, loc, limit, i, calls, o);
      var part := file[o..Min(o + limit, |file|)];
      if part == [] then a.stop == Some(Nil) && a.data == [] && !a.reported
      else match env.cut(i)
        case Some(n) => a.stop == Some(WriteFailed) && a.data == part[..Min(n, |part|)] && !a.reported
        case None => a.data == part && a.reported && a.stop == if |part| < limit then Some(Nil) else None
  {
    hide FirstRequest, FallbackRequest, ToInt32;
    SameRequest(loc, o, limit);
    var b := Slice(file, o, limit);
    assert ToInt32(|b|) == |b| by { Small(|b|); }
    assert b == file[o..Min(o + limit, |file|)];
    assert Answered(env, calls, FirstRequest(loc, o, limit), b);
  }

  /** From round i and offset o on, r whole chunks are delivered and written. */
  ghost predicate WellFor(env: Env, file: seq<byte>, loc: seq<byte>, limit: nat, i: nat, o: nat, r: nat)
    decreases r
  {
    r == 0 ||
    (&& o + limit <= |file| && !env.done(i) && env.cut(i) == None && Obliging(env, file, loc, limit, o)
     && WellFor(env, file, loc, limit, i + 1, o + limit, r - 1))
  }

  /** One of them. */
  lemma WholeRound(env: Env, file: seq<byte>, loc: seq<byte>, limit: nat, i: nat, calls: nat, o: nat, rounds: nat)
    returns (a: Round)
    requires 0 < limit < TWO_31 && rounds > 0 && o + limit <= |file| && !env.done(i) && env.cut(i) == None
    requires Obliging(env, file, loc, limit, o)
    ensures var all := DownloadFrom(env, loc, limit, i, calls, o, rounds);
      var next := DownloadFrom(env, loc, limit, i + 1, calls + |a.requests|, o + limit, rounds - 1);
      && all.outcome == next.outcome && all.data == file[o..o + limit] + next.data
      && |all.progress| == 1 + |next.progress|
  {
    hide OneRound, Obliging;
    a := OneRound(env, loc, limit, i, calls, o);
    ObligingRound(env, file, loc, limit, i, calls, o);
    assert Min(o + limit, |file|) == o + limit;
  }

  /** What a download has done after them, and what is left to do. */
  lemma {:induction false} GoodRounds(env: Env, file: seq<byte>, loc: seq<byte>, limit: nat,
      i: nat, calls: nat, o: nat, rounds: nat, r: nat, stop: nat) returns (calls': nat)
    requires 0 < limit < TWO_31 && r <= rounds && WellFor(env, file, loc, limit, i, o, r)
    requires o <= |file| && stop == o + r * limit
    ensures o <= stop <= |file|
    ensures var all := DownloadFrom(env, loc, limit, i, calls, o, rounds);
      var rest := DownloadFrom(env, loc, limit, i + r, calls', stop, rounds - r);
      all.outcome == rest.outcome && all.data == file[o..stop] + rest.data && |all.progress| == r + |rest.progress|
    decreases r
  {
    hide OneRound, Obliging, DownloadFrom;
    if r == 0 {
      calls' := calls;
      var all := DownloadFrom(env, loc, limit, i, calls, o, rounds);
      assert stop == o && file[o..o] + all.data == all.data;
    } else {
      var a := WholeRound(env, file, loc, limit, i, calls, o, rounds);
      MoreChunks(o, limit, r - 1);
      calls' := GoodRounds(env, file, loc, limit, i + 1, calls + |a.requests|, o + limit, rounds - 1, r - 1, stop);
      var next := DownloadFrom(env, loc, limit, i + 1, calls + |a.requests|, o + limit, rounds - 1);
      var rest := DownloadFrom(env, loc, limit, i + r, calls', stop, rounds - r);
      assert i + 1 + (r - 1) == i + r && rounds - 1 - (r - 1) == rounds - r;
      Glue(file, o, limit, stop, next.data, rest.data);
    }
  }

  lemma FirstChunk(offset: nat, limit: nat, r: nat)
    requires r > 0
    ensures offset + 0 * limit == offset && limit <= r * limit
  {
    assert r * limit == limit + (r - 1) * limit;
    assert (r - 1) * limit >= 0;
  }

  lemma Glue(file: seq<byte>, a: nat, len: nat, end: nat, next: seq<byte>, rest: seq<byte>)
    requires a + len <= end <= |file| && next == file[a + len..end] + rest
    ensures file[a..a + len] + next == file[a..end] + rest
  {
  }

  /** No cancellation, no failing write, and every offset answered: directly, or after a redirect. */
  ghost predicate AllWell(env: Env, file: seq<byte>, loc: seq<byte>, limit: nat)
  {
    && (forall i: nat :: !env.done(i) && env.cut(i) == None)
    && (forall o: nat :: o <= |file| ==> Obliging(env, file, loc, limit, o))
  }

  /** Then Download returns nil with the whole file, and one progress report for each chunk with bytes. */
  lemma DownloadComplete(env: Env, file: seq<byte>, loc: seq<byte>, limit: nat, rounds: nat)
    requires AllWell(env, file, loc, limit) && 0 < limit < TWO_31 && rounds * limit > |file|
    ensures var r := DownloadFrom(env, loc, limit, 0, 0, 0, rounds);
      && r.outcome == Nil && r.data == file
      && (if file == [] then r.progress == [] else Chunker.SmallestCount(|file|, limit, |r.progress|))
  {
    hide OneRound, Obliging, AllWell, DownloadFrom, WellFor, Chunker.SmallestCount;
    var r, o := WholeChunks(|file|, limit);
    Chunker.MulLess(r, rounds, limit);
    AllWellFor(env, file, loc, limit, 0, 0, r);
    var calls := GoodRounds(env, file, loc, limit, 0, 0, 0, rounds, r, o);
    LastRound(env, file, loc, limit, r, calls, o, rounds - r);
    assert file[0..o] + file[o..] == file;
    Counted(|file|, limit, r);
  }

  lemma {:induction false} AllWellFor(env: Env, file: seq<byte>, loc: seq<byte>, limit: nat, i: nat, o: nat, r: nat)
    requires AllWell(env, file, loc, limit) && o + r * limit <= |file| && limit > 0
    ensures WellFor(env, file, loc, limit, i, o, r)
    decreases r
  {
    hide Obliging;
    if r > 0 {
      MoreChunks(o, limit, r - 1);
      FirstChunk(o, limit, r);
      AllWellFor(env, file, loc, limit, i + 1, o + limit, r - 1);
    }
  }

  /** The round that comes up short ends the download. */
  lemma LastRound(env: Env, file: seq<byte>, loc: seq<byte>, limit: nat, i: nat, calls: nat, o: nat, rounds: nat)
    requires AllWell(env, file, loc, limit) && 0 < limit < TWO_31 && rounds > 0 && o <= |file| < o + limit
    ensures var r := DownloadFrom(env, loc, limit, i, calls, o, rounds);
      r.outcome == Nil && r.data == file[o..] && |r.progress| == if o < |file| then 1 else 0
  {
    hide OneRound, Obliging;
    ObligingRound(env, file, loc, limit, i, calls, o);
    assert file[o..Min(o + limit, |file|)] == file[o..];
  }

  lemma WholeChunks(n: nat, limit: nat) returns (r: nat, o: nat)
    requires limit > 0
    ensures o == r * limit && o <= n < o + limit
  {
    assert n == (n / limit) * limit + n % limit;
    assert n / limit >= 0;
    r, o := n / limit, n / limit * limit;
  }

  lemma Counted(n: nat, limit: nat, r: nat)
    requires limit > 0 && r * limit <= n < r * limit + limit
    ensures n > r * limit ==> Chunker.SmallestCount(n, limit, r + 1)
    ensures n == r * limit && n > 0 ==> Chunker.SmallestCount(n, limit, r)
    ensures n == 0 ==> r == 0
  {
    assert (r + 1) * limit == r * limit + limit && (r - 1) * limit == r * limit - limit;
    if n == 0 && r > 0 {
      FirstChunk(0, limit, r);
    }
  }

  /** Cancelled after r whole chunks: the context's error, and those chunks. */
  lemma CancelledThere(env: Env, file: seq<byte>, loc: seq<byte>, limit: nat, rounds: nat, r: nat, o: nat)
    requires 0 < limit < TWO_31 && r < rounds && WellFor(env, file, loc, limit, 0, 0, r) && o == r * limit
    requires env.done(r)
    ensures o <= |file|
    ensures var report := DownloadFrom(env, loc, limit, 0, 0, 0, rounds);
      report.outcome == Cancelled && report.data == file[..o] && |report.progress| == r
  {
    hide Obliging, WellFor;
    var calls := ReachTrouble(env, file, loc, limit, rounds, r, o);
    assert OneRound(env, loc, limit, r, calls, o) == Round(Some(Cancelled), [], [], false);
    assert file[..o] + [] == file[..o];
  }

  /** A write that fails there: its error, and what that write got down besides. */
  lemma WriteFailsThere(env: Env, file: seq<byte>, loc: seq<byte>, limit: nat, rounds: nat, r: nat, o: nat, n: nat)
    requires 0 < limit < TWO_31 && r < rounds && WellFor(env, file, loc, limit, 0, 0, r) && o == r * limit
    requires !env.done(r) && o < |file| && Obliging(env, file, loc, limit, o) && env.cut(r) == Some(n)
    ensures var report := DownloadFrom(env, loc, limit, 0, 0, 0, rounds);
      && report.outcome == WriteFailed && |report.progress| == r
      && report.data == file[..o + Min(n, Min(limit, |file| - o))]
  {
    hide Obliging, OneRound, WellFor;
    var calls := ReachTrouble(env, file, loc, limit, rounds, r, o);
    ObligingRound(env, file, loc, limit, r, calls, o);
    var part := file[o..Min(o + limit, |file|)];
    var k := Min(n, |part|);
    assert file[..o] + part[..k] == file[..o + k];
  }

  /** A call that fails there, first or fallback: which error it is depends on the two answers. */
  lemma CallFailsThere(env: Env, file: seq<byte>, loc: seq<byte>, limit: nat, rounds: nat, r: nat, o: nat)
    returns (calls: nat)
    requires 0 < limit < TWO_31 && r < rounds && WellFor(env, file, loc, limit, 0, 0, r) && o == r * limit
    requires !env.done(r)
    ensures o <= |file|
    ensures var report := DownloadFrom(env, loc, limit, 0, 0, 0, rounds);
      var request := FirstRequest(loc, o, limit);
      var first, second := env.reply(calls, request), env.reply(calls + 1, request);
      && (first == NoReply ==> report.outcome == CallFailed(o))
      && (first == Undecodable ==> report.outcome == BadReply)
      && (first == Redirect && second == NoReply ==> report.outcome == FallbackFailed)
      && (first == Redirect && second == Undecodable ==> report.outcome == FallbackBadReply)
      && (first == Redirect && second == Redirect ==> report.outcome == Nil)
      && (!first.File? && (first == Redirect ==> !second.File?) ==> report.data == file[..o] && |report.progress| == r)
  {
    calls := ReachTrouble(env, file, loc, limit, rounds, r, o);
    hide Obliging, WellFor;
    RoundTroubles(env, loc, limit, r, calls, o);
    hide OneRound, FirstRequest;
    assert file[..o] + [] == file[..o];
  }

  lemma RoundTroubles(env: Env, loc: seq<byte>, limit: nat, i: nat, calls: nat, o: nat)
    requires !env.done(i)
    ensures var a := OneRound(env, loc, limit, i, calls, o);
      var request := FirstRequest(loc, o, limit);
      var first, second := env.reply(calls, request), env.reply(calls + 1, request);
      && (first == NoReply ==> a.stop == Some(CallFailed(o)))
      && (first == Undecodable ==> a.stop == Some(BadReply))
      && (first == Redirect && second == NoReply ==> a.stop == Some(FallbackFailed))
      && (first == Redirect && second == Undecodable ==> a.stop == Some(FallbackBadReply))
      && (first == Redirect && second == Redirect ==> a.stop == Some(Nil))
      && (!first.File? && (first == Redirect ==> !second.File?) ==> a.stop.Some? && a.data == [] && !a.reported)
  {
    hide FirstRequest, FallbackRequest;
    SameRequest(loc, o, limit);
  }

  lemma ReachTrouble(env: Env, file: seq<byte>, loc: seq<byte>, limit: nat, rounds: nat, r: nat, o: nat)
    returns (calls: nat)
    requires 0 < limit < TWO_31 && r < rounds && WellFor(env, file, loc, limit, 0, 0, r) && o == r * limit
    ensures o <= |file|
    ensures var all := DownloadFrom(env, loc, limit, 0, 0, 0, rounds);
      var rest := DownloadFrom(env, loc, limit, r, calls, o, rounds - r);
      && all.outcome == rest.outcome && all.data == file[..o] + rest.data
      && |all.progress| == r + |rest.progress|
  {
    hide Obliging, DownloadFrom, WellFor;
    calls := GoodRounds(env, file, loc, limit, 0, 0, 0, rounds, r, o);
    assert file[0..o] == file[..o];
  }
}
