/** Downloading a file chunk by chunk, with the fallback on a CDN redirect. */
module Download {
  import opened Bytes
  import Chunker
  import Generated
  import W = Wire

  /** What an Invoke followed by decoding the answer gives. */
  datatype Reply = NoReply | Undecodable | File(data: seq<byte>) | Redirect

  /**
   * The surroundings of a download: whether the context is done at the start of round i, the answer
   * to the k-th call, and for the write of round i whether it breaks off, and after how many bytes.
   */
  datatype Env = Env(done: nat -> bool, reply: (nat, seq<byte>) -> Reply, cut: nat -> Option<nat>)

  datatype Outcome = Nil | Cancelled | CallFailed(offset: nat) | BadReply | WriteFailed
                   | FallbackFailed | FallbackBadReply | Unfinished

  datatype Report = Report(outcome: Outcome, data: seq<byte>, requests: seq<seq<byte>>, progress: seq<nat>)

  /** One round: why the loop ends, if it does, the bytes written, the requests sent, and whether
      progress was reported. */
  datatype Round = Round(stop: Option<Outcome>, data: seq<byte>, requests: seq<seq<byte>>, reported: bool)

  function FirstRequest(loc: seq<byte>, offset: int, limit: int): (b: seq<byte>)
  {
    Generated.Request(Generated.OrFlags(0, true, true), loc, offset, limit)
  }

  /** The same request struct encoded again, with CdnSupported now false. */
  function FallbackRequest(loc: seq<byte>, offset: int, limit: int): (b: seq<byte>)
  {
    Generated.Request(Generated.OrFlags(Generated.OrFlags(0, true, true), true, false), loc, offset, limit)
  }

  /** Writing the bytes received. */
  function Received(env: Env, i: nat, limit: nat, b: seq<byte>, requests: seq<seq<byte>>): (r: Round)
  {
    if |b| == 0 then Round(Some(Nil), [], requests, false)
    else
      match env.cut(i)
      case Some(n) => Round(Some(WriteFailed), b[..Min(n, |b|)], requests, false)
      case None => Round(if ToInt32(|b|) < limit then Some(Nil) else None, b, requests, true)
  }

  function OneRound(env: Env, loc: seq<byte>, limit: nat, i: nat, calls: nat, offset: nat): (r: Round)
  {
    var first, second := FirstRequest(loc, offset, limit), FallbackRequest(loc, offset, limit);
    if env.done(i) then Round(Some(Cancelled), [], [], false)
    else
      match env.reply(calls, first)
      case NoReply => Round(Some(CallFailed(offset)), [], [first], false)
      case Undecodable => Round(Some(BadReply), [], [first], false)
      case File(b) => Received(env, i, limit, b, [first])
      case Redirect =>
        match env.reply(calls + 1, second)
        case NoReply => Round(Some(FallbackFailed), [], [first, second], false)
        case Undecodable => Round(Some(FallbackBadReply), [], [first, second], false)
        case Redirect => Round(Some(Nil), [], [first, second], false)
        case File(b) => Received(env, i, limit, b, [first, second])
  }

  /** The loop from a round, a call number and an offset on, for at most this many rounds. */
  function DownloadFrom(env: Env, loc: seq<byte>, limit: nat, i: nat, calls: nat, offset: nat, rounds: nat): (r: Report)
    decreases rounds
  {
    if rounds == 0 then Report(Unfinished, [], [], [])
    else
      var a := OneRound(env, loc, limit, i, calls, offset);
      var here := if a.reported then [offset + |a.data|] else [];
      match a.stop
      case Some(o) => Report(o, a.data, a.requests, here)
      case None =>
        Before(a.data, a.requests, here,
          DownloadFrom(env, loc, limit, i + 1, calls + |a.requests|, offset + |a.data|, rounds - 1))
  }

  /** A report preceded by what was written, sent and reported before. */
  function Before(data: seq<byte>, requests: seq<seq<byte>>, progress: seq<nat>, r: Report): (all: Report)
  {
    Report(r.outcome, data + r.data, requests + r.requests, progress + r.progress)
  }

  lemma BeforeBefore(d: seq<byte>, q: seq<seq<byte>>, p: seq<nat>,
      d': seq<byte>, q': seq<seq<byte>>, p': seq<nat>, r: Report)
    ensures Before(d, q, p, Before(d', q', p', r)) == Before(d + d', q + q', p + p', r)
  {
    assert d + (d' + r.data) == d + d' + r.data;
    assert q + (q' + r.requests) == q + q' + r.requests;
    assert p + (p' + r.progress) == p + p' + r.progress;
  }

  // ---- Against a server that answers with the file ----

  function Slice(file: seq<byte>, o: nat, limit: nat): (b: seq<byte>)
    requires o <= |file|
    ensures |b| == Min(limit, |file| - o)
  {
    file[o..o + Min(limit, |file| - o)]
  }

  /** A call may fail or be redirected; a file answer is the part of the file asked for. */
  ghost predicate Honest(env: Env, file: seq<byte>, loc: seq<byte>, limit: nat)
  {
    forall k: nat, o: nat :: o <= |file| && env.reply(k, FirstRequest(loc, o, limit)).File? ==>
      env.reply(k, FirstRequest(loc, o, limit)).data == Slice(file, o, limit)
  }

  /** The fallback request is the first request over again. */
  lemma SameRequest(loc: seq<byte>, offset: int, limit: int)
    ensures FallbackRequest(loc, offset, limit) == FirstRequest(loc, offset, limit)
  {
    var held := [(true, true)];
    assert held[..0] == [] && Generated.FlagsAfter(0, []) == 0;
    Generated.FallbackRequestUnchanged(0, held, false, loc, offset, limit);
  }

  /** What a round does: go on only with a full chunk, stop with nil only at the end or refused twice. */
  lemma RoundLaw(env: Env, file: seq<byte>, loc: seq<byte>, limit: nat, i: nat, calls: nat, offset: nat)
    requires Honest(env, file, loc, limit) && 0 < limit < TWO_31 && offset <= |file|
    ensures var a := OneRound(env, loc, limit, i, calls, offset);
      && a.data <= file[offset..]
      && (a.stop == None ==> a.reported && |a.data| == limit && offset + limit <= |file|)
      && (a.stop == Some(Nil) ==> offset + |a.data| == |file| || RefusedAt(env, loc, limit, calls, offset))
      && (a.reported ==> |a.data| == Min(limit, |file| - offset))
      && (forall j :: 0 <= j < |a.requests| ==> a.requests[j] == FirstRequest(loc, offset, limit))
      && |a.requests| <= 2 && a.stop != Some(Unfinished)
  {
    hide FirstRequest, FallbackRequest;
    SameRequest(loc, offset, limit);
    var b := Slice(file, offset, limit);
    assert b <= file[offset..];
    assert ToInt32(|b|) == |b| by { Small(|b|); }
    var first := FirstRequest(loc, offset, limit);
    assert env.reply(calls, first).File? ==> env.reply(calls, first).data == b;
    assert env.reply(calls + 1, first).File? ==> env.reply(calls + 1, first).data == b;
  }

  lemma Small(n: nat)
    requires n < TWO_31
    ensures ToInt32(n) == n
  {
  }

  /** A redirect, and a redirect again for the same bytes. */
  predicate RefusedAt(env: Env, loc: seq<byte>, limit: nat, calls: nat, offset: nat)
  {
    && env.reply(calls, FirstRequest(loc, offset, limit)).Redirect?
    && env.reply(calls + 1, FirstRequest(loc, offset, limit)).Redirect?
  }

  /** Two redirects in a row for one request never happen before the end of the file. */
  ghost predicate NeverRefuses(env: Env, file: seq<byte>, loc: seq<byte>, limit: nat)
  {
    forall k: nat, o: nat :: o < |file| ==> !RefusedAt(env, loc, limit, k, o)
  }

  /**
   * What is written is always the beginning of what was still missing; nil without a refusal means
   * the whole of it; and a number of rounds in proportion to the file is enough.
   */
  lemma {:induction false} DownloadSound(env: Env, file: seq<byte>, loc: seq<byte>, limit: nat,
      i: nat, calls: nat, offset: nat, rounds: nat)
    requires Honest(env, file, loc, limit) && 0 < limit < TWO_31 && offset <= |file|
    ensures var r := DownloadFrom(env, loc, limit, i, calls, offset, rounds);
      && r.data <= file[offset..]
      && (r.outcome == Nil && NeverRefuses(env, file, loc, limit) ==> r.data == file[offset..])
      && (rounds * limit > |file| - offset ==> r.outcome != Unfinished)
    decreases rounds
  {
    hide OneRound, RefusedAt, Honest;
    if rounds > 0 {
      RoundLaw(env, file, loc, limit, i, calls, offset);
      var a := OneRound(env, loc, limit, i, calls, offset);
      if a.stop == None {
        DownloadSound(env, file, loc, limit, i + 1, calls + |a.requests|, offset + limit, rounds - 1);
        assert file[offset..] == a.data + file[offset + limit..];
        assert rounds * limit == (rounds - 1) * limit + limit;
      }
    }
  }

  /** A request asks for one chunk, inside one 512 KiB window; fallback requests repeat theirs. */
  ghost predicate InWindow(request: seq<byte>, loc: seq<byte>, limit: nat)
    requires limit > 0
  {
    exists j: nat ::
      && request == FirstRequest(loc, j * limit, limit)
      && (j * limit) / Chunker.DEFAULT_CHUNK == (j * limit + limit - 1) / Chunker.DEFAULT_CHUNK
  }

  lemma {:induction false} RequestsInWindows(env: Env, file: seq<byte>, loc: seq<byte>, custom: int,
      i: nat, calls: nat, j: nat, rounds: nat)
    requires var limit := Chunker.ChunkSize(custom); Honest(env, file, loc, limit) && j * limit <= |file|
    ensures var limit := Chunker.ChunkSize(custom);
      forall n :: 0 <= n < |DownloadFrom(env, loc, limit, i, calls, j * limit, rounds).requests| ==>
        InWindow(DownloadFrom(env, loc, limit, i, calls, j * limit, rounds).requests[n], loc, limit)
    decreases rounds
  {
    hide OneRound, Honest, FirstRequest;
    var limit := Chunker.ChunkSize(custom);
    if rounds > 0 {
      RoundLaw(env, file, loc, limit, i, calls, j * limit);
      var a := OneRound(env, loc, limit, i, calls, j * limit);
      OneWindow(j, limit);
      assert forall n :: 0 <= n < |a.requests| ==> InWindow(a.requests[n], loc, limit);
      if a.stop == None {
        assert (j + 1) * limit == j * limit + limit;
        RequestsInWindows(env, file, loc, custom, i + 1, calls + |a.requests|, j + 1, rounds - 1);
      }
    }
  }

  lemma OneWindow(j: nat, c: nat)
    requires c > 0 && Chunker.DEFAULT_CHUNK % c == 0
    ensures (j * c) / Chunker.DEFAULT_CHUNK == (j * c + c - 1) / Chunker.DEFAULT_CHUNK
  {
    var w := Chunker.DEFAULT_CHUNK;
    var m := w / c;
    assert w == m * c;
    var q, r := j / m, j % m;
    assert j == q * m + r && r <= m - 1;
    assert j * c == q * w + r * c by { assert j * c == q * m * c + r * c; assert q * m * c == q * (m * c); }
    assert r * c + c <= w by { assert (r + 1) * c <= m * c; }
    DivModUnique(j * c, w, q, r * c);
    DivModUnique(j * c + c - 1, w, q, r * c + c - 1);
  }

  /** The progress reported is the number of bytes there so far: whole chunks, then the file's length. */
  lemma {:induction false} ProgressLaw(env: Env, file: seq<byte>, loc: seq<byte>, limit: nat,
      i: nat, calls: nat, offset: nat, rounds: nat, n: nat)
    requires Honest(env, file, loc, limit) && 0 < limit < TWO_31 && offset <= |file|
    ensures var p := DownloadFrom(env, loc, limit, i, calls, offset, rounds).progress;
      n < |p| ==> p[n] == Min(offset + (n + 1) * limit, |file|)
    decreases rounds
  {
    hide OneRound, Honest, FirstRequest, RefusedAt;
    if rounds > 0 {
      RoundLaw(env, file, loc, limit, i, calls, offset);
      var a := OneRound(env, loc, limit, i, calls, offset);
      if a.stop == None {
        var i', calls', offset' := i + 1, calls + |a.requests|, offset + limit;
        NextProgress(env, loc, limit, i, calls, offset, rounds, a);
        if n > 0 {
          ProgressLaw(env, file, loc, limit, i', calls', offset', rounds - 1, n - 1);
          MoreChunks(offset, limit, n);
        }
      }
    }
  }

  lemma MoreChunks(offset: nat, limit: nat, n: nat)
    ensures offset + limit + n * limit == offset + (n + 1) * limit
  {
  }

  /** The progress reports of a round that goes on: its own, then those of the rest. */
  lemma NextProgress(env: Env, loc: seq<byte>, limit: nat, i: nat, calls: nat, offset: nat, rounds: nat, a: Round)
    requires rounds > 0 && a == OneRound(env, loc, limit, i, calls, offset) && a.stop == None && a.reported
    ensures DownloadFrom(env, loc, limit, i, calls, offset, rounds).progress == [offset + |a.data|] +
      DownloadFrom(env, loc, limit, i + 1, calls + |a.requests|, offset + |a.data|, rounds - 1).progress
  {
    hide OneRound;
  }

  // ---- A server whose answer depends on the request alone ----

  /** No cancellation, no failing write, and answers that are the file's or redirects. */
  ghost predicate Smooth(env: Env, file: seq<byte>, loc: seq<byte>, limit: nat, redirects: nat -> bool)
  {
    && (forall i: nat :: !env.done(i) && env.cut(i) == None)
    && (forall k: nat, o: nat :: o <= |file| ==>
          env.reply(k, FirstRequest(loc, o, limit)) == if redirects(o) then Redirect else File(Slice(file, o, limit)))
  }

  /** The first chunk offset the server redirects at, or the file's length. */
  function FirstRedirect(file: seq<byte>, limit: nat, redirects: nat -> bool, offset: nat): (o: nat)
    requires limit > 0 && offset <= |file|
    ensures offset <= o <= |file|
    decreases |file| - offset
  {
    if redirects(offset) then offset
    else if offset + limit > |file| then |file|
    else FirstRedirect(file, limit, redirects, offset + limit)
  }

  /**
   * As the fallback repeats the request, such a server redirects it again, and Download ends there
   * with nil: the file is cut at the first redirected chunk. It is whole if and only if no chunk
   * offset below its length is redirected.
   */
  lemma {:induction false} CutAtFirstRedirect(env: Env, file: seq<byte>, loc: seq<byte>, limit: nat,
      redirects: nat -> bool, i: nat, calls: nat, offset: nat, rounds: nat)
    requires Smooth(env, file, loc, limit, redirects) && 0 < limit < TWO_31 && offset <= |file|
    requires rounds * limit > |file| - offset
    ensures var r := DownloadFrom(env, loc, limit, i, calls, offset, rounds);
      var stop := FirstRedirect(file, limit, redirects, offset);
      r.outcome == Nil && r.data == file[offset..stop]
    decreases rounds
  {
    hide OneRound, Smooth, FirstRequest;
    SmoothRound(env, file, loc, limit, redirects, i, calls, offset);
    assert rounds * limit == (rounds - 1) * limit + limit;
    if !redirects(offset) && offset + limit <= |file| {
      CutAtFirstRedirect(env, file, loc, limit, redirects, i + 1, calls + 1, offset + limit, rounds - 1);
      var stop := FirstRedirect(file, limit, redirects, offset + limit);
      assert file[offset..stop] == file[offset..offset + limit] + file[offset + limit..stop];
    }
  }

  lemma SmoothRound(env: Env, file: seq<byte>, loc: seq<byte>, limit: nat, redirects: nat -> bool,
      i: nat, calls: nat, offset: nat)
    requires Smooth(env, file, loc, limit, redirects) && 0 < limit < TWO_31 && offset <= |file|
    ensures var a := OneRound(env, loc, limit, i, calls, offset);
      if redirects(offset) then a.stop == Some(Nil) && a.data == []
      else if offset + limit > |file| then a.stop == Some(Nil) && a.data == file[offset..]
      else a.stop == None && a.data == file[offset..offset + limit] && |a.requests| == 1
  {
    hide FirstRequest, FallbackRequest, ToInt32;
    SameRequest(loc, offset, limit);
    var b := Slice(file, offset, limit);
    assert ToInt32(|b|) == |b| by { Small(|b|); }
    var first := FirstRequest(loc, offset, limit);
    assert env.reply(calls, first) == (if redirects(offset) then Redirect else File(b));
    assert env.reply(calls + 1, first) == (if redirects(offset) then Redirect else File(b));
  }

  lemma {:induction false} WholeHasNoRedirect(file: seq<byte>, limit: nat, redirects: nat -> bool, offset: nat, j: nat)
    requires limit > 0 && offset + j * limit < |file| && FirstRedirect(file, limit, redirects, offset) == |file|
    ensures !redirects(offset + j * limit)
    decreases j
  {
    if j > 0 {
      assert offset + j * limit == offset + limit + (j - 1) * limit;
      WholeHasNoRedirect(file, limit, redirects, offset + limit, j - 1);
    }
  }

  lemma {:induction false} CutHasRedirect(file: seq<byte>, limit: nat, redirects: nat -> bool, offset: nat)
    returns (j: nat)
    requires limit > 0 && offset <= |file| && FirstRedirect(file, limit, redirects, offset) < |file|
    ensures offset + j * limit < |file| && redirects(offset + j * limit)
    decreases |file| - offset
  {
    if redirects(offset) {
      j := 0;
    } else {
      var k := CutHasRedirect(file, limit, redirects, offset + limit);
      j := k + 1;
      assert offset + j * limit == offset + limit + k * limit;
    }
  }

  /** So Download writes the whole file if and only if no chunk below its length is redirected. */
  lemma WholeIffNoRedirect(env: Env, file: seq<byte>, loc: seq<byte>, limit: nat, redirects: nat -> bool, rounds: nat)
    requires Smooth(env, file, loc, limit, redirects) && 0 < limit < TWO_31 && rounds * limit > |file|
    ensures var r := DownloadFrom(env, loc, limit, 0, 0, 0, rounds);
      r.outcome == Nil && (r.data == file <==> forall j: nat :: j * limit < |file| ==> !redirects(j * limit))
  {
    hide DownloadFrom, Smooth, FirstRedirect;
    CutAtFirstRedirect(env, file, loc, limit, redirects, 0, 0, 0, rounds);
    FirstRedirectIsEnd(file, limit, redirects);
    var stop := FirstRedirect(file, limit, redirects, 0);
    assert file[0..|file|] == file && |file[0..stop]| == stop;
  }

  lemma FirstRedirectIsEnd(file: seq<byte>, limit: nat, redirects: nat -> bool)
    requires limit > 0
    ensures FirstRedirect(file, limit, redirects, 0) == |file| <==>
      forall j: nat :: j * limit < |file| ==> !redirects(j * limit)
  {
    if FirstRedirect(file, limit, redirects, 0) == |file| {
      forall j: nat | j * limit < |file| ensures !redirects(j * limit) {
        WholeHasNoRedirect(file, limit, redirects, 0, j);
      }
    } else {
      var j := CutHasRedirect(file, limit, redirects, 0);
    }
  }

  /** A server that redirects everything: nil, and nothing of the file, however long it is. */
  lemma RedirectsLoseTheFile(file: seq<byte>, loc: seq<byte>, limit: nat, rounds: nat)
    requires rounds > 0
    ensures var env := Env(_ => false, (_, _) => Redirect, _ => None);
      var r := DownloadFrom(env, loc, limit, 0, 0, 0, rounds);
      Honest(env, file, loc, limit) && r.outcome == Nil && r.data == []
  {
  }

  // ---- The loop ----

  /** Download, giving up after a number of rounds, with what it wrote, sent and reported. */
  method Download(env: Env, loc: seq<byte>, chunkSize: int, rounds: nat) returns (r: Report)
    ensures r == DownloadFrom(env, loc, Chunker.ChunkSize(chunkSize), 0, 0, 0, rounds)
  {
    hide OneRound, Received, FirstRequest, FallbackRequest;
    var limit := Chunker.ChunkSize(chunkSize);
    var offset: nat, downloaded: nat, i: nat, calls: nat := 0, 0, 0, 0;
    var data: seq<byte>, requests: seq<seq<byte>>, progress: seq<nat> := [], [], [];
    ghost var all := DownloadFrom(env, loc, limit, 0, 0, 0, rounds);
    NothingBefore(all);
    while i < rounds
      invariant i <= rounds && downloaded == offset == |data| && calls == |requests|
      invariant all == Before(data, requests, progress, DownloadFrom(env, loc, limit, i, calls, offset, rounds - i))
      decreases rounds - i
    {
      var a := DoRound(env, loc, limit, i, calls, offset);
      ghost var before := progress;
      ghost var here := if a.reported then [offset + |a.data|] else [];
      if a.stop.None? {
        BeforeBefore(data, requests, progress, a.data, a.requests, here,
          DownloadFrom(env, loc, limit, i + 1, calls + |a.requests|, offset + |a.data|, rounds - i - 1));
      }
      progress := if a.reported then progress + [downloaded + |a.data|] else progress;
      assert progress == before + here;
      data, requests := data + a.data, requests + a.requests;
      if a.stop.Some? {
        return Report(a.stop.value, data, requests, progress);
      }
      offset, downloaded, calls, i := offset + |a.data|, downloaded + |a.data|, calls + |a.requests|, i + 1;
    }
    r := Report(Unfinished, data, requests, progress);
  }

  lemma NothingBefore(r: Report)
    ensures Before([], [], [], r) == r
  {
  }

  /** The body of the loop, on one request struct that both calls encode. */
  method DoRound(env: Env, loc: seq<byte>, limit: nat, i: nat, calls: nat, offset: nat) returns (a: Round)
    ensures a == OneRound(env, loc, limit, i, calls, offset)
  {
    hide Generated.Request, Generated.OrFlags;
    if env.done(i) {
      return Round(Some(Cancelled), [], [], false);
    }
    var req := new Generated.UploadGetFile(loc, true, offset, limit);
    var first := EncodeRequest(req);
    var reply := env.reply(calls, first);
    var requests := [first];
    if reply.Redirect? {
      req.cdnSupported := false;
      var second := EncodeRequest(req);
      requests := requests + [second];
      reply := env.reply(calls + 1, second);
      match reply {
        case NoReply => return Round(Some(FallbackFailed), [], requests, false);
        case Undecodable => return Round(Some(FallbackBadReply), [], requests, false);
        case Redirect => return Round(Some(Nil), [], requests, false);
        case File(_) =>
      }
    }
    match reply {
      case NoReply => return Round(Some(CallFailed(offset)), [], requests, false);
      case Undecodable => return Round(Some(BadReply), [], requests, false);
      case File(b) => a := Received(env, i, limit, b, requests);
    }
  }

  method EncodeRequest(req: Generated.UploadGetFile) returns (b: seq<byte>)
    requires req.locationOk
    modifies req`flags
    ensures req.flags == Generated.OrFlags(old(req.flags), req.precise, req.cdnSupported)
    ensures b == Generated.Request(req.flags, req.location, req.offset, req.limit)
  {
    var e := new W.Encoder();
    var _ := req.Encode(e);
    b := e.buf;
  }
}
