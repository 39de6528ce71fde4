/** The uploader: one reader, a bounded job queue, a pool of workers and a one-slot error channel. */
module Upload {
  import opened Bytes
  import Chunker

  datatype Job = Job(index: nat, data: seq<byte>)

  /** Got: received from the queue, context not yet looked at. Calling: the part call is under way.
      The last three are a worker that saw the queue closed and empty, one whose call failed, and
      one that took the ctx.Done branch. */
  datatype Worker = Idle | Got(job: Job) | Calling(job: Job) | Exited | Failed | Stopped

  datatype Outcome = Ok(parts: nat) | Err

  datatype Phase = Reading | Offering(chunk: seq<byte>, last: bool) | Waiting | Returned(outcome: Outcome)

  /** What the reader delivers (ending in EOF, or in another error if fails), and the set-up. */
  datatype Config = Config(content: seq<byte>, fails: bool, chunk: nat, workers: nat)
  {
    predicate Valid() { chunk > 0 && workers > 0 }
  }

  /** queued, sent, dropped and failed record the jobs that went each way, in order. */
  datatype State = State(
    pos: nat, phase: Phase, jobs: seq<Job>, workers: seq<Worker>,
    errChan: bool, readErr: bool, cancelled: bool, uploaded: nat,
    queued: seq<Job>, sent: seq<Job>, dropped: seq<Job>, failed: seq<Job>)

  datatype Step = Read | Send | TakeErr | SeeCancel | Take(w: nat) | Check(w: nat) | CallOk(w: nat) | CallFail(w: nat)
                | Exit(w: nat) | Return | Cancel

  function Init(c: Config): (s: State)
  {
    State(0, Reading, [], seq(c.workers, _ => Idle), false, false, false, 0, [], [], [], [])
  }

  predicate Done(w: Worker) { w == Exited || w == Failed || w == Stopped }

  predicate AllDone(ws: seq<Worker>) { forall i :: 0 <= i < |ws| ==> Done(ws[i]) }

  predicate Enabled(c: Config, s: State, st: Step)
  {
    !s.phase.Returned? &&
    match st
    case Read => s.phase.Reading? && s.pos <= |c.content|
    case Send => s.phase.Offering? && |s.jobs| < c.workers
    case TakeErr => s.phase.Offering? && s.errChan
    case SeeCancel => s.phase.Offering? && s.cancelled
    case Take(w) => w < |s.workers| && s.workers[w].Idle? && |s.jobs| > 0
    case Check(w) => w < |s.workers| && s.workers[w].Got?
    case CallOk(w) => w < |s.workers| && s.workers[w].Calling?
    case CallFail(w) => w < |s.workers| && s.workers[w].Calling?
    case Exit(w) => w < |s.workers| && s.workers[w].Idle? && |s.jobs| == 0 && s.phase.Waiting?
    case Return => s.phase.Waiting? && AllDone(s.workers)
    case Cancel => !s.cancelled
  }

  /** After a chunk has been offered: the `break` in the select leaves only the select, so the loop
      goes on to the next chunk whatever happened, and ends only with the reader. */
  function AfterOffer(c: Config, s: State): (s': State)
    requires s.phase.Offering?
  {
    if s.phase.last then s.(phase := Waiting, readErr := s.readErr || c.fails) else s.(phase := Reading)
  }

  function Apply(c: Config, s: State, st: Step): (s': State)
    requires Enabled(c, s, st)
  {
    match st
    case Read =>
      var n := Min(c.chunk, |c.content| - s.pos);
      if n == 0 then s.(phase := Waiting, readErr := s.readErr || c.fails)
      else s.(phase := Offering(c.content[s.pos..s.pos + n], n < c.chunk), pos := s.pos + n)
    case Send =>
      var job := Job(|s.queued|, s.phase.chunk);
      AfterOffer(c, s.(jobs := s.jobs + [job], queued := s.queued + [job]))
    case TakeErr => AfterOffer(c, s.(errChan := false, readErr := true))
    case SeeCancel => AfterOffer(c, s.(readErr := true))
    case Take(w) => s.(jobs := s.jobs[1..], workers := s.workers[w := Got(s.jobs[0])])
    case Check(w) =>
      var job := s.workers[w].job;
      if s.cancelled then s.(workers := s.workers[w := Stopped], dropped := s.dropped + [job])
      else s.(workers := s.workers[w := Calling(job)])
    case CallOk(w) =>
      var job := s.workers[w].job;
      s.(workers := s.workers[w := Idle], sent := s.sent + [job], uploaded := s.uploaded + |job.data|)
    case CallFail(w) =>
      var job := s.workers[w].job;
      s.(workers := s.workers[w := Failed], failed := s.failed + [job], errChan := true)
    case Exit(w) => s.(workers := s.workers[w := Exited])
    case Return => s.(phase := Returned(if s.readErr || s.errChan then Err else Ok(|s.queued|)))
    case Cancel => s.(cancelled := true)
  }

  /** The state after a run of steps; None if some step was not enabled. */
  function Run(c: Config, steps: seq<Step>): (r: Option<State>)
    decreases |steps|
  {
    if |steps| == 0 then Some(Init(c))
    else
      var r := Run(c, steps[..|steps| - 1]);
      if r.Some? && Enabled(c, r.value, steps[|steps| - 1]) then Some(Apply(c, r.value, steps[|steps| - 1])) else None
  }

  // ---- Invariants ----

  /** How often job j occurs in a list, and among the jobs the workers hold. */
  function Count(js: seq<Job>, j: Job): (n: nat)
  {
    if |js| == 0 then 0 else Count(js[..|js| - 1], j) + if js[|js| - 1] == j then 1 else 0
  }

  function Holds(w: Worker, j: Job): (n: nat) { if (w.Got? || w.Calling?) && w.job == j then 1 else 0 }

  function Held(ws: seq<Worker>, j: Job): (n: nat)
  {
    if |ws| == 0 then 0 else Held(ws[..|ws| - 1], j) + Holds(ws[|ws| - 1], j)
  }

  lemma {:induction false} HeldUpdate(ws: seq<Worker>, i: nat, w: Worker, j: Job)
    requires i < |ws|
    ensures Held(ws[i := w], j) == Held(ws, j) - Holds(ws[i], j) + Holds(w, j)
    decreases |ws|
  {
    var n := |ws| - 1;
    if i == n {
      assert ws[i := w][..n] == ws[..n];
    } else {
      assert ws[i := w][..n] == ws[..n][i := w];
      HeldUpdate(ws[..n], i, w, j);
    }
  }

  lemma {:induction false} HeldNone(ws: seq<Worker>, j: Job)
    requires forall i :: 0 <= i < |ws| ==> Holds(ws[i], j) == 0
    ensures Held(ws, j) == 0
    decreases |ws|
  {
    if |ws| > 0 {
      HeldNone(ws[..|ws| - 1], j);
    }
  }

  lemma CountAppend(js: seq<Job>, x: Job, j: Job)
    ensures Count(js + [x], j) == Count(js, j) + if x == j then 1 else 0
  {
    assert (js + [x])[..|js|] == js;
  }

  lemma {:induction false} CountWithout(js: seq<Job>, i: nat, j: Job)
    requires i < |js|
    ensures Count(js, j) == Count(js[..i] + js[i + 1..], j) + if js[i] == j then 1 else 0
    decreases |js|
  {
    var n := |js| - 1;
    if i == n {
      assert js[..i] + js[i + 1..] == js[..n];
    } else {
      assert (js[..i] + js[i + 1..])[..n - 1] == js[..n][..i] + js[..n][i + 1..];
      CountWithout(js[..n], i, j);
    }
  }

  lemma {:induction false} CountFind(js: seq<Job>, j: Job) returns (i: nat)
    requires Count(js, j) > 0
    ensures i < |js| && js[i] == j
    decreases |js|
  {
    if js[|js| - 1] == j {
      i := |js| - 1;
    } else {
      i := CountFind(js[..|js| - 1], j);
    }
  }

  /** The two lists hold the same jobs, equally often. */
  ghost predicate SameJobs(a: seq<Job>, b: seq<Job>) { forall j :: Count(a, j) == Count(b, j) }

  function Size(js: seq<Job>): (n: nat)
  {
    if |js| == 0 then 0 else Size(js[..|js| - 1]) + |js[|js| - 1].data|
  }

  function Joined(js: seq<Job>): (b: seq<byte>)
  {
    if |js| == 0 then [] else Joined(js[..|js| - 1]) + js[|js| - 1].data
  }

  /** The chunk read but not yet queued. */
  function InHand(p: Phase): (b: seq<byte>) { if p.Offering? then p.chunk else [] }

  function Everywhere(s: State, j: Job): (n: nat)
  {
    Count(s.jobs, j) + Held(s.workers, j) + Count(s.sent, j) + Count(s.dropped, j) + Count(s.failed, j)
  }

  /** Every queued job is in exactly one place. */
  ghost predicate Accounted(s: State) { forall j :: Count(s.queued, j) == Everywhere(s, j) }

  /** As long as no chunk has been dropped by the reader, the queued jobs are the content read. */
  predicate Faithful(c: Config, s: State)
    requires s.pos <= |c.content|
  {
    !s.readErr ==>
      && Joined(s.queued) + InHand(s.phase) == c.content[..s.pos]
      && (forall i :: 0 <= i < |s.queued| - 1 ==> |s.queued[i].data| == c.chunk)
      && (forall i :: 0 <= i < |s.queued| ==> 0 < |s.queued[i].data| <= c.chunk)
      && (s.phase.Reading? || s.phase.Offering? ==> forall i :: 0 <= i < |s.queued| ==> |s.queued[i].data| == c.chunk)
  }

  predicate Numbered(s: State) { forall i :: 0 <= i < |s.queued| ==> s.queued[i].index == i }

  predicate PhaseOk(c: Config, s: State)
  {
    && s.pos <= |c.content|
    && (s.phase.Offering? ==>
          && 0 < |s.phase.chunk| <= c.chunk && (s.phase.last <==> |s.phase.chunk| < c.chunk)
          && (s.phase.last ==> s.pos == |c.content|))
    && (s.phase.Waiting? || s.phase.Returned? ==> s.pos == |c.content|)
    && (s.phase.Returned? ==> AllDone(s.workers))
    && (s.phase == Returned(Ok(|s.queued|)) || s.phase == Returned(Err) || !s.phase.Returned?)
    && (s.phase == Returned(Ok(|s.queued|)) ==> !s.readErr && !s.errChan)
  }

  predicate SomeStopped(ws: seq<Worker>) { exists i :: 0 <= i < |ws| && ws[i].Stopped? }

  predicate WorkersOk(c: Config, s: State)
  {
    && |s.workers| == c.workers && |s.jobs| <= c.workers
    && (forall i :: 0 <= i < |s.workers| && s.workers[i].Exited? ==>
          |s.jobs| == 0 && (s.phase.Waiting? || s.phase.Returned?))
    && (forall i :: 0 <= i < |s.workers| && s.workers[i].Failed? ==> |s.failed| > 0)
    && (forall i :: 0 <= i < |s.workers| && s.workers[i].Stopped? ==> |s.dropped| > 0)
    && (|s.failed| > 0 ==> s.errChan || s.readErr)
    && (|s.dropped| > 0 ==> s.cancelled && SomeStopped(s.workers))
    && s.uploaded == Size(s.sent)
  }

  ghost predicate Inv(c: Config, s: State)
  {
    PhaseOk(c, s) && WorkersOk(c, s) && Accounted(s) && Numbered(s) && Faithful(c, s)
  }

  lemma InitInv(c: Config)
    requires c.Valid()
    ensures Inv(c, Init(c))
  {
    var s := Init(c);
    forall j ensures Count(s.queued, j) == Everywhere(s, j) {
      HeldNone(s.workers, j);
    }
    assert c.content[..0] == [];
  }

  lemma StepPhase(c: Config, s: State, st: Step)
    requires c.Valid() && Inv(c, s) && Enabled(c, s, st)
    ensures PhaseOk(c, Apply(c, s, st)) && Numbered(Apply(c, s, st))
  {
    hide Accounted, Faithful, WorkersOk;
    if st.Return? {
      assert Apply(c, s, st).workers == s.workers;
    }
  }

  lemma StepWorkers(c: Config, s: State, st: Step)
    requires c.Valid() && Inv(c, s) && Enabled(c, s, st)
    ensures WorkersOk(c, Apply(c, s, st))
  {
    hide Accounted, Faithful, Numbered, Size;
    if st.Take? {
      TakeWorkers(c, s, st.w);
    } else if st.Check? {
      CheckWorkers(c, s, st.w);
    } else if st.CallOk? || st.CallFail? {
      CallWorkers(c, s, st);
    } else if st.Exit? {
      ExitWorkers(c, s, st.w);
    } else {
      assert Apply(c, s, st).workers == s.workers;
    }
  }

  lemma TakeWorkers(c: Config, s: State, w: nat)
    requires WorkersOk(c, s) && Enabled(c, s, Take(w))
    ensures WorkersOk(c, Apply(c, s, Take(w)))
  {
    hide Size;
    StoppedStays(s.workers, w, Got(s.jobs[0]));
  }

  lemma CheckWorkers(c: Config, s: State, w: nat)
    requires WorkersOk(c, s) && Enabled(c, s, Check(w))
    ensures WorkersOk(c, Apply(c, s, Check(w)))
  {
    hide Size;
    StoppedStays(s.workers, w, Calling(s.workers[w].job));
    assert Apply(c, s, Check(w)).workers[w] == if s.cancelled then Stopped else Calling(s.workers[w].job);
  }

  lemma CallWorkers(c: Config, s: State, st: Step)
    requires WorkersOk(c, s) && Enabled(c, s, st) && (st.CallOk? || st.CallFail?)
    ensures WorkersOk(c, Apply(c, s, st))
  {
    hide Size, SomeStopped;
    StoppedStays(s.workers, st.w, Apply(c, s, st).workers[st.w]);
    SizeAppend(s.sent, s.workers[st.w].job);
  }

  lemma SizeAppend(js: seq<Job>, job: Job)
    ensures Size(js + [job]) == Size(js) + |job.data|
  {
    assert (js + [job])[..|js|] == js;
  }

  lemma ExitWorkers(c: Config, s: State, w: nat)
    requires WorkersOk(c, s) && Enabled(c, s, Exit(w))
    ensures WorkersOk(c, Apply(c, s, Exit(w)))
  {
    hide Size;
    StoppedStays(s.workers, w, Exited);
  }

  lemma StoppedStays(ws: seq<Worker>, w: nat, x: Worker)
    requires w < |ws| && !ws[w].Stopped?
    ensures SomeStopped(ws) ==> SomeStopped(ws[w := x])
  {
    if i :| 0 <= i < |ws| && ws[i].Stopped? {
      assert ws[w := x][i].Stopped?;
    }
  }

  lemma StepAccounted(c: Config, s: State, st: Step)
    requires c.Valid() && Inv(c, s) && Enabled(c, s, st)
    ensures Accounted(Apply(c, s, st))
  {
    forall j ensures Count(Apply(c, s, st).queued, j) == Everywhere(Apply(c, s, st), j) {
      assert Count(s.queued, j) == Everywhere(s, j);
      StepJob(c, s, st, j);
    }
  }

  lemma StepJob(c: Config, s: State, st: Step, j: Job)
    requires Enabled(c, s, st) && Count(s.queued, j) == Everywhere(s, j)
    ensures Count(Apply(c, s, st).queued, j) == Everywhere(Apply(c, s, st), j)
  {
    hide Count, Held, Holds;
    if st.Take? {
      TakeJob(c, s, st.w, j);
    } else if st.Check? || st.Exit? {
      CheckJob(c, s, st, j);
    } else if st.CallOk? || st.CallFail? {
      CallJob(c, s, st, j);
    } else if st.Send? {
      SendJob(c, s, j);
    }
  }

  lemma SendJob(c: Config, s: State, j: Job)
    requires Enabled(c, s, Send) && Count(s.queued, j) == Everywhere(s, j)
    ensures Count(Apply(c, s, Send).queued, j) == Everywhere(Apply(c, s, Send), j)
  {
    hide Count, Held;
    var job := Job(|s.queued|, s.phase.chunk);
    CountAppend(s.jobs, job, j);
    CountAppend(s.queued, job, j);
  }

  lemma TakeJob(c: Config, s: State, w: nat, j: Job)
    requires Enabled(c, s, Take(w))
    ensures Everywhere(Apply(c, s, Take(w)), j) == Everywhere(s, j)
  {
    hide Count, Held;
    HeldUpdate(s.workers, w, Got(s.jobs[0]), j);
    CountWithout(s.jobs, 0, j);
    assert s.jobs[..0] + s.jobs[1..] == s.jobs[1..];
  }

  lemma CheckJob(c: Config, s: State, st: Step, j: Job)
    requires Enabled(c, s, st) && (st.Check? || st.Exit?)
    ensures Everywhere(Apply(c, s, st), j) == Everywhere(s, j)
  {
    hide Count, Held;
    HeldUpdate(s.workers, st.w, Apply(c, s, st).workers[st.w], j);
    if st.Check? {
      CountAppend(s.dropped, s.workers[st.w].job, j);
    }
  }

  lemma CallJob(c: Config, s: State, st: Step, j: Job)
    requires Enabled(c, s, st) && (st.CallOk? || st.CallFail?)
    ensures Everywhere(Apply(c, s, st), j) == Everywhere(s, j)
  {
    hide Count, Held;
    var job := s.workers[st.w].job;
    HeldUpdate(s.workers, st.w, Apply(c, s, st).workers[st.w], j);
    CountAppend(s.sent, job, j);
    CountAppend(s.failed, job, j);
  }

  lemma StepFaithful(c: Config, s: State, st: Step)
    requires c.Valid() && Inv(c, s) && Enabled(c, s, st)
    ensures PhaseOk(c, Apply(c, s, st)) && Faithful(c, Apply(c, s, st))
  {
    StepPhase(c, s, st);
    hide Accounted, WorkersOk, Numbered;
    if st.Read? {
      ReadFaithful(c, s);
    } else if st.Send? {
      SendFaithful(c, s);
    } else {
      hide Joined;
    }
  }

  lemma ReadFaithful(c: Config, s: State)
    requires c.Valid() && PhaseOk(c, s) && Faithful(c, s) && Enabled(c, s, Read) && PhaseOk(c, Apply(c, s, Read))
    ensures Faithful(c, Apply(c, s, Read))
  {
    hide Joined;
    var s' := Apply(c, s, Read);
    if !s'.readErr && s'.phase.Offering? {
      assert Joined(s.queued) + [] == Joined(s.queued);
      assert c.content[..s'.pos] == c.content[..s.pos] + s'.phase.chunk;
    }
  }

  lemma SendFaithful(c: Config, s: State)
    requires c.Valid() && PhaseOk(c, s) && Faithful(c, s) && Enabled(c, s, Send) && PhaseOk(c, Apply(c, s, Send))
    ensures Faithful(c, Apply(c, s, Send))
  {
    var s' := Apply(c, s, Send);
    assert s'.queued[..|s.queued|] == s.queued;
    if !s'.readErr {
      assert Joined(s'.queued) == Joined(s.queued) + s.phase.chunk;
      assert Joined(s'.queued) + [] == Joined(s'.queued);
    }
  }

  /** Every step of every goroutine keeps the invariant. */
  lemma StepInv(c: Config, s: State, st: Step)
    requires c.Valid() && Inv(c, s) && Enabled(c, s, st)
    ensures Inv(c, Apply(c, s, st))
  {
    hide Apply, Accounted, WorkersOk, PhaseOk, Faithful, Numbered;
    StepPhase(c, s, st);
    StepWorkers(c, s, st);
    StepAccounted(c, s, st);
    StepFaithful(c, s, st);
  }

  lemma {:induction false} RunInv(c: Config, steps: seq<Step>)
    requires c.Valid() && Run(c, steps).Some?
    ensures Inv(c, Run(c, steps).value)
    decreases |steps|
  {
    hide Inv, Apply, Enabled, Init;
    if |steps| == 0 {
      InitInv(c);
    } else {
      RunInv(c, steps[..|steps| - 1]);
      StepInv(c, Run(c, steps[..|steps| - 1]).value, steps[|steps| - 1]);
    }
  }

  // ---- What a nil error means ----

  lemma NoneCounted(a: seq<Job>, b: seq<Job>, j: Job)
    requires SameJobs(a, b) && |a| == 0
    ensures Count(b, j) == 0
  {
    assert Count(a, j) == Count(b, j);
  }

  /** Sizes depend on the jobs only, not on their order. */
  lemma {:induction false} SizePermuted(a: seq<Job>, b: seq<Job>)
    requires SameJobs(a, b)
    ensures Size(a) == Size(b)
    decreases |a|
  {
    if |a| == 0 {
      if |b| > 0 {
        var j := b[|b| - 1];
        NoneCounted(a, b, j);
      }
    } else {
      var n := |a| - 1;
      assert Count(b, a[n]) == Count(a, a[n]) > 0;
      var i := CountFind(b, a[n]);
      var b' := b[..i] + b[i + 1..];
      forall j ensures Count(a[..n], j) == Count(b', j) {
        assert Count(a, j) == Count(b, j);
        CountWithout(b, i, j);
      }
      SizePermuted(a[..n], b');
      SizeWithout(b, i);
    }
  }

  lemma {:induction false} SizeWithout(b: seq<Job>, i: nat)
    requires i < |b|
    ensures Size(b) == Size(b[..i] + b[i + 1..]) + |b[i].data|
    decreases |b|
  {
    var n := |b| - 1;
    if i == n {
      assert b[..i] + b[i + 1..] == b[..n];
    } else {
      var rest := b[..i] + b[i + 1..];
      assert rest[..n - 1] == b[..n][..i] + b[..n][i + 1..];
      SizeWithout(b[..n], i);
    }
  }

  lemma {:induction false} SizeIsLength(js: seq<Job>)
    ensures Size(js) == |Joined(js)|
    decreases |js|
  {
    if |js| > 0 {
      SizeIsLength(js[..|js| - 1]);
    }
  }

  /** The complete upload: every part of the content, numbered in order, sent exactly once. */
  ghost predicate Complete(c: Config, s: State, parts: nat)
  {
    && |s.queued| == parts && (forall i :: 0 <= i < parts ==> s.queued[i].index == i)
    && Joined(s.queued) == c.content
    && SameJobs(s.sent, s.queued)
    && s.uploaded == |c.content|
  }

  /**
   * In every interleaving, a nil error means that no part call failed and that the queued parts
   * are the whole content; the upload is complete exactly when no worker dropped a part on
   * ctx.Done and none was left in the queue.
   */
  lemma NilErrorMeans(c: Config, steps: seq<Step>, parts: nat)
    requires c.Valid() && Run(c, steps).Some? && Run(c, steps).value.phase == Returned(Ok(parts))
    ensures var s := Run(c, steps).value;
      && |s.queued| == parts && Joined(s.queued) == c.content && s.failed == []
      && (forall j :: Count(s.queued, j) == Count(s.sent, j) + Count(s.dropped, j) + Count(s.jobs, j))
      && (Complete(c, s, parts) <==> s.dropped == [] && s.jobs == [])
  {
    RunInv(c, steps);
    var s := Run(c, steps).value;
    assert s.failed == [];
    forall j ensures Count(s.queued, j) == Count(s.sent, j) + Count(s.dropped, j) + Count(s.jobs, j) {
      assert Count(s.queued, j) == Everywhere(s, j);
      HeldNone(s.workers, j);
    }
    assert c.content[..s.pos] == c.content;
    if s.dropped == [] && s.jobs == [] {
      assert SameJobs(s.sent, s.queued);
      SizePermuted(s.queued, s.sent);
      SizeIsLength(s.queued);
    }
    if SameJobs(s.sent, s.queued) {
      if |s.dropped| > 0 {
        LastCounts(s, s.dropped);
      } else if |s.jobs| > 0 {
        LastCounts(s, s.jobs);
      }
    }
  }

  lemma LastCounts(s: State, js: seq<Job>)
    requires |js| > 0 && SameJobs(s.sent, s.queued)
    ensures exists j :: Count(js, j) > 0 && Count(s.queued, j) == Count(s.sent, j)
  {
    var j := js[|js| - 1];
    assert Count(js, j) > 0;
    assert Count(s.sent, j) == Count(s.queued, j);
  }

  /** If no worker took the ctx.Done branch, a nil error means a complete upload. */
  lemma UncancelledUploadComplete(c: Config, steps: seq<Step>, parts: nat)
    requires c.Valid() && Run(c, steps).Some? && Run(c, steps).value.phase == Returned(Ok(parts))
    requires forall i :: 0 <= i < c.workers ==>
      |Run(c, steps).value.workers| == c.workers && !Run(c, steps).value.workers[i].Stopped?
    ensures Complete(c, Run(c, steps).value, parts)
  {
    RunInv(c, steps);
    NilErrorMeans(c, steps, parts);
    var s := Run(c, steps).value;
    assert s.workers[0].Exited? by {
      assert Done(s.workers[0]) && |s.failed| == 0;
    }
  }

  /** The number of parts is the one CalculateParts announces for the true size, exactly if its sum fits. */
  lemma PartsAsCalculated(c: Config, steps: seq<Step>, parts: nat, custom: int)
    requires c.Valid() && Run(c, steps).Some? && Run(c, steps).value.phase == Returned(Ok(parts))
    requires 0 < |c.content| < TWO_63 && c.chunk == Chunker.ChunkSize(custom)
    ensures parts == Chunker.CalculateParts(|c.content|, custom).1 <==> |c.content| + c.chunk - 1 < TWO_63
  {
    hide Run, Inv, Size, Count, Complete, Chunker.ChunkSize, Chunker.CalculateParts;
    RunInv(c, steps);
    NilErrorMeans(c, steps, parts);
    var s := Run(c, steps).value;
    assert |s.queued| > 0;
    FullParts(c, s);
    FullChunks(s.queued, c.chunk);
    SizeIsLength(s.queued);
    Chunker.CountIff(|c.content|, custom);
    assert Chunker.SmallestCount(|c.content|, c.chunk, parts);
    if |c.content| + c.chunk - 1 < TWO_63 {
      Chunker.PartsUnique(|c.content|, c.chunk, parts, Chunker.CalculateParts(|c.content|, custom).1);
    }
  }

  lemma FullParts(c: Config, s: State)
    requires Inv(c, s) && s.phase == Returned(Ok(|s.queued|))
    ensures forall i :: 0 <= i < |s.queued| - 1 ==> |s.queued[i].data| == c.chunk
    ensures forall i :: 0 <= i < |s.queued| ==> 0 < |s.queued[i].data| <= c.chunk
  {
    hide Accounted, Numbered, Joined, WorkersOk;
  }

  lemma {:induction false} FullChunks(js: seq<Job>, chunk: nat)
    requires forall i :: 0 <= i < |js| - 1 ==> |js[i].data| == chunk
    requires forall i :: 0 <= i < |js| ==> 0 < |js[i].data| <= chunk
    ensures |js| > 0 ==> (|js| - 1) * chunk < Size(js) <= |js| * chunk
    decreases |js|
  {
    if |js| == 1 {
      assert js[..0] == [];
      assert Size(js) == |js[0].data|;
    } else if |js| > 1 {
      var n := |js| - 1;
      AllFull(js[..n], chunk);
      assert (n + 1) * chunk == n * chunk + chunk;
    }
  }

  lemma {:induction false} AllFull(js: seq<Job>, chunk: nat)
    requires forall i :: 0 <= i < |js| ==> |js[i].data| == chunk
    ensures Size(js) == |js| * chunk
    decreases |js|
  {
    if |js| > 0 {
      var n := |js| - 1;
      AllFull(js[..n], chunk);
      assert (n + 1) * chunk == n * chunk + chunk;
    }
  }

  lemma Extend(c: Config, steps: seq<Step>, st: Step)
    requires Run(c, steps).Some? && Enabled(c, Run(c, steps).value, st)
    ensures Run(c, steps + [st]) == Some(Apply(c, Run(c, steps).value, st))
  {
    assert (steps + [st])[..|steps|] == steps;
  }

  /** In a complete upload each of the parts 0 .. parts-1 occurs exactly once among those sent. */
  lemma EachPartOnce(c: Config, s: State, parts: nat, i: nat)
    requires Complete(c, s, parts) && i < parts
    ensures Count(s.sent, s.queued[i]) == 1
    ensures forall k :: 0 <= k < |s.sent| ==> s.sent[k].index < parts && s.sent[k] == s.queued[s.sent[k].index]
  {
    CountNumbered(s.queued, i);
    forall k | 0 <= k < |s.sent| ensures s.sent[k].index < parts && s.sent[k] == s.queued[s.sent[k].index] {
      CountAt(s.sent, k);
      assert Count(s.sent, s.sent[k]) == Count(s.queued, s.sent[k]);
      var m := CountFind(s.queued, s.sent[k]);
    }
    assert Count(s.sent, s.queued[i]) == Count(s.queued, s.queued[i]);
  }

  lemma {:induction false} CountNumbered(js: seq<Job>, i: nat)
    requires i < |js| && forall k :: 0 <= k < |js| ==> js[k].index == k
    ensures Count(js, js[i]) == 1
    decreases |js|
  {
    var n := |js| - 1;
    if i < n {
      CountNumbered(js[..n], i);
    } else if Count(js[..n], js[i]) > 0 {
      var k := CountFind(js[..n], js[i]);
    }
  }

  lemma {:induction false} CountAt(js: seq<Job>, k: nat)
    requires k < |js|
    ensures Count(js, js[k]) > 0
    decreases |js|
  {
    if k < |js| - 1 {
      CountAt(js[..|js| - 1], k);
    }
  }

  lemma StartRun(c: Config)
    ensures Run(c, []) == Some(Init(c))
  {
  }
}
