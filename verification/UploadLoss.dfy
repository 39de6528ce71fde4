/** When an upload can return a nil error without having sent everything. */
module UploadLoss {
  import opened Bytes
  import opened Upload

  /** A run that returned a nil error sent everything if and only if no worker took the ctx.Done branch. */
  lemma CompleteIffNoneStopped(c: Config, steps: seq<Step>, parts: nat)
    requires c.Valid() && Run(c, steps).Some? && Run(c, steps).value.phase == Returned(Ok(parts))
    ensures Complete(c, Run(c, steps).value, parts) <==> !SomeStopped(Run(c, steps).value.workers)
  {
    RunInv(c, steps);
    NilErrorMeans(c, steps, parts);
    hide Run, Complete, Accounted, Faithful, Numbered;
    if !SomeStopped(Run(c, steps).value.workers) {
      UncancelledUploadComplete(c, steps, parts);
    }
  }

  /** The run returned a nil error and some part was not sent. */
  ghost predicate Loses(c: Config, steps: seq<Step>, parts: nat)
  {
    && Run(c, steps).Some? && Run(c, steps).value.phase == Returned(Ok(parts))
    && !Complete(c, Run(c, steps).value, parts)
  }

  /**
   * In the caller's own terms: some run loses a part and returns a nil error if and only if there is
   * content and the reader ends without an error.
   */
  lemma LossIff(c: Config)
    requires c.Valid()
    ensures (exists steps, parts :: Loses(c, steps, parts)) <==> |c.content| > 0 && !c.fails
  {
    hide Run;
    if |c.content| > 0 && !c.fails {
      hide Loses;
      var steps, parts := CancelledUploadLosesAPart(c);
    }
    forall steps, parts | Loses(c, steps, parts) ensures |c.content| > 0 && !c.fails {
      LossNeeds(c, steps, parts);
    }
  }

  // ---- What a loss needs ----

  /** A reader's error is kept. */
  lemma {:induction false} FailureKept(c: Config, steps: seq<Step>)
    requires Run(c, steps).Some? && c.fails
    ensures var s := Run(c, steps).value; s.phase.Waiting? || s.phase.Returned? ==> s.readErr
    decreases |steps|
  {
    if |steps| > 0 {
      hide Apply, Enabled;
      var front := steps[..|steps| - 1];
      FailureKept(c, front);
      StepKeepsFailure(c, Run(c, front).value, steps[|steps| - 1]);
    }
  }

  lemma StepKeepsFailure(c: Config, s: State, st: Step)
    requires Enabled(c, s, st) && c.fails && (s.phase.Waiting? || s.phase.Returned? ==> s.readErr)
    ensures var s' := Apply(c, s, st); s'.phase.Waiting? || s'.phase.Returned? ==> s'.readErr
  {
  }

  lemma LossNeeds(c: Config, steps: seq<Step>, parts: nat)
    requires c.Valid() && Loses(c, steps, parts)
    ensures |c.content| > 0 && !c.fails
  {
    RunInv(c, steps);
    NilErrorMeans(c, steps, parts);
    if c.fails {
      FailureKept(c, steps);
    }
    hide Run, Complete;
    if |c.content| == 0 {
      NothingQueued(c, Run(c, steps).value);
    }
  }

  lemma NothingQueued(c: Config, s: State)
    requires Inv(c, s) && s.phase == Returned(Ok(|s.queued|)) && |c.content| == 0
    requires forall j :: Count(s.queued, j) == Count(s.sent, j) + Count(s.dropped, j) + Count(s.jobs, j)
    ensures s.dropped == [] && s.jobs == []
  {
    hide Accounted, Numbered, WorkersOk;
    assert s.queued == [] by { EmptyJoined(s.queued); }
    if |s.dropped| > 0 {
      CountAt(s.dropped, 0);
    }
    if |s.jobs| > 0 {
      CountAt(s.jobs, 0);
    }
  }

  lemma EmptyJoined(js: seq<Job>)
    requires Joined(js) == [] && forall i :: 0 <= i < |js| ==> 0 < |js[i].data|
    ensures js == []
  {
  }

  // ---- A run that loses the last part ----

  /** Between chunks, with every worker idle and nothing gone wrong. */
  predicate Calm(c: Config, s: State)
  {
    && s.phase.Reading? && |s.workers| == c.workers && s.jobs == [] && !s.errChan && !s.readErr && !s.cancelled
    && s.pos < |c.content| && forall i :: 0 <= i < |s.workers| ==> s.workers[i].Idle?
  }

  /** Everything read, the first k workers done, the first of them stopped, and the others idle. */
  predicate Ending(c: Config, s: State, k: nat)
  {
    && s.phase.Waiting? && |s.workers| == c.workers && s.jobs == [] && !s.errChan && !s.readErr && 0 < k <= c.workers
    && s.workers[0].Stopped? && (forall i :: 0 <= i < k ==> Done(s.workers[i]))
    && (forall i :: k <= i < c.workers ==> s.workers[i].Idle?)
  }

  /** Worker 0 sends a chunk that is not the last. */
  lemma SendChunk(c: Config, steps: seq<Step>) returns (steps': seq<Step>)
    requires c.Valid() && Run(c, steps).Some? && Calm(c, Run(c, steps).value)
    requires |c.content| - Run(c, steps).value.pos > c.chunk
    ensures Run(c, steps').Some? && Calm(c, Run(c, steps').value)
    ensures Run(c, steps').value.pos == Run(c, steps).value.pos + c.chunk
  {
    hide Run;
    Extend(c, steps, Read);
    var t1 := steps + [Read];
    Extend(c, t1, Send);
    var t2 := t1 + [Send];
    Extend(c, t2, Take(0));
    var t3 := t2 + [Take(0)];
    Extend(c, t3, Check(0));
    var t4 := t3 + [Check(0)];
    Extend(c, t4, CallOk(0));
    steps' := t4 + [CallOk(0)];
  }

  lemma {:induction false} SendAllButLast(c: Config, steps: seq<Step>) returns (steps': seq<Step>)
    requires c.Valid() && Run(c, steps).Some? && Calm(c, Run(c, steps).value)
    ensures Run(c, steps').Some? && Calm(c, Run(c, steps').value)
    ensures |c.content| - Run(c, steps').value.pos <= c.chunk
    decreases |c.content| - Run(c, steps).value.pos
  {
    hide Run;
    if |c.content| - Run(c, steps).value.pos <= c.chunk {
      steps' := steps;
    } else {
      var t := SendChunk(c, steps);
      steps' := SendAllButLast(c, t);
    }
  }

  /** The last chunk is queued; a worker takes it, sees the context cancelled and drops it. */
  lemma DropLast(c: Config, steps: seq<Step>) returns (steps': seq<Step>)
    requires c.Valid() && !c.fails && Run(c, steps).Some? && Calm(c, Run(c, steps).value)
    requires |c.content| - Run(c, steps).value.pos <= c.chunk
    ensures Run(c, steps').Some? && Ending(c, Run(c, steps').value, 1)
  {
    hide Run;
    Extend(c, steps, Read);
    var t1 := steps + [Read];
    Extend(c, t1, Send);
    var t2 := t1 + [Send];
    Extend(c, t2, Cancel);
    var t3 := t2 + [Cancel];
    Extend(c, t3, Take(0));
    var t4 := t3 + [Take(0)];
    Extend(c, t4, Check(0));
    steps' := t4 + [Check(0)];
    if Run(c, steps').value.phase.Reading? {
      var t5 := steps';
      Extend(c, t5, Read);
      steps' := t5 + [Read];
    }
  }

  lemma {:induction false} ExitRest(c: Config, steps: seq<Step>, k: nat) returns (steps': seq<Step>)
    requires Run(c, steps).Some? && Ending(c, Run(c, steps).value, k)
    ensures Run(c, steps').Some? && Ending(c, Run(c, steps').value, c.workers)
    decreases c.workers - k
  {
    hide Run;
    if k == c.workers {
      steps' := steps;
    } else {
      Extend(c, steps, Exit(k));
      steps' := ExitRest(c, steps + [Exit(k)], k + 1);
    }
  }

  /** For every content that is not empty: a cancelled run that returns nil without the last part. */
  lemma CancelledUploadLosesAPart(c: Config) returns (steps: seq<Step>, parts: nat)
    requires c.Valid() && |c.content| > 0 && !c.fails
    ensures Loses(c, steps, parts)
  {
    hide Run;
    StartRun(c);
    var t1 := SendAllButLast(c, []);
    var t2 := DropLast(c, t1);
    var t3 := ExitRest(c, t2, 1);
    Extend(c, t3, Return);
    steps := t3 + [Return];
    parts := |Run(c, t3).value.queued|;
    assert SomeStopped(Run(c, steps).value.workers) by { assert Run(c, steps).value.workers[0].Stopped?; }
    hide Complete;
    CompleteIffNoneStopped(c, steps, parts);
  }
}
