/** When an upload can stop making progress. */
module UploadProgress {
  import opened Bytes
  import opened Upload

  /** No goroutine can take a step; only the caller cancelling the context could change that. */
  ghost predicate Stuck(c: Config, s: State)
  {
    !s.phase.Returned? && forall st :: st != Cancel ==> !Enabled(c, s, st)
  }

  /** The reader offers a chunk to a full queue that nobody reads, and nothing else can wake it. */
  predicate Deadlocked(c: Config, s: State)
  {
    && s.phase.Offering? && |s.jobs| == c.workers && !s.errChan && !s.cancelled
    && forall i :: 0 <= i < |s.workers| ==> s.workers[i].Failed?
  }

  /** In every reachable state, stuck means exactly that deadlock. */
  lemma StuckIff(c: Config, steps: seq<Step>)
    requires c.Valid() && Run(c, steps).Some?
    ensures Stuck(c, Run(c, steps).value) <==> Deadlocked(c, Run(c, steps).value)
  {
    RunInv(c, steps);
    var s := Run(c, steps).value;
    hide Run, Accounted, Faithful, Numbered;
    if Deadlocked(c, s) {
      forall st | st != Cancel ensures !Enabled(c, s, st) {}
    } else if !s.phase.Returned? {
      var st := SomeStep(c, s);
    }
  }

  /** A step that is enabled in a state that is not deadlocked. */
  lemma SomeStep(c: Config, s: State) returns (st: Step)
    requires c.Valid() && PhaseOk(c, s) && WorkersOk(c, s) && !s.phase.Returned? && !Deadlocked(c, s)
    ensures st != Cancel && Enabled(c, s, st)
  {
    match s.phase
    case Reading => st := Read;
    case Waiting =>
      if AllDone(s.workers) {
        st := Return;
      } else {
        var w :| 0 <= w < |s.workers| && !Done(s.workers[w]);
        st := if s.workers[w].Got? then Check(w) else if s.workers[w].Calling? then CallOk(w)
              else if |s.jobs| > 0 then Take(w) else Exit(w);
      }
    case Offering(_, _) =>
      if |s.jobs| < c.workers {
        st := Send;
      } else if s.errChan {
        st := TakeErr;
      } else if s.cancelled {
        st := SeeCancel;
      } else {
        var w :| 0 <= w < |s.workers| && !s.workers[w].Failed?;
        assert !s.workers[w].Exited? && !s.workers[w].Stopped?;
        st := if s.workers[w].Got? then Check(w) else if s.workers[w].Calling? then CallOk(w) else Take(w);
      }
  }

  // ---- Fewer failures than workers ----

  function NumFailed(ws: seq<Worker>): (n: nat)
    ensures n <= |ws|
  {
    if |ws| == 0 then 0 else NumFailed(ws[..|ws| - 1]) + if ws[|ws| - 1].Failed? then 1 else 0
  }

  lemma {:induction false} NumFailedUpdate(ws: seq<Worker>, i: nat, w: Worker)
    requires i < |ws| && !ws[i].Failed?
    ensures NumFailed(ws[i := w]) == NumFailed(ws) + if w.Failed? then 1 else 0
    decreases |ws|
  {
    var n := |ws| - 1;
    if i == n {
      assert ws[i := w][..n] == ws[..n];
    } else {
      assert ws[i := w][..n] == ws[..n][i := w];
      NumFailedUpdate(ws[..n], i, w);
    }
  }

  lemma {:induction false} NumFailedAll(ws: seq<Worker>, failed: bool)
    requires forall i :: 0 <= i < |ws| ==> ws[i].Failed? == failed
    ensures NumFailed(ws) == if failed then |ws| else 0
    decreases |ws|
  {
    if |ws| > 0 {
      NumFailedAll(ws[..|ws| - 1], failed);
    }
  }

  lemma {:induction false} RunFailures(c: Config, steps: seq<Step>)
    requires Run(c, steps).Some?
    ensures NumFailed(Run(c, steps).value.workers) == |Run(c, steps).value.failed|
    decreases |steps|
  {
    if |steps| == 0 {
      NumFailedAll(Init(c).workers, false);
    } else {
      var front, st := steps[..|steps| - 1], steps[|steps| - 1];
      RunFailures(c, front);
      var s := Run(c, front).value;
      StepFailures(c, s, st);
    }
  }

  lemma StepFailures(c: Config, s: State, st: Step)
    requires Enabled(c, s, st) && NumFailed(s.workers) == |s.failed|
    ensures NumFailed(Apply(c, s, st).workers) == |Apply(c, s, st).failed|
  {
    hide NumFailed;
    if st.Take? || st.Check? || st.CallOk? || st.CallFail? || st.Exit? {
      NumFailedUpdate(s.workers, st.w, Apply(c, s, st).workers[st.w]);
    }
  }

  /** With fewer failed part calls than workers, no reachable state before the return is stuck. */
  lemma FewFailuresNeverStuck(c: Config, steps: seq<Step>)
    requires c.Valid() && Run(c, steps).Some? && |Run(c, steps).value.failed| < c.workers
    ensures !Stuck(c, Run(c, steps).value)
  {
    RunInv(c, steps);
    RunFailures(c, steps);
    StuckIff(c, steps);
    var s := Run(c, steps).value;
    hide Run;
    if Deadlocked(c, s) {
      NumFailedAll(s.workers, true);
    }
  }

  // ---- The deadlock is reachable ----

  /** More than m whole chunks are still to be read. */
  predicate Room(c: Config, s: State, m: nat) { s.pos + m * c.chunk < |c.content| }

  /** Between chunks, the first k workers have failed and the others wait, n jobs are queued. */
  predicate Between(c: Config, s: State, k: nat, n: nat)
  {
    && s.phase.Reading? && |s.workers| == c.workers && |s.jobs| == n && !s.cancelled
    && (forall i :: 0 <= i < |s.workers| ==> s.workers[i] == if i < k then Failed else Idle)
  }

  lemma ReadChunk(c: Config, s: State, m: nat)
    requires c.Valid() && s.phase.Reading? && Room(c, s, m) && m > 0
    ensures Enabled(c, s, Read)
    ensures var s' := Apply(c, s, Read);
      s'.phase.Offering? && !s'.phase.last && Room(c, s', m - 1) && s' == s.(phase := s'.phase, pos := s'.pos)
  {
    assert m * c.chunk == c.chunk + (m - 1) * c.chunk;
    assert (m - 1) * c.chunk >= 0;
  }

  /** One more worker takes a chunk and fails. */
  lemma FailOne(c: Config, steps: seq<Step>, k: nat, m: nat) returns (steps': seq<Step>)
    requires c.Valid() && Run(c, steps).Some? && k < c.workers && m > 0
    requires Between(c, Run(c, steps).value, k, 0) && Room(c, Run(c, steps).value, m)
    ensures Run(c, steps').Some? && Between(c, Run(c, steps').value, k + 1, 0) && Room(c, Run(c, steps').value, m - 1)
    ensures Run(c, steps').value.errChan
  {
    hide Run;
    ReadChunk(c, Run(c, steps).value, m);
    hide Room;
    Extend(c, steps, Read);
    var t1 := steps + [Read];
    Extend(c, t1, Send);
    var t2 := t1 + [Send];
    Extend(c, t2, Take(k));
    var t3 := t2 + [Take(k)];
    Extend(c, t3, Check(k));
    var t4 := t3 + [Check(k)];
    Extend(c, t4, CallFail(k));
    steps' := t4 + [CallFail(k)];
    assert Run(c, steps').value.pos == Run(c, t1).value.pos;
    assert Room(c, Run(c, steps').value, m - 1) by { SameRoom(c, Run(c, t1).value, Run(c, steps').value, m - 1); }
  }

  lemma SameRoom(c: Config, s: State, s': State, m: nat)
    requires Room(c, s, m) && s.pos == s'.pos
    ensures Room(c, s', m)
  {
  }

  lemma {:induction false} FailAll(c: Config, k: nat, m: nat) returns (steps: seq<Step>)
    requires c.Valid() && 0 < k <= c.workers && (k + m) * c.chunk < |c.content|
    ensures Run(c, steps).Some? && Between(c, Run(c, steps).value, k, 0) && Room(c, Run(c, steps).value, m)
    ensures Run(c, steps).value.errChan
    decreases k
  {
    var front: seq<Step> := [];
    if k == 1 {
      StartRun(c);
    } else {
      assert (k - 1) + (m + 1) == k + m;
      front := FailAll(c, k - 1, m + 1);
    }
    hide Run;
    steps := FailOne(c, front, k - 1, m + 1);
  }

  /** With every worker gone, the reader queues one more chunk. */
  lemma QueueOne(c: Config, steps: seq<Step>, n: nat, m: nat) returns (steps': seq<Step>)
    requires c.Valid() && Run(c, steps).Some? && n < c.workers && m > 0
    requires Between(c, Run(c, steps).value, c.workers, n) && Room(c, Run(c, steps).value, m)
    requires !Run(c, steps).value.errChan
    ensures Run(c, steps').Some? && Between(c, Run(c, steps').value, c.workers, n + 1)
    ensures Room(c, Run(c, steps').value, m - 1) && !Run(c, steps').value.errChan
  {
    hide Run, Room;
    ReadChunk(c, Run(c, steps).value, m);
    Extend(c, steps, Read);
    var t := steps + [Read];
    Extend(c, t, Send);
    steps' := t + [Send];
    SameRoom(c, Run(c, t).value, Run(c, steps').value, m - 1);
  }

  lemma {:induction false} FillQueue(c: Config, steps: seq<Step>, n: nat, m: nat) returns (steps': seq<Step>)
    requires c.Valid() && Run(c, steps).Some? && n <= c.workers && m >= c.workers - n
    requires Between(c, Run(c, steps).value, c.workers, n) && Room(c, Run(c, steps).value, m)
    requires !Run(c, steps).value.errChan
    ensures Run(c, steps').Some? && Between(c, Run(c, steps').value, c.workers, c.workers)
    ensures Room(c, Run(c, steps').value, m - (c.workers - n)) && !Run(c, steps').value.errChan
    decreases c.workers - n
  {
    hide Run, Room, Between;
    if n == c.workers {
      steps' := steps;
    } else {
      var t := QueueOne(c, steps, n, m);
      steps' := FillQueue(c, t, n + 1, m - 1);
    }
  }

  /** The reader takes the error, and with it drops the chunk it was offering. */
  lemma DrainError(c: Config, steps: seq<Step>, m: nat) returns (steps': seq<Step>)
    requires c.Valid() && Run(c, steps).Some? && m > 0 && Run(c, steps).value.errChan
    requires Between(c, Run(c, steps).value, c.workers, 0) && Room(c, Run(c, steps).value, m)
    ensures Run(c, steps').Some? && Between(c, Run(c, steps').value, c.workers, 0)
    ensures Room(c, Run(c, steps').value, m - 1)
    ensures !Run(c, steps').value.errChan
  {
    hide Run, Room;
    ReadChunk(c, Run(c, steps).value, m);
    Extend(c, steps, Read);
    var t := steps + [Read];
    Extend(c, t, TakeErr);
    steps' := t + [TakeErr];
    SameRoom(c, Run(c, t).value, Run(c, steps').value, m - 1);
  }

  /** For every number of workers: enough content, and a run that ends in the deadlock. */
  lemma DeadlockReachable(c: Config) returns (steps: seq<Step>)
    requires c.Valid() && |c.content| > (2 * c.workers + 1) * c.chunk
    ensures Run(c, steps).Some? && Deadlocked(c, Run(c, steps).value)
  {
    hide Run, Room, Between, Apply, Enabled, Deadlocked;
    var w := c.workers;
    assert w + (w + 1) == 2 * w + 1;
    var t := FailAll(c, w, w + 1);
    var t2 := DrainError(c, t, w + 1);
    var t3 := FillQueue(c, t2, 0, w);
    LastChunk(c, Run(c, t3).value);
    Extend(c, t3, Read);
    steps := t3 + [Read];
  }

  /** The last chunk, whole or not, is offered to the full queue. */
  lemma LastChunk(c: Config, s: State)
    requires c.Valid() && Between(c, s, c.workers, c.workers) && Room(c, s, 0) && !s.errChan
    ensures Enabled(c, s, Read) && Deadlocked(c, Apply(c, s, Read))
  {
  }

  // ---- And needs that much content ----

  function NumBusy(ws: seq<Worker>): (n: nat)
  {
    if |ws| == 0 then 0 else NumBusy(ws[..|ws| - 1]) + Busy(ws[|ws| - 1])
  }

  function Busy(w: Worker): (n: nat) { if w.Got? || w.Calling? then 1 else 0 }

  lemma {:induction false} NumBusyUpdate(ws: seq<Worker>, i: nat, w: Worker)
    requires i < |ws|
    ensures NumBusy(ws[i := w]) == NumBusy(ws) - Busy(ws[i]) + Busy(w)
    decreases |ws|
  {
    var n := |ws| - 1;
    if i == n {
      assert ws[i := w][..n] == ws[..n];
    } else {
      assert ws[i := w][..n] == ws[..n][i := w];
      NumBusyUpdate(ws[..n], i, w);
    }
  }

  lemma {:induction false} NoneBusy(ws: seq<Worker>)
    requires forall i :: 0 <= i < |ws| ==> Busy(ws[i]) == 0
    ensures NumBusy(ws) == 0
    decreases |ws|
  {
    if |ws| > 0 {
      NoneBusy(ws[..|ws| - 1]);
    }
  }

  /** The chunks that have left the reader's hands: those queued, and one if the error was taken. */
  function Gone(s: State): (n: nat) { |s.queued| + if |s.failed| > 0 && !s.errChan then 1 else 0 }

  /** All of them were whole, as long as the reader goes on; and every queued job is somewhere. */
  predicate WholeChunks(c: Config, s: State)
  {
    && |s.queued| == |s.jobs| + NumBusy(s.workers) + |s.sent| + |s.dropped| + |s.failed|
    && (s.phase.Reading? ==> s.pos >= Gone(s) * c.chunk)
    && (s.phase.Offering? ==>
          s.pos >= Gone(s) * c.chunk + |s.phase.chunk| && (!s.phase.last ==> |s.phase.chunk| >= c.chunk))
  }

  lemma StepWholeChunks(c: Config, s: State, st: Step)
    requires Enabled(c, s, st) && WholeChunks(c, s)
    ensures WholeChunks(c, Apply(c, s, st))
  {
    hide NumBusy;
    if st.Take? || st.Check? || st.CallOk? || st.CallFail? || st.Exit? {
      WorkerWholeChunks(c, s, st);
    } else if st.Read? || st.Return? || st.Cancel? {
      assert Gone(Apply(c, s, st)) == Gone(s);
    } else {
      OfferWholeChunks(c, s, st);
    }
  }

  /** The chunk in hand is queued, or goes. */
  lemma OfferWholeChunks(c: Config, s: State, st: Step)
    requires Enabled(c, s, st) && WholeChunks(c, s) && (st.Send? || st.TakeErr? || st.SeeCancel?)
    ensures WholeChunks(c, Apply(c, s, st))
  {
    hide NumBusy;
    Chunks(Gone(s), Gone(Apply(c, s, st)), c.chunk);
  }

  /** A worker's step leaves the reader where it is, and no more chunks gone. */
  lemma WorkerWholeChunks(c: Config, s: State, st: Step)
    requires Enabled(c, s, st) && WholeChunks(c, s)
    requires st.Take? || st.Check? || st.CallOk? || st.CallFail? || st.Exit?
    ensures WholeChunks(c, Apply(c, s, st))
  {
    hide NumBusy;
    var s' := Apply(c, s, st);
    NumBusyUpdate(s.workers, st.w, s'.workers[st.w]);
    assert s'.pos == s.pos && s'.phase == s.phase && Gone(s') <= Gone(s);
    hide Apply, Gone;
    Chunks(Gone(s), Gone(s'), c.chunk);
  }

  lemma Chunks(m: nat, n: nat, chunk: nat)
    ensures n <= m ==> n * chunk <= m * chunk
    ensures n == m + 1 ==> n * chunk == m * chunk + chunk
  {
  }

  lemma {:induction false} RunWholeChunks(c: Config, steps: seq<Step>)
    requires Run(c, steps).Some?
    ensures WholeChunks(c, Run(c, steps).value)
    decreases |steps|
  {
    if |steps| == 0 {
      NoneBusy(Init(c).workers);
    } else {
      var front := steps[..|steps| - 1];
      RunWholeChunks(c, front);
      StepWholeChunks(c, Run(c, front).value, steps[|steps| - 1]);
    }
  }

  /** In a deadlock w jobs have failed, w are queued, one chunk went with the error, one is in hand. */
  lemma DeadlockNeeds(c: Config, steps: seq<Step>)
    requires c.Valid() && Run(c, steps).Some? && Deadlocked(c, Run(c, steps).value)
    ensures |c.content| > (2 * c.workers + 1) * c.chunk
  {
    hide Run, Deadlocked, WholeChunks, PhaseOk, WorkersOk, Accounted, Faithful, Numbered;
    RunInv(c, steps);
    RunFailures(c, steps);
    RunWholeChunks(c, steps);
    DeadlockSize(c, Run(c, steps).value);
  }

  lemma DeadlockSize(c: Config, s: State)
    requires c.Valid() && PhaseOk(c, s) && WorkersOk(c, s) && WholeChunks(c, s) && Deadlocked(c, s)
    requires NumFailed(s.workers) == |s.failed|
    ensures |c.content| > (2 * c.workers + 1) * c.chunk
  {
    hide NumFailed, NumBusy;
    NumFailedAll(s.workers, true);
    assert Gone(s) >= 2 * c.workers + 1;
    Chunks(Gone(s), 2 * c.workers + 1, c.chunk);
  }

  /**
   * An upload can get stuck if and only if its content is longer than 2 * workers + 1 chunks: the
   * numbers a caller starts from.
   */
  lemma DeadlockIff(c: Config)
    requires c.Valid()
    ensures (exists steps :: Run(c, steps).Some? && Deadlocked(c, Run(c, steps).value))
       <==> |c.content| > (2 * c.workers + 1) * c.chunk
  {
    hide Run, Deadlocked;
    if |c.content| > (2 * c.workers + 1) * c.chunk {
      var steps := DeadlockReachable(c);
    }
    forall steps | Run(c, steps).Some? && Deadlocked(c, Run(c, steps).value)
      ensures |c.content| > (2 * c.workers + 1) * c.chunk
    {
      DeadlockNeeds(c, steps);
    }
  }
}
