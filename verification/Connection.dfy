/** Closing a connection: the two background loops, sync.Once, the wait group and any number of Close calls. */
module Connection {
  import opened Bytes

  /** Where a call of Close is; Inside counts the statements of the once function already done. */
  datatype CloseAt = Entering | Inside(done: nat) | Waiting | Returned

  datatype ReaderAt = Top | Receiving | Handling | Erred | Closing(at: CloseAt) | Leaving | Gone

  datatype KeeperAt = Selecting | Flushing | KeeperLeaving | KeeperGone

  datatype Once = Fresh | Running | Finished

  datatype State = State(
    closed: bool, engineClosed: bool, transportClosed: bool, once: Once, wait: int, tick: bool,
    reader: ReaderAt, keeper: KeeperAt, callers: seq<CloseAt>)

  const START := State(false, false, false, Fresh, 2, false, Top, Selecting, [])

  datatype Step =
    | ReaderTop | RecvPacket | RecvError | PacketHandled | ReaderSelect | ReaderClose | ReaderDone
    | Tick | KeeperExit | KeeperFlush | KeeperFlushed | KeeperDone
    | Call | CallerClose(n: nat)

  /** Whether a Close call at this point can go on: sync.Once holds back everyone but the first
      until the first is through; the wait group holds back everyone until both loops are done. */
  predicate CanGoOn(s: State, at: CloseAt)
  {
    match at
    case Entering => !s.once.Running?
    case Inside(_) => true
    case Waiting => s.wait == 0
    case Returned => false
  }

  function NextAt(s: State, at: CloseAt): (next: CloseAt)
  {
    match at
    case Entering => if s.once.Fresh? then Inside(0) else Waiting
    case Inside(k) => if k < 2 then Inside(k + 1) else Waiting
    case Waiting => Returned
    case Returned => Returned
  }

  /** What a Close call changes besides its own place. */
  function CloseEffect(s: State, at: CloseAt): (s': State)
  {
    match at
    case Entering => if s.once.Fresh? then s.(once := Running) else s
    case Inside(k) =>
      if k == 0 then s.(closed := true)
      else if k == 1 then s.(engineClosed := true)
      else s.(transportClosed := true, once := Finished)
    case _ => s
  }

  predicate Enabled(s: State, st: Step)
  {
    match st
    case ReaderTop => s.reader == Top
    case RecvPacket => s.reader == Receiving && !s.transportClosed
    case RecvError => s.reader == Receiving
    case PacketHandled => s.reader == Handling
    case ReaderSelect => s.reader == Erred
    case ReaderClose => s.reader.Closing? && CanGoOn(s, s.reader.at)
    case ReaderDone => s.reader == Leaving
    case Tick => true
    case KeeperExit => s.keeper == Selecting && s.closed
    case KeeperFlush => s.keeper == Selecting && s.tick
    case KeeperFlushed => s.keeper == Flushing
    case KeeperDone => s.keeper == KeeperLeaving
    case Call => true
    case CallerClose(n) => n < |s.callers| && CanGoOn(s, s.callers[n])
  }

  function Apply(s: State, st: Step): (s': State)
    requires Enabled(s, st)
  {
    match st
    case ReaderTop => s.(reader := if s.closed then Leaving else Receiving)
    case RecvPacket => s.(reader := Handling)
    case RecvError => s.(reader := Erred)
    case PacketHandled => s.(reader := Top)
    case ReaderSelect => s.(reader := if s.closed then Leaving else Closing(Entering))
    case ReaderClose =>
      var next := NextAt(s, s.reader.at);
      CloseEffect(s, s.reader.at).(reader := if next == Returned then Leaving else Closing(next))
    case ReaderDone => s.(reader := Gone, wait := s.wait - 1)
    case Tick => s.(tick := true)
    case KeeperExit => s.(keeper := KeeperLeaving)
    case KeeperFlush => s.(keeper := Flushing, tick := false)
    case KeeperFlushed => s.(keeper := Selecting)
    case KeeperDone => s.(keeper := KeeperGone, wait := s.wait - 1)
    case Call => s.(callers := s.callers + [Entering])
    case CallerClose(n) =>
      CloseEffect(s, s.callers[n]).(callers := s.callers[n := NextAt(s, s.callers[n])])
  }

  function RunFrom(s: State, steps: seq<Step>): (r: Option<State>)
    decreases |steps|
  {
    if |steps| == 0 then Some(s)
    else if Enabled(s, steps[0]) then RunFrom(Apply(s, steps[0]), steps[1..])
    else None
  }

  // ---- The invariant ----

  /** A place in Close agrees with the once and the wait group. */
  predicate AtOk(s: State, at: CloseAt)
  {
    match at
    case Entering => true
    case Inside(k) => k <= 2 && s.once == Running && s.closed == (k >= 1) && s.engineClosed == (k >= 2)
    case Waiting => s.once == Finished
    case Returned => s.once == Finished && s.wait == 0
  }

  ghost predicate SomeoneInside(s: State)
  {
    (s.reader.Closing? && s.reader.at.Inside?) || exists n :: 0 <= n < |s.callers| && s.callers[n].Inside?
  }

  ghost predicate Inv(s: State)
  {
    && s.wait == (if s.reader == Gone then 0 else 1) + (if s.keeper == KeeperGone then 0 else 1)
    && (s.once == Fresh ==> !s.closed && !s.engineClosed && !s.transportClosed)
    && (s.once == Finished ==> s.closed && s.engineClosed && s.transportClosed)
    && (s.once == Running ==> !s.transportClosed && SomeoneInside(s))
    && (s.reader.Closing? ==> AtOk(s, s.reader.at) && s.reader.at != Returned)
    && (s.reader == Leaving || s.reader == Gone ==> s.closed)
    && (s.keeper == KeeperLeaving || s.keeper == KeeperGone ==> s.closed)
    && (forall n :: 0 <= n < |s.callers| ==> AtOk(s, s.callers[n]))
    && (forall n, m :: 0 <= n < m < |s.callers| && s.callers[n].Inside? ==> !s.callers[m].Inside?)
    && (s.reader.Closing? && s.reader.at.Inside? ==> forall n :: 0 <= n < |s.callers| ==> !s.callers[n].Inside?)
  }

  lemma StepInv(s: State, st: Step)
    requires Inv(s) && Enabled(s, st)
    ensures Inv(Apply(s, st))
  {
    match st
    case CallerClose(n) => CallerInv(s, n);
    case ReaderClose => ReaderInv(s);
    case Call => CallInv(s);
    case Tick => KeeperInv(s, st);
    case KeeperExit => KeeperInv(s, st);
    case KeeperFlush => KeeperInv(s, st);
    case KeeperFlushed => KeeperInv(s, st);
    case KeeperDone => LoopDone(s, st);
    case ReaderDone => LoopDone(s, st);
    case _ => ReadLoopInv(s, st);
  }

  /** No step of a loop outside Close moves a caller. */
  lemma KeeperInv(s: State, st: Step)
    requires Inv(s) && Enabled(s, st) && (st.Tick? || st.KeeperExit? || st.KeeperFlush? || st.KeeperFlushed?)
    ensures Inv(Apply(s, st))
  {
    hide AtOk;
    SamePlaces(s, Apply(s, st));
  }

  lemma ReadLoopInv(s: State, st: Step)
    requires Inv(s) && Enabled(s, st)
    requires st.ReaderTop? || st.RecvPacket? || st.RecvError? || st.PacketHandled? || st.ReaderSelect?
    ensures Inv(Apply(s, st))
  {
    hide AtOk;
    var s' := Apply(s, st);
    SamePlaces(s, s');
    assert s'.reader.Closing? ==> AtOk(s', Entering) by { EnteringOk(s'); }
  }

  lemma LoopDone(s: State, st: Step)
    requires Inv(s) && Enabled(s, st) && (st.KeeperDone? || st.ReaderDone?)
    ensures Inv(Apply(s, st))
  {
    assert Apply(s, st).callers == s.callers;
  }

  /** Places in Close stay right when the count, the once and the channels do not change. */
  lemma SamePlaces(s: State, s': State)
    requires s'.callers == s.callers && s'.wait == s.wait && s'.once == s.once
    requires s'.closed == s.closed && s'.engineClosed == s.engineClosed
    ensures forall at :: AtOk(s, at) ==> AtOk(s', at)
  {
  }

  lemma EnteringOk(s: State)
    ensures AtOk(s, Entering)
  {
  }

  lemma CallInv(s: State)
    requires Inv(s)
    ensures Inv(Apply(s, Call))
  {
    var s' := Apply(s, Call);
    if n :| 0 <= n < |s.callers| && s.callers[n].Inside? {
      assert s'.callers[n].Inside?;
    }
  }

  lemma ReaderInv(s: State)
    requires Inv(s) && Enabled(s, ReaderClose)
    ensures Inv(Apply(s, ReaderClose))
  {
  }

  lemma CallerInv(s: State, n: nat)
    requires Inv(s) && Enabled(s, CallerClose(n))
    ensures Inv(Apply(s, CallerClose(n)))
  {
    var s' := Apply(s, CallerClose(n));
    assert s'.callers[n] == NextAt(s, s.callers[n]);
  }

  lemma {:induction false} RunInv(s: State, steps: seq<Step>)
    requires Inv(s) && RunFrom(s, steps).Some?
    ensures Inv(RunFrom(s, steps).value)
    decreases |steps|
  {
    if |steps| > 0 {
      StepInv(s, steps[0]);
      RunInv(Apply(s, steps[0]), steps[1..]);
    }
  }

  lemma StartInv()
    ensures Inv(START)
  {
  }

  // ---- readLoop inside Close ----

  /**
   * Once readLoop has called Close, in every continuation it stays there, the wait count stays at
   * least 1, and no call of Close has returned or ever does.
   */
  lemma {:induction false} ReaderInCloseForever(s: State, steps: seq<Step>)
    requires Inv(s) && s.reader.Closing? && RunFrom(s, steps).Some?
    ensures var s' := RunFrom(s, steps).value;
      && s'.reader.Closing? && s'.wait >= 1
      && forall n :: 0 <= n < |s'.callers| ==> s'.callers[n] != Returned
    decreases |steps|
  {
    if |steps| > 0 {
      StepInv(s, steps[0]);
      StaysInClose(s, steps[0]);
      ReaderInCloseForever(Apply(s, steps[0]), steps[1..]);
    }
  }

  lemma StaysInClose(s: State, st: Step)
    requires Inv(s) && s.reader.Closing? && Enabled(s, st)
    ensures Apply(s, st).reader.Closing?
  {
  }

  /** A receive error before anyone closed leads there. */
  lemma ReceiveErrorHangs()
    ensures var r := RunFrom(START, [ReaderTop, RecvError, ReaderSelect]);
      r.Some? && r.value.reader == Closing(Entering)
  {
    var s1 := Apply(START, ReaderTop);
    var s2 := Apply(s1, RecvError);
    assert RunFrom(s2, [ReaderSelect]) == RunFrom(Apply(s2, ReaderSelect), []);
    assert [ReaderTop, RecvError, ReaderSelect][1..] == [RecvError, ReaderSelect];
    assert [RecvError, ReaderSelect][1..] == [ReaderSelect];
  }

  // ---- readLoop outside Close ----

  function ReaderRank(r: ReaderAt): (n: nat)
  {
    match r case Receiving => 4 case Handling => 3 case Top => 2 case Erred => 2 case Leaving => 1 case Gone => 0
            case Closing(_) => 0
  }

  function KeeperRank(k: KeeperAt): (n: nat)
  {
    match k case Flushing => 3 case Selecting => 2 case KeeperLeaving => 1 case KeeperGone => 0
  }

  function AtRank(at: CloseAt): (n: nat)
  {
    match at case Entering => 5 case Inside(k) => if k <= 2 then 4 - k else 2 case Waiting => 1 case Returned => 0
  }

  function CallersRank(cs: seq<CloseAt>): (n: nat)
  {
    if |cs| == 0 then 0 else CallersRank(cs[..|cs| - 1]) + AtRank(cs[|cs| - 1])
  }

  /** What is left to do. */
  function Rank(s: State): (n: nat)
  {
    ReaderRank(s.reader) + KeeperRank(s.keeper) + (if s.tick then 2 else 0) + CallersRank(s.callers)
  }

  lemma {:induction false} CallersRankUpdate(cs: seq<CloseAt>, n: nat, at: CloseAt)
    requires n < |cs|
    ensures CallersRank(cs[n := at]) == CallersRank(cs) - AtRank(cs[n]) + AtRank(at)
    decreases |cs|
  {
    var m := |cs| - 1;
    var cs' := cs[n := at];
    if n < m {
      CallersRankUpdate(cs[..m], n, at);
      assert cs'[..m] == cs[..m][n := at];
    } else {
      assert cs'[..m] == cs[..m];
    }
  }

  /** A step from outside: the ticker's or a new call of Close. */
  predicate Outside(st: Step) { st.Tick? || st.Call? }

  function Cost(st: Step): (n: nat) { if st.Tick? then 3 else if st.Call? then 6 else 0 }

  function TotalCost(steps: seq<Step>): (n: nat)
  {
    if |steps| == 0 then 0 else Cost(steps[0]) + TotalCost(steps[1..])
  }

  /** After the close every step but those from outside uses up something, and readLoop does not
      enter Close any more. */
  lemma RankFalls(s: State, st: Step)
    requires Inv(s) && s.closed && !s.reader.Closing? && Enabled(s, st)
    ensures var s' := Apply(s, st);
      s'.closed && !s'.reader.Closing? && Rank(s') + 1 <= Rank(s) + Cost(st)
  {
    hide CallersRank, AtRank, AtOk, NextAt, CloseEffect;
    match st
    case CallerClose(n) => CallerRankFalls(s, n);
    case Call => CallRank(s.callers);
    case _ =>
  }

  lemma CallRank(callers: seq<CloseAt>)
    ensures CallersRank(callers + [Entering]) == CallersRank(callers) + 5
  {
    assert (callers + [Entering])[..|callers|] == callers;
  }

  lemma CallerRankFalls(s: State, n: nat)
    requires Inv(s) && s.closed && !s.reader.Closing? && Enabled(s, CallerClose(n))
    ensures var s' := Apply(s, CallerClose(n));
      s'.closed && !s'.reader.Closing? && Rank(s') < Rank(s)
  {
    CallersRankUpdate(s.callers, n, NextAt(s, s.callers[n]));
    assert AtRank(NextAt(s, s.callers[n])) < AtRank(s.callers[n]);
  }

  /** So a run after the close has a bounded number of steps, but for those from outside. */
  lemma {:induction false} BoundedAfterClose(s: State, steps: seq<Step>)
    requires Inv(s) && s.closed && !s.reader.Closing? && RunFrom(s, steps).Some?
    ensures !RunFrom(s, steps).value.reader.Closing? && RunFrom(s, steps).value.closed
    ensures |steps| + Rank(RunFrom(s, steps).value) <= Rank(s) + TotalCost(steps)
    decreases |steps|
  {
    if |steps| > 0 {
      hide Inv, Rank, Apply, Enabled;
      RankFalls(s, steps[0]);
      StepInv(s, steps[0]);
      BoundedAfterClose(Apply(s, steps[0]), steps[1..]);
    }
  }

  ghost predicate AllDone(s: State)
  {
    && s.wait == 0 && s.reader == Gone && s.keeper == KeeperGone
    && forall n :: 0 <= n < |s.callers| ==> s.callers[n] == Returned
  }

  ghost predicate Stuck(s: State) { forall st :: Enabled(s, st) ==> Outside(st) }

  /** And it only comes to rest when both loops are gone, the count is 0 and every Close has returned. */
  lemma RestsOnlyWhenDone(s: State)
    requires Inv(s) && s.closed && !s.reader.Closing?
    ensures Stuck(s) <==> AllDone(s)
  {
    if AllDone(s) {
      forall st | Enabled(s, st) ensures Outside(st) {}
    }
    if Stuck(s) {
      NotStuckReader(s);
      NotStuckKeeper(s);
      forall n | 0 <= n < |s.callers| ensures s.callers[n] == Returned {
        assert !Enabled(s, CallerClose(n));
      }
    }
  }

  lemma NotStuckReader(s: State)
    requires Inv(s) && s.closed && !s.reader.Closing? && Stuck(s)
    ensures s.reader == Gone
  {
    assert !Enabled(s, ReaderTop) && !Enabled(s, RecvError) && !Enabled(s, PacketHandled);
    assert !Enabled(s, ReaderSelect) && !Enabled(s, ReaderDone);
  }

  lemma NotStuckKeeper(s: State)
    requires Inv(s) && s.closed && !s.reader.Closing? && Stuck(s)
    ensures s.keeper == KeeperGone && s.once != Running
  {
    assert !Enabled(s, KeeperExit) && !Enabled(s, KeeperFlushed) && !Enabled(s, KeeperDone);
    if n :| 0 <= n < |s.callers| && s.callers[n].Inside? {
      assert Enabled(s, CallerClose(n));
    }
  }

  /**
   * Over every run from the start that has closed the connection: it can come to an end with both
   * loops gone and every Close returned if and only if readLoop is not itself inside Close.
   */
  lemma CloseReturnsIff(steps: seq<Step>)
    requires RunFrom(START, steps).Some? && RunFrom(START, steps).value.closed
    ensures var s := RunFrom(START, steps).value;
      (exists more :: RunFrom(s, more).Some? && AllDone(RunFrom(s, more).value)) <==> !s.reader.Closing?
  {
    var s := RunFrom(START, steps).value;
    StartInv();
    RunInv(START, steps);
    if s.reader.Closing? {
      forall more | RunFrom(s, more).Some? ensures !AllDone(RunFrom(s, more).value) {
        ReaderInCloseForever(s, more);
      }
    } else {
      var more := Drain(s);
    }
  }

  /** A run of the goroutines alone that brings everything to an end. */
  lemma {:induction false} Drain(s: State) returns (more: seq<Step>)
    requires Inv(s) && s.closed && !s.reader.Closing?
    ensures RunFrom(s, more).Some? && AllDone(RunFrom(s, more).value)
    decreases Rank(s)
  {
    RestsOnlyWhenDone(s);
    if Stuck(s) {
      more := [];
    } else {
      hide Inv, Rank, Apply, Enabled, AllDone;
      var st :| Enabled(s, st) && !Outside(st);
      RankFalls(s, st);
      StepInv(s, st);
      var rest := Drain(Apply(s, st));
      more := [st] + rest;
      assert more[1..] == rest;
    }
  }
}
