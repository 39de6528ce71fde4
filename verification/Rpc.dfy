/** The RPC engine's calls: registration, cancellation, results and shutdown, in any interleaving. */
module Rpc {
  import opened Bytes

  datatype RpcResult = Payload(data: seq<byte>) | ServerError(code: int, text: seq<byte>) | DecodeError | EngineClosed

  /**
   * The engine. A call is known by its number in order of registration; buf[n] is what its
   * one-slot channel holds.
   */
  datatype Core = Core(pending: map<int, nat>, closed: bool, bufs: seq<seq<RpcResult>>, acks: seq<int>)
  {
    /** Pending calls are distinct, and their channels are empty; no channel holds more than one. */
    ghost predicate Ready()
    {
      && (forall id :: id in pending ==> pending[id] < |bufs| && bufs[pending[id]] == [])
      && (forall a, b :: a in pending && b in pending && pending[a] == pending[b] ==> a == b)
      && (forall n :: 0 <= n < |bufs| ==> |bufs[n]| <= 1)
      && (closed ==> pending == map[])
    }
  }

  function Registered(s: Core, id: int): (s': Core)
  {
    if s.closed then s.(bufs := s.bufs + [[EngineClosed]])
    else s.(pending := s.pending[id := |s.bufs|], bufs := s.bufs + [[]])
  }

  /** The pending map without id: what Cancel leaves, and what taking a result leaves. */
  function Removed(s: Core, id: int): (s': Core) { s.(pending := s.pending - {id}) }

  function SentTo(s: Core, n: nat, r: RpcResult): (s': Core)
    requires n < |s.bufs|
  {
    s.(bufs := s.bufs[n := s.bufs[n] + [r]])
  }

  /** Close fails every pending call. */
  ghost function Closed(s: Core): (s': Core)
  {
    s.(closed := true, pending := map[],
       bufs := seq(|s.bufs|, n requires 0 <= n < |s.bufs| =>
         if IsPending(s, n) then s.bufs[n] + [EngineClosed] else s.bufs[n]))
  }

  ghost predicate IsPending(s: Core, n: nat) { exists id :: id in s.pending && s.pending[id] == n }

  // ---- All interleavings ----

  /**
   * The engine together with what the goroutines around it are doing: claimed holds the calls
   * whose result has been taken from the map and not yet sent; sends counts the sends on each
   * channel, cancelled the calls Cancel removed, lost those whose entry another Register overwrote.
   */
  datatype System = System(
    core: Core, claimed: map<nat, RpcResult>, sends: seq<nat>, cancelled: set<nat>, lost: set<nat>)

  datatype Step = Register(id: int) | Cancel(id: int) | Claim(id: int, r: RpcResult) | Deliver(n: nat) | Close
                | Receive(n: nat)

  const START := System(Core(map[], false, [], []), map[], [], {}, {})

  ghost predicate Enabled(s: System, st: Step)
  {
    match st
    case Register(_) => true
    case Cancel(_) => true
    case Claim(_, _) => true
    case Deliver(n) => n in s.claimed && n < |s.core.bufs| && |s.core.bufs[n]| < 1
    case Close =>
      forall id :: id in s.core.pending ==>
        s.core.pending[id] < |s.core.bufs| && |s.core.bufs[s.core.pending[id]]| < 1
    case Receive(n) => n < |s.core.bufs| && |s.core.bufs[n]| > 0
  }

  /** What Register does: an entry the map holds for the id is overwritten. */
  function AfterRegister(s: System, id: int): (s': System)
  {
    s.(core := Registered(s.core, id), sends := s.sends + [if s.core.closed then 1 else 0],
       lost := if !s.core.closed && id in s.core.pending then s.lost + {s.core.pending[id]} else s.lost)
  }

  ghost function Apply(s: System, st: Step): (s': System)
    requires Enabled(s, st) && |s.sends| == |s.core.bufs|
  {
    match st
    case Register(id) => AfterRegister(s, id)
    case Cancel(id) =>
      s.(core := Removed(s.core, id),
         cancelled := if id in s.core.pending then s.cancelled + {s.core.pending[id]} else s.cancelled)
    case Claim(id, r) =>
      s.(core := Removed(s.core, id),
         claimed := if id in s.core.pending then s.claimed[s.core.pending[id] := r] else s.claimed)
    case Deliver(n) =>
      s.(core := SentTo(s.core, n, s.claimed[n]), claimed := s.claimed - {n}, sends := s.sends[n := s.sends[n] + 1])
    case Close =>
      s.(core := Closed(s.core),
         sends := seq(|s.sends|, n requires 0 <= n < |s.sends| => s.sends[n] + if IsPending(s.core, n) then 1 else 0))
    case Receive(n) =>
      s.(core := s.core.(bufs := s.core.bufs[n := s.core.bufs[n][1..]]))
  }

  /** Call n is in exactly one of the five places. */
  ghost predicate InOnePlace(s: System, n: nat)
    requires n < |s.sends|
  {
    var pending, claimed, delivered := IsPending(s.core, n), n in s.claimed, s.sends[n] == 1;
    var cancelled, lost := n in s.cancelled, n in s.lost;
    || (pending && !claimed && !delivered && !cancelled && !lost)
    || (!pending && claimed && !delivered && !cancelled && !lost)
    || (!pending && !claimed && delivered && !cancelled && !lost)
    || (!pending && !claimed && !delivered && cancelled && !lost)
    || (!pending && !claimed && !delivered && !cancelled && lost)
  }

  ghost predicate Inv(s: System)
  {
    && s.core.Ready() && |s.sends| == |s.core.bufs|
    && (forall n :: n in s.claimed ==> n < |s.sends|)
    && (forall n :: n in s.cancelled ==> n < |s.sends|)
    && (forall n :: n in s.lost ==> n < |s.sends|)
    && (forall n :: 0 <= n < |s.sends| ==> InOnePlace(s, n) && s.sends[n] <= 1 && |s.core.bufs[n]| <= s.sends[n])
  }

  lemma StepInv(s: System, st: Step)
    requires Inv(s) && Enabled(s, st)
    ensures Inv(Apply(s, st))
  {
    var s' := Apply(s, st);
    match st
    case Register(id) => RegisterInv(s, id);
    case Cancel(id) => RemoveInv(s, st);
    case Claim(id, r) => RemoveInv(s, st);
    case Deliver(n) => DeliverInv(s, n);
    case Close => CloseInv(s);
    case Receive(n) => ReceiveInv(s, n);
  }

  lemma PendingWitness(s: Core, id: int)
    requires id in s.pending
    ensures IsPending(s, s.pending[id])
  {
  }

  lemma RegisterInv(s: System, id: int)
    requires Inv(s)
    ensures Inv(AfterRegister(s, id))
  {
    var s' := AfterRegister(s, id);
    var m := |s.sends|;
    forall n | 0 <= n < |s'.sends|
      ensures InOnePlace(s', n) && s'.sends[n] <= 1 && |s'.core.bufs[n]| <= s'.sends[n]
    {
      if n < m {
        assert InOnePlace(s, n);
        RegisterPending(s.core, id, n);
      } else if !s.core.closed {
        PendingWitness(s'.core, id);
      }
    }
  }

  /** Registering leaves the calls that were pending, but for the one whose entry it overwrites. */
  lemma RegisterPending(s: Core, id: int, n: nat)
    requires s.Ready() && n < |s.bufs|
    ensures IsPending(Registered(s, id), n) <==>
      IsPending(s, n) && (s.closed || id !in s.pending || s.pending[id] != n)
  {
    var s' := Registered(s, id);
    if IsPending(s, n) && (s.closed || id !in s.pending || s.pending[id] != n) {
      var i :| i in s.pending && s.pending[i] == n;
      assert i in s'.pending && s'.pending[i] == n;
    }
  }

  lemma RemoveInv(s: System, st: Step)
    requires Inv(s) && (st.Cancel? || st.Claim?)
    ensures Inv(Apply(s, st))
  {
    var s' := Apply(s, st);
    forall n | 0 <= n < |s'.sends| ensures InOnePlace(s', n) {
      assert InOnePlace(s, n);
      if IsPending(s.core, n) {
        var i :| i in s.core.pending && s.core.pending[i] == n;
        if i != st.id {
          assert i in s'.core.pending && s'.core.pending[i] == n;
        }
      }
    }
  }

  lemma DeliverInv(s: System, n: nat)
    requires Inv(s) && Enabled(s, Deliver(n))
    ensures Inv(Apply(s, Deliver(n)))
  {
    var s' := Apply(s, Deliver(n));
    assert InOnePlace(s, n);
    forall id | id in s'.core.pending ensures s'.core.bufs[s'.core.pending[id]] == [] {
      PendingWitness(s.core, id);
    }
    forall m | 0 <= m < |s'.sends|
      ensures InOnePlace(s', m) && s'.sends[m] <= 1 && |s'.core.bufs[m]| <= s'.sends[m]
    {
      assert InOnePlace(s, m);
      assert IsPending(s'.core, m) <==> IsPending(s.core, m);
    }
  }

  lemma CloseInv(s: System)
    requires Inv(s) && Enabled(s, Close)
    ensures Inv(Apply(s, Close))
  {
    var s' := Apply(s, Close);
    forall m | 0 <= m < |s'.sends|
      ensures InOnePlace(s', m) && s'.sends[m] <= 1 && |s'.core.bufs[m]| <= s'.sends[m]
    {
      assert InOnePlace(s, m);
    }
  }

  lemma ReceiveInv(s: System, n: nat)
    requires Inv(s) && Enabled(s, Receive(n))
    ensures Inv(Apply(s, Receive(n)))
  {
    var s' := Apply(s, Receive(n));
    forall m | 0 <= m < |s'.sends|
      ensures InOnePlace(s', m) && |s'.core.bufs[m]| <= s'.sends[m]
    {
      assert InOnePlace(s, m);
      assert IsPending(s'.core, m) <==> IsPending(s.core, m);
    }
  }

  /** The state after a run of steps, None if a step was not possible: a send on a full channel, a
      receive from an empty one. */
  ghost function Run(steps: seq<Step>): (r: Option<System>)
    ensures r.Some? ==> Inv(r.value)
  {
    if |steps| == 0 then Some(START)
    else
      var r := Run(steps[..|steps| - 1]);
      if r.Some? && Enabled(r.value, steps[|steps| - 1]) then
        StepInv(r.value, steps[|steps| - 1]);
        Some(Apply(r.value, steps[|steps| - 1]))
      else None
  }

  /**
   * Over every interleaving, with ids used as callers like: each registered call is pending,
   * claimed, delivered once, cancelled or lost to a second Register of its id, and only one of
   * these; and no send can block, neither a result for a claimed call nor Close.
   */
  lemma EveryCallInOnePlace(steps: seq<Step>)
    requires Run(steps).Some?
    ensures var s := Run(steps).value;
      && (forall n :: 0 <= n < |s.sends| ==> InOnePlace(s, n))
      && (forall n :: n in s.claimed ==> Enabled(s, Deliver(n)))
      && Enabled(s, Close)
  {
    var s := Run(steps).value;
    assert Inv(s);
    forall n | n in s.claimed ensures Enabled(s, Deliver(n)) {
      assert InOnePlace(s, n);
    }
  }

  /** No step of the run registers an id that the open engine's map holds. */
  ghost predicate NoOverwrite(steps: seq<Step>)
    requires Run(steps).Some?
  {
    |steps| == 0 ||
    var front, st := steps[..|steps| - 1], steps[|steps| - 1];
    NoOverwrite(front) &&
    (st.Register? ==> Run(front).value.core.closed || st.id !in Run(front).value.core.pending)
  }

  lemma {:induction false} NoneLostIff(steps: seq<Step>)
    requires Run(steps).Some?
    ensures Run(steps).value.lost == {} <==> NoOverwrite(steps)
    decreases |steps|
  {
    hide Inv;
    if |steps| > 0 {
      NoneLostIff(steps[..|steps| - 1]);
    }
  }

  /** Call n is waiting for its answer, has had it, or was cancelled. */
  ghost predicate LookedAfter(s: System, n: nat)
    requires n < |s.sends|
  {
    IsPending(s.core, n) || n in s.claimed || s.sends[n] == 1 || n in s.cancelled
  }

  /**
   * Over every interleaving all calls are looked after if and only if no Register met its own id in
   * the open engine's map: an id may be used again once its call is claimed or cancelled, and not
   * before.
   */
  lemma AllLookedAfterIff(steps: seq<Step>)
    requires Run(steps).Some?
    ensures (forall n :: 0 <= n < |Run(steps).value.sends| ==> LookedAfter(Run(steps).value, n))
       <==> NoOverwrite(steps)
  {
    NoneLostIff(steps);
    var s := Run(steps).value;
    assert Inv(s);
    hide Run, NoOverwrite, Core.Ready;
    forall n | 0 <= n < |s.sends| ensures LookedAfter(s, n) <==> n !in s.lost {
      assert InOnePlace(s, n);
    }
    if n :| n in s.lost {
      assert n < |s.sends| && !LookedAfter(s, n);
    }
  }

  /** Once closed, the engine stays closed with no pending call, whatever happens after. */
  lemma {:induction false} ClosedForever(steps: seq<Step>, k: nat)
    requires Run(steps).Some? && k < |steps| && steps[k] == Close
    ensures Run(steps).value.core.closed && Run(steps).value.core.pending == map[]
    decreases |steps|
  {
    var front := steps[..|steps| - 1];
    if k < |front| {
      ClosedForever(front, k);
    }
  }

  /** Close tells every pending call, and no other, that the engine is closed; a later call is told at once. */
  lemma CloseTellsAll(steps: seq<Step>, n: nat, id: int)
    requires Run(steps).Some? && n < |Run(steps).value.sends|
    ensures Run(steps + [Close]).Some? && Run(steps + [Close, Register(id)]).Some?
    ensures var s, t := Run(steps).value, Run(steps + [Close]).value;
      && |t.core.bufs| == |s.core.bufs| && t.core.closed && t.core.pending == map[]
      && t.core.bufs[n] == if IsPending(s.core, n) then [EngineClosed] else s.core.bufs[n]
    ensures var t := Run(steps + [Close, Register(id)]).value;
      t.core.pending == map[] && t.core.bufs[|t.core.bufs| - 1] == [EngineClosed]
  {
    EveryCallInOnePlace(steps);
    var s := Run(steps).value;
    var one, two := steps + [Close], steps + [Close, Register(id)];
    assert one[..|steps|] == steps && two[..|one|] == one;
    assert Inv(s);
    assert Run(one) == Some(Apply(s, Close));
    if IsPending(s.core, n) {
      assert s.core.bufs[n] == [];
    }
  }

  /** The answer to a call is what was sent for it: claims and the channel agree. */
  lemma DeliveredIsClaimed(steps: seq<Step>, n: nat)
    requires Run(steps).Some? && n in Run(steps).value.claimed
    ensures Run(steps + [Deliver(n)]).Some?
    ensures var s := Run(steps).value; var s' := Run(steps + [Deliver(n)]).value;
      s'.core.bufs[n] == [s.claimed[n]] && n !in s'.claimed && s'.sends[n] == 1
  {
    EveryCallInOnePlace(steps);
    assert (steps + [Deliver(n)])[..|steps|] == steps;
    assert InOnePlace(Run(steps).value, n);
  }

  /** Register keeps all calls looked after if and only if the engine is closed or the id not pending. */
  lemma RegisterSafeIff(s: System, id: int)
    requires Inv(s) && forall n :: 0 <= n < |s.sends| ==> LookedAfter(s, n)
    ensures (forall n :: 0 <= n < |AfterRegister(s, id).sends| ==> LookedAfter(AfterRegister(s, id), n))
       <==> s.core.closed || id !in s.core.pending
  {
    var s' := AfterRegister(s, id);
    RegisterInv(s, id);
    if s.core.closed || id !in s.core.pending {
      forall n | 0 <= n < |s'.sends| ensures LookedAfter(s', n) {
        assert InOnePlace(s', n);
        if n < |s.sends| {
          assert InOnePlace(s, n) && LookedAfter(s, n);
        }
      }
    } else {
      RegisterLoses(s, id);
      assert !LookedAfter(s', s.core.pending[id]);
    }
  }

  /** Otherwise the call that the id stood for can neither be answered nor cancelled any more. */
  lemma RegisterLoses(s: System, id: int)
    requires Inv(s) && !s.core.closed && id in s.core.pending
    ensures var s' := AfterRegister(s, id); var n := s.core.pending[id];
      n in s'.lost && s'.sends[n] == 0 && !IsPending(s'.core, n) && n !in s'.claimed && n !in s'.cancelled
  {
    var n := s.core.pending[id];
    PendingWitness(s.core, id);
    assert InOnePlace(s, n);
    RegisterInv(s, id);
    assert InOnePlace(AfterRegister(s, id), n);
  }

  /** Once lost, a call stays so: its channel never receives anything. */
  lemma {:induction false} LostForever(steps: seq<Step>, k: nat, n: nat)
    requires Run(steps).Some? && k <= |steps| && Run(steps[..k]).Some? && n in Run(steps[..k]).value.lost
    ensures var s := Run(steps).value; n in s.lost && n < |s.sends| && s.sends[n] == 0
    decreases |steps|
  {
    hide Apply, Enabled, Inv;
    if k == |steps| {
      assert steps[..k] == steps;
    } else {
      var front, st := steps[..|steps| - 1], steps[|steps| - 1];
      assert front[..k] == steps[..k];
      LostForever(front, k, n);
      StaysLost(Run(front).value, st, n);
    }
    LostIsUnsent(Run(steps).value, n);
  }

  lemma StaysLost(s: System, st: Step, n: nat)
    requires Inv(s) && Enabled(s, st) && n in s.lost
    ensures n in Apply(s, st).lost
  {
    hide Inv;
  }

  lemma LostIsUnsent(s: System, n: nat)
    requires Inv(s) && n in s.lost
    ensures n < |s.sends| && s.sends[n] == 0
  {
    assert InOnePlace(s, n);
  }

  /** The shortest such run: the same id twice. */
  lemma ReusedIdLosesACall(id: int)
    ensures Run([Register(id), Register(id)]).Some?
    ensures Run([Register(id), Register(id)]).value.lost == {0}
  {
    var one, two := [Register(id)], [Register(id), Register(id)];
    assert one[..0] == [] && two[..1] == one;
    assert Run(one) == Some(AfterRegister(START, id));
  }
}
