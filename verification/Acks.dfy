/** The acknowledgement queue over any interleaving of Dispatch and PopAcks calls. */
module Acks {
  import opened Rpc
  import opened Dispatch

  /** The lock regions on the queue: one id appended by a Dispatch, or everything taken by PopAcks. */
  datatype AckStep = Queue(id: int) | Pop

  datatype AckState = AckState(popped: seq<seq<int>>, queue: seq<int>)

  function AfterAcks(steps: seq<AckStep>): (s: AckState)
  {
    if |steps| == 0 then AckState([], [])
    else
      var s := AfterAcks(steps[..|steps| - 1]);
      match steps[|steps| - 1]
      case Queue(id) => s.(queue := s.queue + [id])
      case Pop => AckState(s.popped + [s.queue], [])
  }

  function QueuedIds(steps: seq<AckStep>): (ids: seq<int>)
  {
    if |steps| == 0 then []
    else QueuedIds(steps[..|steps| - 1]) + match steps[|steps| - 1] case Queue(id) => [id] case Pop => []
  }

  function Flatten(lists: seq<seq<int>>): (ids: seq<int>)
  {
    if |lists| == 0 then [] else Flatten(lists[..|lists| - 1]) + lists[|lists| - 1]
  }

  /** All PopAcks results followed by the current queue are every id ever queued, in order. */
  lemma {:induction false} AcksConserved(steps: seq<AckStep>)
    ensures Flatten(AfterAcks(steps).popped) + AfterAcks(steps).queue == QueuedIds(steps)
  {
    if |steps| > 0 {
      var s := AfterAcks(steps[..|steps| - 1]);
      AcksConserved(steps[..|steps| - 1]);
      if steps[|steps| - 1].Pop? {
        assert (s.popped + [s.queue])[..|s.popped|] == s.popped;
      }
    }
  }

  /**
   * If the ids of a run are those an engine queues for messages dispatched one after the other with
   * success, then after a last PopAcks every id of every message tree has been handed out: in
   * preorder, once per occurrence, however the other pops fell between.
   */
  lemma LastPopDrains(s: Core, msgs: seq<Item>, steps: seq<AckStep>)
    requires s.Ready() && s.acks == []
    requires EffectItems(s, msgs).1.Done? && QueuedIds(steps) == EffectItems(s, msgs).0.acks
    requires |steps| > 0 && steps[|steps| - 1] == Pop
    ensures Flatten(AfterAcks(steps).popped) == PreorderItems(msgs)
  {
    hide *;
    AcksOfItems(s, msgs);
    QueuedDone(s, EffectItems(s, msgs), PreorderItems(msgs));
    AcksConserved(steps);
    PopEmpties(steps);
    var popped := Flatten(AfterAcks(steps).popped);
    assert popped + [] == popped && [] + PreorderItems(msgs) == PreorderItems(msgs);
  }

  lemma PopEmpties(steps: seq<AckStep>)
    requires |steps| > 0 && steps[|steps| - 1] == Pop
    ensures AfterAcks(steps).queue == []
  {
  }
}
