/** The load test's order and duplicate thresholds, as a consequence of the end-to-end order result. */
module Guarantees {
  import opened ChatTypes
  import Batching
  import Pipeline
  import Delivery
  import Isolation

  lemma {:induction false} OneRoomOnly(ms: seq<Message>, r: Room)
    requires forall m :: m in ms ==> m.room == r
    ensures InRoom(ms, r) == ms
  {
    InRoomPure(ms, r, r);
  }

  /** In every run, a receiver whose socket joins one room only counts no duplicate and no message out of
      order, whatever else happens in the system. */
  lemma {:induction false} OneRoomReceiver(steps: seq<Pipeline.Step>, n: Pipeline.NodeId, s: Socket, r: Room)
    requires Pipeline.Runnable(Pipeline.Initial(), steps) && n in Pipeline.Run(Pipeline.Initial(), steps).nodes
    requires forall q :: Pipeline.OnNode(n, Pipeline.Register(s, q)) in steps ==> q == r
    ensures var live := Batching.Handed(Pipeline.Run(Pipeline.Initial(), steps).nodes[n].fan, s);
            var monitor := Delivery.ObserveAll(Delivery.NEW_MONITOR, Delivery.Payloads(live));
            monitor.received == |live| && monitor.duplicates == 0 && monitor.outOfOrder == 0
  {
    var sys := Pipeline.Run(Pipeline.Initial(), steps);
    var live := Batching.Handed(sys.nodes[n].fan, s);
    forall m | m in live ensures m.room == r {
      Isolation.HandedAfterJoin(steps, n, s, m);
    }
    Pipeline.EndToEndOrder(steps, n, s, r);
    OneRoomOnly(live, r);
    Delivery.MonitorStaysSilent(live, InRoom(sys.db.log, r));
    Delivery.DuplicatesExact(Delivery.Payloads(live));
  }
}
