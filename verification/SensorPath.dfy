/**
 * From the bus to the sensor callback: the HAL read, reassembly and the sensor input handler
 * together.
 */
module SensorPath {
  import opened Bytes
  import opened Shtp
  import ShtpReceive
  import HalRead
  import opened Sh2Input

  /** Reports the hub holds as one cargo become events and routed flush reports, all of them
      and in order. No arrival time gets through, so the clock stands still and every stamp is
      the report's bare offset modulo 2^32. */
  method ReadReports(rx: ShtpReceive.Receiver, hub: HalRead.Hub, inTransfer: array<byte>, polls: nat,
                     input: Input, reports: seq<bytes>, after: bytes)
      returns (ghost made: seq<Event>)
    requires hub.Valid() && !hub.idle && rx.Valid() && rx.Pending() == None && inTransfer.Length == MAX_PAYLOAD_IN
    requires inTransfer != rx.inPayload && inTransfer != rx.nextInSeq
    requires hub.chan < Min(MAX_CHANS, rx.nextChanListener) && rx.listening[hub.chan]
    requires hub.faults == [] && |hub.body| + HDR_LEN <= MAX_PAYLOAD_IN
    requires hub.body == Concat(reports) && Payload(reports, [], after, 0).Whole(input.table) && input.clock.Follows(0)
    modifies hub, inTransfer, rx, rx.inPayload, rx.nextInSeq
    modifies input`events, input`flushes, input`unknownReportIds, input.clock
    ensures rx.Valid() && rx.Pending() == None && hub.body == [] && input.clock.Follows(0)
    ensures |made| == |DueOf(input.table, [], reports, 0)|
    ensures forall i :: 0 <= i < |made| ==>
      var due := DueOf(input.table, [], reports, 0)[i];
      made[i] == Event(Mod32(due.offset), due.report)
    ensures input.events == old(input.events) + (if input.sensorCallback then made else [])
    ensures input.flushes == old(input.flushes) + FlushesOf(input.table, reports)
    ensures input.unknownReportIds == old(input.unknownReportIds)
  {
    var done;
    ghost var lost;
    done, lost := HalRead.ServiceUntilRead(rx, hub, inTransfer, polls, 1);
    var call := rx.delivered[|rx.delivered| - 1];
    assert call.payload == Concat(reports) && call.timestamp == 0;
    made := InputOne(input, Payload(reports, [], after, call.timestamp), 0);
    ghost var dues := DueOf(input.table, [], reports, 0);
    forall i | 0 <= i < |made|
      ensures made[i] == Event(Mod32(dues[i].offset), dues[i].report)
    {
      assert Stamped(made[i], dues[i]) && dues[i] in dues;
      WithoutArrivalTimes(made[i], dues[i]);
    }
  }
}
