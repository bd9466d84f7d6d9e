/** Per source counters and 16 bit packet loss accounting. */
module Stats {
  import opened Counting
  import opened Events
  import opened Folds
  import opened Packets

  datatype SourceKey = SourceKey(srcAddr: u32, deviceId: u8)

  function SourceKeyOf(rp: ValidPacket): SourceKey {
    SourceKey(rp.srcAddr, DeviceId(rp.packet))
  }

  /** Packets lost between two consecutive buffer numbers, None for a jump. The u16
      subtraction wraps around. */
  function BufferNumberGap(last: u16, current: u16): Option<u16> {
    var distance := (current - last) % 0x1_0000;
    if distance == 0 || distance >= 0x8000 then None else Some(distance - 1)
  }

  datatype SourceStats = SourceStats(
    bufferType: u16, packets: nat, bytes: nat, events: nat, neutronEvents: nat, triggerEvents: nat,
    packetsLost: nat, bufferNumberJumps: nat, lastBufferNumber: u16, haveBufferNumber: bool,
    lastDeviceStatus: u8, lastRunId: u16, lastHeaderTimestamp: nat, lastParams: seq<nat>)

  const NO_STATS: SourceStats :=
    SourceStats(0, 0, 0, 0, 0, 0, 0, 0, 0, false, 0, 0, 0, [0, 0, 0, 0])

  predicate IsData(p: DataPacket) {
    BufferType(p) == MCPD_DATA_BUFFER_TYPE || BufferType(p) == MDLL_DATA_BUFFER_TYPE
  }

  /** The events a packet counts for: none unless it is a data packet. */
  ghost function CountedEvents(p: DataPacket): seq<EventBody>
    requires LengthFieldsOk(p)
  {
    if IsData(p) then Bodies(p, BufferType(p)) else []
  }

  /** The loss accounting of one packet. The first packet of a source is only a baseline. */
  function LossCounted(st: SourceStats, bufferNumber: u16): SourceStats {
    var gap := BufferNumberGap(st.lastBufferNumber, bufferNumber);
    if !st.haveBufferNumber then st
    else if gap.Some? then st.(packetsLost := st.packetsLost + gap.value)
    else st.(bufferNumberJumps := st.bufferNumberJumps + 1)
  }

  /** The assignments to the entry of the packet's source. */
  function Updated(st: SourceStats, rp: ReceivedPacket, eventCount: nat, triggers: nat): SourceStats
    requires triggers <= eventCount
  {
    var p := rp.packet;
    LossCounted(st, BufferNumber(p)).(
    bufferType := BufferType(p), lastBufferNumber := BufferNumber(p), haveBufferNumber := true,
    packets := st.packets + 1, bytes := st.bytes + rp.bytes, events := st.events + eventCount,
    triggerEvents := st.triggerEvents + triggers,
    neutronEvents := st.neutronEvents + (eventCount - triggers),
    lastDeviceStatus := DeviceStatus(p), lastRunId := RunId(p),
    lastHeaderTimestamp := HeaderTimestamp(p), lastParams := ParameterValues(p))
  }

  /** One more packet of a source, with its events counted by the slow decoder. */
  ghost function Counted(st: SourceStats, rp: ValidPacket): SourceStats {
    NeutronsAndTriggers(CountedEvents(rp.packet));
    Updated(st, rp, |CountedEvents(rp.packet)|, Count(CountedEvents(rp.packet), IsTrigger))
  }

  ghost predicate IsAnyNeutron(b: EventBody) { b.Neutron? || b.MdllNeutron? }

  /** The collector's map after consuming rps: every packet updates the entry of its source. */
  ghost function StatsOf(start: map<SourceKey, SourceStats>, rps: seq<ValidPacket>): map<SourceKey, SourceStats> {
    KeyedFold(start, rps, SourceKeyOf, NO_STATS, Counted)
  }

  lemma {:induction false} NeutronsAndTriggers(s: seq<EventBody>)
    ensures Count(s, IsAnyNeutron) + Count(s, IsTrigger) == |s|
  {
    if s != [] {
      NeutronsAndTriggers(s[..|s| - 1]);
      assert IsAnyNeutron(s[|s| - 1]) <==> !IsTrigger(s[|s| - 1]);
    }
  }

  /** The counting loop of consume(). */
  method CountEvents(p: DataPacket) returns (eventCount: nat, triggers: nat)
    requires LengthFieldsOk(p)
    ensures eventCount == |CountedEvents(p)|
    ensures triggers == Count(CountedEvents(p), IsTrigger)
    ensures eventCount - triggers == Count(CountedEvents(p), IsAnyNeutron)
  {
    eventCount, triggers := if IsData(p) then EventCount(p) else 0, 0;
    ghost var events := CountedEvents(p);
    for i := 0 to eventCount
      invariant triggers == Count(events[..i], IsTrigger) <= i
    {
      NextBody(p, BufferType(p), i);
      CountSnoc(events[..i], DecodeBody(RawEvent(p, i), BufferType(p)), IsTrigger);
      if IsTriggerBit(RawEvent(p, i)) {
        triggers := triggers + 1;
      }
    }
    assert events[..eventCount] == events;
    NeutronsAndTriggers(events);
  }

  class SourceStatsCollector {
    var stats: map<SourceKey, SourceStats>

    constructor ()
      ensures stats == map[]
    {
      stats := map[];
    }

    method Consume(rp: ValidPacket)
      modifies this
      ensures stats == old(stats)[SourceKeyOf(rp) := Counted(Lookup(old(stats), SourceKeyOf(rp), NO_STATS), rp)]
    {
      var eventCount, triggers := CountEvents(rp.packet);
      var key := SourceKeyOf(rp);
      stats := stats[key := Updated(Lookup(stats, key, NO_STATS), rp, eventCount, triggers)];
    }

    /** Sums over all sources. The keys are visited in some order: SumBy does not depend on it. */
    method GetTotals() returns (result: SourceStats)
      ensures result.packets == SumBy(stats, PacketsOf) && result.bytes == SumBy(stats, BytesOf)
      ensures result.events == SumBy(stats, EventsOf) && result.neutronEvents == SumBy(stats, NeutronsOf)
      ensures result.triggerEvents == SumBy(stats, TriggersOf)
      ensures result.packetsLost == SumBy(stats, LostOf) && result.bufferNumberJumps == SumBy(stats, JumpsOf)
    {
      result := NO_STATS;
      var rest := stats;
      while rest != map[]
        invariant result.packets + SumBy(rest, PacketsOf) == SumBy(stats, PacketsOf)
        invariant result.bytes + SumBy(rest, BytesOf) == SumBy(stats, BytesOf)
        invariant result.events + SumBy(rest, EventsOf) == SumBy(stats, EventsOf)
        invariant result.neutronEvents + SumBy(rest, NeutronsOf) == SumBy(stats, NeutronsOf)
        invariant result.triggerEvents + SumBy(rest, TriggersOf) == SumBy(stats, TriggersOf)
        invariant result.packetsLost + SumBy(rest, LostOf) == SumBy(stats, LostOf)
        invariant result.bufferNumberJumps + SumBy(rest, JumpsOf) == SumBy(stats, JumpsOf)
        decreases |rest|
      {
        var key :| key in rest;
        SumRemove(rest, key, PacketsOf);
        SumRemove(rest, key, BytesOf);
        SumRemove(rest, key, EventsOf);
        SumRemove(rest, key, NeutronsOf);
        SumRemove(rest, key, TriggersOf);
        SumRemove(rest, key, LostOf);
        SumRemove(rest, key, JumpsOf);
        var st := rest[key];
        result := result.(packets := result.packets + st.packets, bytes := result.bytes + st.bytes,
                          events := result.events + st.events,
                          neutronEvents := result.neutronEvents + st.neutronEvents,
                          triggerEvents := result.triggerEvents + st.triggerEvents,
                          packetsLost := result.packetsLost + st.packetsLost,
                          bufferNumberJumps := result.bufferNumberJumps + st.bufferNumberJumps);
        rest := rest - {key};
      }
    }

    /** Zeroes all counters and forgets the last buffer numbers, but keeps the sources. */
    method Reset()
      modifies this
      ensures stats == map k | k in old(stats) :: NO_STATS
    {
      var rest := stats.Keys;
      while rest != {}
        invariant rest <= stats.Keys == old(stats).Keys
        invariant forall k | k in stats && k !in rest :: stats[k] == NO_STATS
        decreases |rest|
      {
        var key :| key in rest;
        stats := stats[key := NO_STATS];
        rest := rest - {key};
      }
    }

    method Clear()
      modifies this
      ensures stats == map[]
    {
      stats := map[];
    }
  }

  function PacketsOf(s: SourceStats): nat { s.packets }
  function BytesOf(s: SourceStats): nat { s.bytes }
  function EventsOf(s: SourceStats): nat { s.events }
  function NeutronsOf(s: SourceStats): nat { s.neutronEvents }
  function TriggersOf(s: SourceStats): nat { s.triggerEvents }
  function LostOf(s: SourceStats): nat { s.packetsLost }
  function JumpsOf(s: SourceStats): nat { s.bufferNumberJumps }
}
