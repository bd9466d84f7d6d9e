/** What the per source counters mean after a whole run of packets. */
module LossAccounting {
  import opened Counting
  import opened Events
  import opened Folds
  import opened Packets
  import opened Stats

  ghost function NumberOf(rp: ValidPacket): u16 { BufferNumber(rp.packet) }

  /** The packets of one source, in order. */
  ghost function OfSource(rps: seq<ValidPacket>, k: SourceKey): seq<ValidPacket> {
    Filter(rps, HasKey(SourceKeyOf, k))
  }

  /** The loss counters of a source, as far as they depend on its buffer numbers. */
  datatype Loss = Loss(packets: nat, lost: nat, jumps: nat, last: Option<u16>)

  ghost function LossPart(st: SourceStats): Loss {
    Loss(st.packets, st.packetsLost, st.bufferNumberJumps,
         if st.haveBufferNumber then Some(st.lastBufferNumber) else None)
  }

  ghost function LossStep(before: Loss, number: u16): Loss {
    var gap := if before.last.Some? then BufferNumberGap(before.last.value, number) else Some(0);
    match gap
    case Some(n) => Loss(before.packets + 1, before.lost + n, before.jumps, Some(number))
    case None => Loss(before.packets + 1, before.lost, before.jumps + 1, Some(number))
  }

  const NO_LOSS: Loss := Loss(0, 0, 0, None)

  ghost function LossOf(numbers: seq<u16>): Loss { Fold(NO_LOSS, numbers, LossStep) }

  lemma LossOfPacket(st: SourceStats, rp: ValidPacket)
    ensures LossPart(Counted(st, rp)) == LossStep(LossPart(st), NumberOf(rp))
  {
  }

  /** What one more packet adds: nothing for the first one, a jump when its number is the last one
      or at most 0x8000 before it, and otherwise the numbers left out since the last one. */
  lemma LossOfNext(numbers: seq<u16>, last: u16, number: u16)
    ensures LossOf([last]) == Loss(1, 0, 0, Some(last))
    ensures
      var before, after := LossOf(numbers + [last]), LossOf(numbers + [last, number]);
      var ahead := (number as int - last as int + 0x1_0000) % 0x1_0000;
      && after.packets == before.packets + 1
      && after.jumps == before.jumps + (if ahead == 0 || ahead >= 0x8000 then 1 else 0)
      && after.lost == before.lost + (if ahead == 0 || ahead >= 0x8000 then 0 else ahead - 1)
  {
    assert [last][..0] == [] && LossOf([]) == NO_LOSS;
    assert LossOf([last]) == LossStep(LossOf([]), last);
    assert (numbers + [last])[..|numbers|] == numbers;
    assert numbers + [last, number] == numbers + [last] + [number];
    assert (numbers + [last] + [number])[..|numbers| + 1] == numbers + [last];
  }

  /** A source that starts from zeroed counters, as new ones and those after reset() do,
      is accounted for by its own buffer numbers, however other sources interleave. */
  lemma LossOfSource(start: map<SourceKey, SourceStats>, rps: seq<ValidPacket>, k: SourceKey)
    requires Lookup(start, k, NO_STATS) == NO_STATS
    ensures LossPart(Lookup(StatsOf(start, rps), k, NO_STATS)) == LossOf(MapSeq(OfSource(rps, k), NumberOf))
  {
    KeysAreIndependent(start, rps, SourceKeyOf, NO_STATS, Counted, k);
    forall st: SourceStats, rp: ValidPacket
      ensures LossPart(Counted(st, rp)) == LossStep(LossPart(st), NumberOf(rp))
    {
      LossOfPacket(st, rp);
    }
    ProjectedFold(NO_STATS, OfSource(rps, k), Counted, LossPart, NumberOf, LossStep);
  }

  /** Numbers that grow by 1 to 0x7fff from one packet to the next. */
  ghost predicate StepsForward(sent: seq<nat>) {
    forall i: nat | i + 1 < |sent| :: sent[i] < sent[i + 1] <= sent[i] + 0x7fff
  }

  /** What the 16 bit field shows of unbounded numbers. */
  ghost predicate Truncates(numbers: seq<u16>, sent: seq<nat>) {
    |sent| == |numbers| && forall i: nat | i < |sent| :: numbers[i] == sent[i] % 0x1_0000
  }

  /** Between unbounded numbers a gap is the count of the numbers in between; staying or
      going back by at most 0x8000 is a jump. */
  lemma GapCountsMissing(last: nat, current: nat)
    ensures 1 <= current - last <= 0x7fff ==>
      BufferNumberGap(last % 0x1_0000, current % 0x1_0000) == Some(current - last - 1)
    ensures 0 <= last - current <= 0x8000 ==>
      BufferNumberGap(last % 0x1_0000, current % 0x1_0000) == None
  {
  }

  /** Loss accounting is exact across any number of wraparounds, and however other sources
      interleave: starting from zeroed counters, everything not received was counted as lost. */
  lemma LossIsExact(start: map<SourceKey, SourceStats>, rps: seq<ValidPacket>, k: SourceKey, sent: seq<nat>)
    requires Lookup(start, k, NO_STATS) == NO_STATS && sent != []
    requires Truncates(MapSeq(OfSource(rps, k), NumberOf), sent) && StepsForward(sent)
    ensures
      var st := Lookup(StatsOf(start, rps), k, NO_STATS);
      && st.packets == |sent| && st.bufferNumberJumps == 0
      && st.packetsLost == sent[|sent| - 1] - sent[0] + 1 - |sent|
  {
    LossOfSource(start, rps, k);
    LossOfForward(MapSeq(OfSource(rps, k), NumberOf), sent);
  }

  lemma {:induction false} LossOfForward(numbers: seq<u16>, sent: seq<nat>)
    requires numbers != [] && Truncates(numbers, sent) && StepsForward(sent)
    ensures
      var loss := LossOf(numbers);
      && loss.packets == |sent| && loss.jumps == 0 && loss.last == Some(numbers[|numbers| - 1])
      && loss.lost == sent[|sent| - 1] - sent[0] + 1 - |sent|
  {
    var n := |numbers| - 1;
    if n > 0 {
      LossOfForward(numbers[..n], sent[..n]);
      GapCountsMissing(sent[n - 1], sent[n]);
    } else {
      assert LossOf(numbers[..n]) == NO_LOSS;
    }
  }

  /** The unbounded numbers suggested by the received ones. */
  ghost function Unwrapped(numbers: seq<u16>): (sent: seq<nat>)
    ensures |sent| == |numbers|
  {
    if numbers == [] then []
    else
      var n := |numbers| - 1;
      var sent := Unwrapped(numbers[..n]);
      var number: int := numbers[n];
      if n == 0 then [number] else sent + [sent[n - 1] + (number - numbers[n - 1]) % 0x1_0000]
  }

  lemma {:induction false} UnwrappedTruncates(numbers: seq<u16>)
    ensures Truncates(numbers, Unwrapped(numbers))
  {
    if |numbers| > 1 {
      var n := |numbers| - 1;
      var sent := Unwrapped(numbers[..n]);
      UnwrappedTruncates(numbers[..n]);
      StepTruncates(sent[n - 1], numbers[n]);
      forall i: nat | i < n ensures numbers[i] == Unwrapped(numbers)[i] % 0x1_0000 {
        assert numbers[i] == numbers[..n][i] == sent[i] % 0x1_0000;
      }
    }
  }

  lemma StepTruncates(last: nat, number: u16)
    ensures
      var n: int := number;
      (last + (n - last % 0x1_0000) % 0x1_0000) % 0x1_0000 == number
  {
  }

  lemma {:induction false} UnwrappedForward(numbers: seq<u16>)
    requires LossOf(numbers).jumps == 0
    ensures StepsForward(Unwrapped(numbers))
    ensures numbers != [] ==> LossOf(numbers).last == Some(numbers[|numbers| - 1])
  {
    if numbers != [] {
      UnwrappedForward(numbers[..|numbers| - 1]);
    }
  }

  /** No jump is reported exactly when the received numbers can be explained by a forward
      sequence. Repeated or reordered packets cannot. */
  lemma NoJumpsIffForward(numbers: seq<u16>)
    ensures LossOf(numbers).jumps == 0
       <==> exists sent: seq<nat> :: Truncates(numbers, sent) && StepsForward(sent)
  {
    if LossOf(numbers).jumps == 0 {
      UnwrappedTruncates(numbers);
      UnwrappedForward(numbers);
    } else if sent: seq<nat> :| Truncates(numbers, sent) && StepsForward(sent) && numbers != [] {
      LossOfForward(numbers, sent);
    }
  }

  ghost function One(rp: ValidPacket): nat { 1 }
  ghost function TriggerWeight(rp: ValidPacket): nat { Count(CountedEvents(rp.packet), IsTrigger) }
  ghost function NeutronWeight(rp: ValidPacket): nat { Count(CountedEvents(rp.packet), IsAnyNeutron) }
  ghost function EventWeight(rp: ValidPacket): nat { |CountedEvents(rp.packet)| }

  /** The counters of the collector grow by a weight per packet. */
  lemma CountersAreAdditive()
    ensures Additive(PacketsOf, NO_STATS, Counted, One)
    ensures Additive(EventsOf, NO_STATS, Counted, EventWeight)
    ensures Additive(NeutronsOf, NO_STATS, Counted, NeutronWeight)
    ensures Additive(TriggersOf, NO_STATS, Counted, TriggerWeight)
  {
    forall rp: ValidPacket ensures EventWeight(rp) == NeutronWeight(rp) + TriggerWeight(rp) {
      NeutronsAndTriggers(CountedEvents(rp.packet));
    }
  }

  lemma {:induction false} EventsAreNeutronsOrTriggers(rps: seq<ValidPacket>)
    ensures WeightOf(rps, EventWeight) == WeightOf(rps, NeutronWeight) + WeightOf(rps, TriggerWeight)
    ensures WeightOf(rps, One) == |rps|
  {
    if rps != [] {
      EventsAreNeutronsOrTriggers(rps[..|rps| - 1]);
      NeutronsAndTriggers(CountedEvents(rps[|rps| - 1].packet));
    }
  }

  ghost predicate AllZero(stats: map<SourceKey, SourceStats>) {
    forall k | k in stats :: stats[k] == NO_STATS
  }

  /** getTotals() counts every packet delivered since all counters were zero once, after reset()
      with its known sources as well as after clear(), and every counted event is a neutron
      or a trigger: in total and for each source. */
  lemma TotalsCountEverything(start: map<SourceKey, SourceStats>, rps: seq<ValidPacket>, k: SourceKey)
    requires AllZero(start)
    ensures
      var stats := StatsOf(start, rps);
      var st := Lookup(stats, k, NO_STATS);
      && SumBy(stats, PacketsOf) == |rps|
      && SumBy(stats, EventsOf) == SumBy(stats, NeutronsOf) + SumBy(stats, TriggersOf)
      && st.packets == |OfSource(rps, k)| && st.events == st.neutronEvents + st.triggerEvents
  {
    CountersAreAdditive();
    EventsAreNeutronsOrTriggers(rps);
    TotalIsWeight(start, rps, PacketsOf, One);
    TotalIsWeight(start, rps, EventsOf, EventWeight);
    TotalIsWeight(start, rps, NeutronsOf, NeutronWeight);
    TotalIsWeight(start, rps, TriggersOf, TriggerWeight);
    var own := OfSource(rps, k);
    EventsAreNeutronsOrTriggers(own);
    KeysAreIndependent(start, rps, SourceKeyOf, NO_STATS, Counted, k);
    AdditiveFold(own, NO_STATS, Counted, PacketsOf, One);
    AdditiveFold(own, NO_STATS, Counted, EventsOf, EventWeight);
    AdditiveFold(own, NO_STATS, Counted, NeutronsOf, NeutronWeight);
    AdditiveFold(own, NO_STATS, Counted, TriggersOf, TriggerWeight);
  }

  lemma TotalIsWeight(
    start: map<SourceKey, SourceStats>, rps: seq<ValidPacket>, f: SourceStats -> nat, w: ValidPacket -> nat)
    requires AllZero(start) && f(NO_STATS) == 0 && Additive(f, NO_STATS, Counted, w)
    ensures SumBy(StatsOf(start, rps), f) == WeightOf(rps, w)
  {
    SumOfZeros(start, f);
    AdditiveTotal(start, rps, SourceKeyOf, NO_STATS, Counted, f, w);
  }

  ghost function ReceivedBytes(rp: ValidPacket): nat { rp.bytes }

  /** The packets of two reads belong to the same source exactly when they have the same sender
      and the same byte behind the device status. */
  lemma SameSourceIff(rp: ValidPacket, other: ValidPacket)
    ensures SourceKeyOf(rp) == SourceKeyOf(other) <==>
            rp.srcAddr == other.srcAddr && rp.packet[11] == other.packet[11]
  {
    hide IsValidDataPacket;
  }

  /** Events are counted for the buffer types 1 and 2 only, then all there are. */
  lemma CountedTypes(p: DataPacket)
    requires LengthFieldsOk(p)
    ensures |CountedEvents(p)| == if BufferType(p) == 1 || BufferType(p) == 2 then EventCount(p) else 0
  {
  }

  /** What the entry of a source says: the bytes received in its packets, and for the last* fields
      what its last packet said. */
  lemma EntryOfSource(start: map<SourceKey, SourceStats>, rps: seq<ValidPacket>, k: SourceKey)
    requires Lookup(start, k, NO_STATS) == NO_STATS
    ensures
      var own := OfSource(rps, k);
      var st := Lookup(StatsOf(start, rps), k, NO_STATS);
      && st.bytes == WeightOf(own, ReceivedBytes) && st.events == WeightOf(own, EventWeight)
      && st.triggerEvents == WeightOf(own, TriggerWeight) && st.neutronEvents == WeightOf(own, NeutronWeight)
      && (own != [] ==>
            var p := own[|own| - 1].packet;
            && k in StatsOf(start, rps)
            && st.bufferType == BufferType(p) && st.lastBufferNumber == BufferNumber(p) && st.haveBufferNumber
            && st.lastDeviceStatus == DeviceStatus(p) && st.lastRunId == RunId(p)
            && st.lastHeaderTimestamp == HeaderTimestamp(p) && st.lastParams == ParameterValues(p))
  {
    hide IsValidDataPacket, CountedEvents, HeaderTimestamp, ParameterValues;
    var own := OfSource(rps, k);
    KeysAreIndependent(start, rps, SourceKeyOf, NO_STATS, Counted, k);
    forall st: SourceStats, rp: ValidPacket
      ensures BytesOf(Counted(st, rp)) == BytesOf(st) + ReceivedBytes(rp)
    {
    }
    AdditiveFold(own, NO_STATS, Counted, BytesOf, ReceivedBytes);
    CountersAreAdditive();
    AdditiveFold(own, NO_STATS, Counted, EventsOf, EventWeight);
    AdditiveFold(own, NO_STATS, Counted, NeutronsOf, NeutronWeight);
    AdditiveFold(own, NO_STATS, Counted, TriggersOf, TriggerWeight);
    if own != [] {
      var before := Fold(NO_STATS, own[..|own| - 1], Counted);
      assert Fold(NO_STATS, own, Counted) == Counted(before, own[|own| - 1]);
    }
  }
}
