/** The standard consumer list: statistics plus both histogrammers. They share no code
    path and no lock. Between packets they agree with each other up to what came between
    their last clears. */
module Daq {
  import opened Counting
  import opened Events
  import opened Folds
  import opened Histograms
  import opened Histogrammers
  import opened LossAccounting
  import opened Packets
  import opened Stats

  ghost function MdllWeight(rp: ValidPacket): nat {
    if BufferType(rp.packet) == MDLL_DATA_BUFFER_TYPE then MdllBodiesWeight(rp) else 0
  }

  ghost function McpdWeight(rp: ValidPacket): nat {
    if BufferType(rp.packet) == MCPD_DATA_BUFFER_TYPE then McpdBodiesWeight(rp) else 0
  }

  /** A packet counts for the statistics exactly as much as for the two histogrammers together. */
  lemma NeutronsSplitByType(rp: ValidPacket)
    ensures NeutronWeight(rp) == MdllWeight(rp) + McpdWeight(rp)
  {
    var p := rp.packet;
    var mdll, mcpd := Bodies(p, MDLL_DATA_BUFFER_TYPE), Bodies(p, MCPD_DATA_BUFFER_TYPE);
    CountSame(mdll, IsAnyNeutron, IsMdllNeutron);
    CountSame(mcpd, IsAnyNeutron, IsNeutron);
  }

  lemma {:induction false} NeutronWeightsSplit(rps: seq<ValidPacket>)
    ensures WeightOf(rps, NeutronWeight) == WeightOf(rps, MdllWeight) + WeightOf(rps, McpdWeight)
  {
    if rps != [] {
      NeutronWeightsSplit(rps[..|rps| - 1]);
      NeutronsSplitByType(rps[|rps| - 1]);
    }
  }

  ghost function MdllNeutrons(events: seq<EventBody>): nat { Count(events, IsMdllNeutron) }
  ghost function McpdNeutrons(events: seq<EventBody>): nat { Count(events, IsNeutron) }

  ghost function MdllBodiesWeight(rp: ValidPacket): nat { MdllNeutrons(Bodies(rp.packet, MDLL_DATA_BUFFER_TYPE)) }
  ghost function McpdBodiesWeight(rp: ValidPacket): nat { McpdNeutrons(Bodies(rp.packet, MCPD_DATA_BUFFER_TYPE)) }

  lemma HistoriesAreAdditive()
    ensures Additive(MdllNeutrons, [], AppendMdll, MdllBodiesWeight)
    ensures Additive(McpdNeutrons, [], AppendMcpd, McpdBodiesWeight)
  {
    forall events: seq<EventBody>, rp: ValidPacket
      ensures MdllNeutrons(AppendMdll(events, rp)) == MdllNeutrons(events) + MdllBodiesWeight(rp)
      ensures McpdNeutrons(AppendMcpd(events, rp)) == McpdNeutrons(events) + McpdBodiesWeight(rp)
    {
      CountConcat(events, Bodies(rp.packet, MDLL_DATA_BUFFER_TYPE), IsMdllNeutron);
      CountConcat(events, Bodies(rp.packet, MCPD_DATA_BUFFER_TYPE), IsNeutron);
    }
  }

  /** The MDLL neutrons in the history of a source, as a weight of its own packets. */
  lemma MdllNeutronsOf(start: map<SourceKey, seq<EventBody>>, rps: seq<ValidPacket>, k: SourceKey)
    requires Lookup(start, k, []) == []
    ensures MdllNeutrons(Lookup(MdllEventsOf(start, rps), k, [])) == WeightOf(OfSource(rps, k), MdllWeight)
  {
    var typed := Filter(rps, HasType(MDLL_DATA_BUFFER_TYPE));
    HistoriesAreAdditive();
    KeysAreIndependent(start, typed, SourceKeyOf, [], AppendMdll, k);
    FiltersCommute(rps, HasType(MDLL_DATA_BUFFER_TYPE), HasKey(SourceKeyOf, k));
    AdditiveFold(OfSource(typed, k), [], AppendMdll, MdllNeutrons, MdllBodiesWeight);
    FilteredWeight(OfSource(rps, k), HasType(MDLL_DATA_BUFFER_TYPE), MdllBodiesWeight, MdllWeight);
  }

  lemma McpdNeutronsOf(start: map<SourceKey, seq<EventBody>>, rps: seq<ValidPacket>, k: SourceKey)
    requires Lookup(start, k, []) == []
    ensures McpdNeutrons(Lookup(McpdEventsOf(start, rps), k, [])) == WeightOf(OfSource(rps, k), McpdWeight)
  {
    var typed := Filter(rps, HasType(MCPD_DATA_BUFFER_TYPE));
    HistoriesAreAdditive();
    KeysAreIndependent(start, typed, SourceKeyOf, [], AppendMcpd, k);
    FiltersCommute(rps, HasType(MCPD_DATA_BUFFER_TYPE), HasKey(SourceKeyOf, k));
    AdditiveFold(OfSource(typed, k), [], AppendMcpd, McpdNeutrons, McpdBodiesWeight);
    FilteredWeight(OfSource(rps, k), HasType(MCPD_DATA_BUFFER_TYPE), McpdBodiesWeight, McpdWeight);
  }

  lemma NeutronEventsOf(start: map<SourceKey, SourceStats>, rps: seq<ValidPacket>, k: SourceKey)
    requires Lookup(start, k, NO_STATS) == NO_STATS
    ensures Lookup(StatsOf(start, rps), k, NO_STATS).neutronEvents == WeightOf(OfSource(rps, k), NeutronWeight)
  {
    CountersAreAdditive();
    KeysAreIndependent(start, rps, SourceKeyOf, NO_STATS, Counted, k);
    AdditiveFold(OfSource(rps, k), NO_STATS, Counted, NeutronsOf, NeutronWeight);
  }

  /** What the packets p[from..to] of a source weigh; negative when from lies behind to. */
  ghost function Straddling(p: seq<ValidPacket>, k: SourceKey, w: ValidPacket -> nat, from: nat, to: nat): int
    requires from <= |p| && to <= |p|
  {
    if from <= to then WeightOf(OfSource(p[from..to], k), w) else 0 - WeightOf(OfSource(p[to..from], k), w)
  }

  /** Starting at b instead of a changes the weight by that of the packets in between. */
  lemma LaterStart(p: seq<ValidPacket>, k: SourceKey, w: ValidPacket -> nat, a: nat, b: nat)
    requires a <= |p| && b <= |p|
    ensures WeightOf(OfSource(p[a..], k), w) == WeightOf(OfSource(p[b..], k), w) + Straddling(p, k, w, a, b)
  {
    var low, high := if a <= b then a else b, if a <= b then b else a;
    assert p[low..] == p[low..high] + p[high..];
    FilterConcat(p[low..high], p[high..], HasKey(SourceKeyOf, k));
    WeightOfConcat(OfSource(p[low..high], k), OfSource(p[high..], k), w);
  }

  /** Which consumer the worker calls next; None between packets. */
  datatype Turn = Idle | MdllNext | McpdNext

  /** The three consumers, each behind its own lock, and the packets each has seen since it was
      last cleared: those of the common history packets from an index of its own on. One method
      is what one thread does under one lock, so any calls of them in any order are an
      interleaving of the worker with threads that reset and clear. */
  class Daq {
    const stats: SourceStatsCollector
    const mdllHistos: MdllHistogrammer
    const mcpdHistos: McpdHistogrammer
    ghost var packets: seq<ValidPacket>                       // delivered so far, the last one perhaps in part
    ghost var turn: Turn
    ghost var statsFrom: nat
    ghost var mdllFrom: nat
    ghost var mcpdFrom: nat
    ghost var statsBase: map<SourceKey, SourceStats>          // the sources a clear kept, zeroed
    ghost var mdllBase: map<SourceKey, seq<EventBody>>
    ghost var mcpdBase: map<SourceKey, seq<EventBody>>

    ghost function MdllTo(): int
      reads `packets, `turn
    {
      if turn == MdllNext then |packets| - 1 else |packets|
    }

    ghost function McpdTo(): int
      reads `packets, `turn
    {
      if turn == Idle then |packets| else |packets| - 1
    }

    ghost predicate StatsOk()
      reads `packets, `statsFrom, `statsBase, stats
    {
      statsFrom <= |packets| && AllZero(statsBase) && stats.stats == StatsOf(statsBase, packets[statsFrom..])
    }

    ghost predicate MdllOk()
      reads `packets, `turn, `mdllFrom, `mdllBase, mdllHistos, mdllHistos.Repr
    {
      && mdllFrom <= MdllTo() && (forall k | k in mdllBase :: mdllBase[k] == [])
      && mdllHistos.Valid() && mdllHistos.Events() == MdllEventsOf(mdllBase, packets[mdllFrom..MdllTo()])
    }

    ghost predicate McpdOk()
      reads `packets, `turn, `mcpdFrom, `mcpdBase, mcpdHistos, mcpdHistos.Repr
    {
      && mcpdFrom <= McpdTo() && (forall k | k in mcpdBase :: mcpdBase[k] == [])
      && mcpdHistos.Valid() && mcpdHistos.Events() == McpdEventsOf(mcpdBase, packets[mcpdFrom..McpdTo()])
    }

    ghost predicate Valid()
      reads this, stats, mdllHistos, mdllHistos.Repr, mcpdHistos, mcpdHistos.Repr
    {
      && mdllHistos in mdllHistos.Repr && mcpdHistos in mcpdHistos.Repr
      && {this, stats} !! mdllHistos.Repr !! mcpdHistos.Repr
      && (turn != Idle ==> packets != [])
      && StatsOk() && MdllOk() && McpdOk()
    }

    constructor ()
      ensures Valid() && packets == [] && turn == Idle && statsFrom == mdllFrom == mcpdFrom == 0
      ensures fresh(stats) && fresh(mdllHistos.Repr) && fresh(mcpdHistos.Repr)
    {
      NothingYet(map[], map[], map[]);
      stats := new SourceStatsCollector();
      mdllHistos := new MdllHistogrammer();
      mcpdHistos := new McpdHistogrammer();
      packets, turn := [], Idle;
      statsFrom, mdllFrom, mcpdFrom := 0, 0, 0;
      statsBase, mdllBase, mcpdBase := map[], map[], map[];
    }

    // ---- the worker's loop over the consumers ----

    method DeliverToStats(rp: ValidPacket)
      requires Valid() && turn == Idle
      modifies `packets, `turn, stats
      ensures Valid() && packets == old(packets) + [rp] && turn == MdllNext
    {
      hide MdllHistogrammer.Valid, McpdHistogrammer.Valid, MdllHistogrammer.Events, McpdHistogrammer.Events;
      hide StatsOf, MdllEventsOf, McpdEventsOf, Counted;
      StatsStep(statsBase, packets[statsFrom..], rp);
      stats.Consume(rp);
      var more := packets + [rp];
      assert more[statsFrom..] == packets[statsFrom..] + [rp];
      assert more[mdllFrom..|packets|] == packets[mdllFrom..|packets|];
      assert more[mcpdFrom..|packets|] == packets[mcpdFrom..|packets|];
      packets, turn := more, MdllNext;
    }

    method DeliverToMdll(rp: ValidPacket)
      requires Valid() && turn == MdllNext && rp == packets[|packets| - 1]
      modifies `turn, mdllHistos.Repr
      ensures Valid() && turn == McpdNext && fresh(mdllHistos.Repr - old(mdllHistos.Repr))
    {
      hide StatsOk, McpdHistogrammer.Valid, MdllHistogrammer.Valid, MdllHistogrammer.Events, McpdHistogrammer.Events;
      hide MdllEventsOf, McpdEventsOf, ConsumedMdll;
      var n := |packets| - 1;
      MdllStep(mdllBase, packets[mdllFrom..n], rp);
      assert packets[mdllFrom..] == packets[mdllFrom..n] + [rp];
      mdllHistos.Consume(rp);
      assert packets[mdllFrom..|packets|] == packets[mdllFrom..];
      turn := McpdNext;
    }

    method DeliverToMcpd(rp: ValidPacket)
      requires Valid() && turn == McpdNext && rp == packets[|packets| - 1]
      modifies `turn, mcpdHistos.Repr
      ensures Valid() && turn == Idle && fresh(mcpdHistos.Repr - old(mcpdHistos.Repr))
    {
      hide StatsOk, McpdHistogrammer.Valid, MdllHistogrammer.Valid, MdllHistogrammer.Events, McpdHistogrammer.Events;
      hide MdllEventsOf, McpdEventsOf, ConsumedMcpd;
      var n := |packets| - 1;
      McpdStep(mcpdBase, packets[mcpdFrom..n], rp);
      assert packets[mcpdFrom..] == packets[mcpdFrom..n] + [rp];
      mcpdHistos.Consume(rp);
      assert packets[mcpdFrom..|packets|] == packets[mcpdFrom..];
      turn := Idle;
    }

    /** One packet, with nobody in between. */
    method Deliver(rp: ValidPacket)
      requires Valid() && turn == Idle
      modifies `packets, `turn, stats, mdllHistos.Repr, mcpdHistos.Repr
      ensures Valid() && turn == Idle && packets == old(packets) + [rp]
      ensures fresh(mdllHistos.Repr - old(mdllHistos.Repr)) && fresh(mcpdHistos.Repr - old(mcpdHistos.Repr))
    {
      hide StatsOk, MdllOk, McpdOk;
      DeliverToStats(rp);
      DeliverToMdll(rp);
      DeliverToMcpd(rp);
    }

    // ---- resets and clears by other threads, one collector at a time ----

    method ResetStats()
      requires Valid()
      modifies `statsFrom, `statsBase, stats
      ensures Valid() && statsFrom == |packets|
    {
      hide MdllOk, McpdOk, StatsOf;
      stats.Reset();
      NothingYet(stats.stats, map[], map[]);
      statsBase, statsFrom := stats.stats, |packets|;
      assert packets[|packets|..] == [];
    }

    method ClearStats()
      requires Valid()
      modifies `statsFrom, `statsBase, stats
      ensures Valid() && statsFrom == |packets| && stats.stats == map[]
    {
      hide MdllOk, McpdOk, StatsOf;
      NothingYet(map[], map[], map[]);
      stats.Clear();
      statsBase, statsFrom := map[], |packets|;
      assert packets[|packets|..] == [];
    }

    method ZeroMdll()
      requires Valid()
      modifies `mdllFrom, `mdllBase, mdllHistos.Repr
      ensures Valid() && mdllFrom == MdllTo() && mdllHistos.Repr == old(mdllHistos.Repr)
    {
      hide StatsOk, McpdOk, MdllHistogrammer.Valid, MdllHistogrammer.Events, MdllEventsOf;
      mdllHistos.ClearHistograms();
      NothingYet(map[], mdllHistos.Events(), map[]);
      mdllBase, mdllFrom := mdllHistos.Events(), MdllTo();
      assert packets[mdllFrom..mdllFrom] == [];
    }

    method ZeroMcpd()
      requires Valid()
      modifies `mcpdFrom, `mcpdBase, mcpdHistos.Repr
      ensures Valid() && mcpdFrom == McpdTo() && mcpdHistos.Repr == old(mcpdHistos.Repr)
    {
      hide StatsOk, MdllOk, McpdHistogrammer.Valid, McpdHistogrammer.Events, McpdEventsOf;
      mcpdHistos.ClearHistograms();
      NothingYet(map[], map[], mcpdHistos.Events());
      mcpdBase, mcpdFrom := mcpdHistos.Events(), McpdTo();
      assert packets[mcpdFrom..mcpdFrom] == [];
    }

    method ForgetMdll()
      requires Valid()
      modifies `mdllFrom, `mdllBase, mdllHistos`histos
      ensures Valid() && mdllFrom == MdllTo() && mdllHistos.Events() == map[]
    {
      hide StatsOk, McpdOk, MdllHistogrammer.Valid, MdllHistogrammer.Events, MdllEventsOf;
      NothingYet(map[], map[], map[]);
      mdllHistos.Clear();
      mdllBase, mdllFrom := map[], MdllTo();
      assert packets[mdllFrom..mdllFrom] == [];
    }

    method ForgetMcpd()
      requires Valid()
      modifies `mcpdFrom, `mcpdBase, mcpdHistos`histos
      ensures Valid() && mcpdFrom == McpdTo() && mcpdHistos.Events() == map[]
    {
      hide StatsOk, MdllOk, McpdHistogrammer.Valid, McpdHistogrammer.Events, McpdEventsOf;
      NothingYet(map[], map[], map[]);
      mcpdHistos.Clear();
      mcpdBase, mcpdFrom := map[], McpdTo();
      assert packets[mcpdFrom..mcpdFrom] == [];
    }

    /** Daq::clearHistograms() with no packet in between. */
    method ClearHistograms()
      requires Valid()
      modifies `mdllFrom, `mdllBase, `mcpdFrom, `mcpdBase, mdllHistos.Repr, mcpdHistos.Repr
      ensures Valid() && mdllFrom == MdllTo() && mcpdFrom == McpdTo()
      ensures mdllHistos.Repr == old(mdllHistos.Repr) && mcpdHistos.Repr == old(mcpdHistos.Repr)
    {
      hide StatsOk, MdllOk, McpdOk;
      ZeroMdll();
      ZeroMcpd();
    }

    /** Daq::clearSources() with no packet in between. */
    method ClearSources()
      requires Valid()
      modifies `statsFrom, `statsBase, `mdllFrom, `mdllBase, `mcpdFrom, `mcpdBase
      modifies stats, mdllHistos`histos, mcpdHistos`histos
      ensures Valid() && statsFrom == |packets| && mdllFrom == MdllTo() && mcpdFrom == McpdTo()
    {
      hide StatsOk, MdllOk, McpdOk;
      ClearStats();
      ForgetMdll();
      ForgetMcpd();
    }

    // ---- between packets ----

    /** Whatever was cleared when, and however that fell between the deliveries: the neutron
        counter of a source exceeds its histogram totals by exactly the neutrons of the packets
        that came between the clear of the statistics and those of the histograms. */
    lemma ConsumersDiffer(k: SourceKey)
      requires Valid() && turn == Idle
      ensures Lookup(stats.stats, k, NO_STATS).neutronEvents
           == MdllTotal(k) + McpdTotal(k) + Straddling(packets, k, MdllWeight, statsFrom, mdllFrom)
              + Straddling(packets, k, McpdWeight, statsFrom, mcpdFrom)
    {
      assert packets[mdllFrom..MdllTo()] == packets[mdllFrom..];
      assert packets[mcpdFrom..McpdTo()] == packets[mcpdFrom..];
      NeutronEventsOf(statsBase, packets[statsFrom..], k);
      MdllNeutronsOf(mdllBase, packets[mdllFrom..], k);
      McpdNeutronsOf(mcpdBase, packets[mcpdFrom..], k);
      NeutronWeightsSplit(OfSource(packets[statsFrom..], k));
      LaterStart(packets, k, MdllWeight, statsFrom, mdllFrom);
      LaterStart(packets, k, McpdWeight, statsFrom, mcpdFrom);
      MdllTotalCounts(k);
      McpdTotalCounts(k);
    }

    /** The consumers agree about a source exactly when these neutrons cancel out; so they do
        after a joint clear, by which all three start at the same packet. */
    lemma ConsumersAgreeIff(k: SourceKey)
      requires Valid() && turn == Idle
      ensures Lookup(stats.stats, k, NO_STATS).neutronEvents == MdllTotal(k) + McpdTotal(k)
         <==> Straddling(packets, k, MdllWeight, statsFrom, mdllFrom)
              + Straddling(packets, k, McpdWeight, statsFrom, mcpdFrom) == 0
    {
      ConsumersDiffer(k);
    }

    lemma ConsumersAgree(k: SourceKey)
      requires Valid() && turn == Idle && statsFrom == mdllFrom == mcpdFrom
      ensures Lookup(stats.stats, k, NO_STATS).neutronEvents == MdllTotal(k) + McpdTotal(k)
    {
      ConsumersDiffer(k);
      assert packets[statsFrom..statsFrom] == [];
    }

    /** Every bin of a source counts the events of its packets since the clear that the slow decoder
        decodes to an MDLL neutron with the value of the bin; packets of other types do not count. */
    lemma MdllBinsCount(k: SourceKey, xPos: nat, yPos: nat, amp: nat)
      requires Valid() && k in mdllHistos.histos && xPos < 1024 && yPos < 1024 && amp < 256
      ensures
        var h, own := mdllHistos.histos[k], OfSource(packets[mdllFrom..MdllTo()], k);
        && h.amplitude.Length == 256 && h.x.Length == 1024 && h.y.Length == 1024 && h.xy.Length == 1024 * 1024
        && h.amplitude[amp] == WeightOf(own, TypedCount(MdllWithAmplitude(amp), 2))
        && h.x[xPos] == WeightOf(own, TypedCount(MdllWithX(xPos), 2))
        && h.y[yPos] == WeightOf(own, TypedCount(MdllWithY(yPos), 2))
        && h.xy[1024 * yPos + xPos] == WeightOf(own, TypedCount(MdllAt(xPos, yPos), 2))
    {
      hide StatsOk, McpdOk, MdllEventsOf;
      var seen := packets[mdllFrom..MdllTo()];
      mdllHistos.histos[k].BinsCount(xPos, yPos, amp);
      MdllCountOf(mdllBase, seen, k, MdllWithAmplitude(amp));
      MdllCountOf(mdllBase, seen, k, MdllWithX(xPos));
      MdllCountOf(mdllBase, seen, k, MdllWithY(yPos));
      MdllCountOf(mdllBase, seen, k, MdllAt(xPos, yPos));
      assert mdllHistos.histos[k].events == Lookup(MdllEventsOf(mdllBase, seen), k, []);
    }

    /** The same for the bins of every module and channel of an MCPD. */
    lemma McpdBinsCount(k: SourceKey, m: nat, c: nat, v: nat)
      requires Valid() && k in mcpdHistos.histos && m < 8 && c < 32 && v < 1024
      ensures
        var h, own := mcpdHistos.histos[k], OfSource(packets[mcpdFrom..McpdTo()], k);
        var cell := (32 * m + c) * 1024 + v;
        && h.amplitude.Length == h.position.Length == 8 * 32 * 1024
        && h.amplitude[cell] == WeightOf(own, TypedCount(NeutronWithAmplitude(m, c, v), 1))
        && h.position[cell] == WeightOf(own, TypedCount(NeutronWithPosition(m, c, v), 1))
    {
      hide StatsOk, MdllOk, McpdEventsOf;
      var seen := packets[mcpdFrom..McpdTo()];
      mcpdHistos.histos[k].BinsCount(m, c, v);
      McpdCountOf(mcpdBase, seen, k, NeutronWithAmplitude(m, c, v));
      McpdCountOf(mcpdBase, seen, k, NeutronWithPosition(m, c, v));
      assert mcpdHistos.histos[k].events == Lookup(McpdEventsOf(mcpdBase, seen), k, []);
    }

    /** getTotals() counts every packet since the last reset or clear of the statistics. */
    lemma TotalsSinceReset()
      requires Valid()
      ensures SumBy(stats.stats, PacketsOf) == |packets| - statsFrom
      ensures SumBy(stats.stats, EventsOf) == SumBy(stats.stats, NeutronsOf) + SumBy(stats.stats, TriggersOf)
    {
      TotalsCountEverything(statsBase, packets[statsFrom..], SourceKey(0, 0));
    }

    lemma MdllTotalCounts(k: SourceKey)
      requires Valid()
      ensures MdllTotal(k) == MdllNeutrons(Lookup(mdllHistos.Events(), k, []))
    {
      if k in mdllHistos.histos {
        mdllHistos.histos[k].TotalsAgree();
      }
    }

    lemma McpdTotalCounts(k: SourceKey)
      requires Valid()
      ensures McpdTotal(k) == McpdNeutrons(Lookup(mcpdHistos.Events(), k, []))
    {
      if k in mcpdHistos.histos {
        mcpdHistos.histos[k].TotalsAgree();
      }
    }

    ghost function MdllTotal(k: SourceKey): nat
      requires Valid()
      reads this, mdllHistos, mdllHistos.Repr, mcpdHistos, mcpdHistos.Repr, stats
    {
      if k in mdllHistos.histos
      then StridedSum(mdllHistos.histos[k].amplitude[..], 0, 1, MDLL_AMPLITUDE_BINS) else 0
    }

    ghost function McpdTotal(k: SourceKey): nat
      requires Valid()
      reads this, mdllHistos, mdllHistos.Repr, mcpdHistos, mcpdHistos.Repr, stats
    {
      if k in mcpdHistos.histos
      then StridedSum(mcpdHistos.histos[k].amplitude[..], 0, 1, MPSD_BINS) else 0
    }
  }

  /** It does happen: the packet is counted, then only the histograms start over. */
  method ClearBetween(rp: ValidPacket) returns (daq: Daq)
    requires NeutronWeight(rp) > 0
    ensures daq.Valid() && daq.turn == Idle
    ensures Lookup(daq.stats.stats, SourceKeyOf(rp), NO_STATS).neutronEvents
            != daq.MdllTotal(SourceKeyOf(rp)) + daq.McpdTotal(SourceKeyOf(rp))
  {
    hide Daq.StatsOk, Daq.MdllOk, Daq.McpdOk, Daq.MdllTotal, Daq.McpdTotal;
    hide OfSource, NeutronWeight, MdllWeight, McpdWeight;
    daq := new Daq();
    daq.Deliver(rp);
    daq.ClearHistograms();
    ghost var k := SourceKeyOf(rp);
    daq.ConsumersDiffer(k);
    assert daq.packets[0..1] == daq.packets == [rp];
    OnlyPacket(rp);
  }

  lemma OnlyPacket(rp: ValidPacket)
    ensures WeightOf(OfSource([rp], SourceKeyOf(rp)), MdllWeight) == MdllWeight(rp)
    ensures WeightOf(OfSource([rp], SourceKeyOf(rp)), McpdWeight) == McpdWeight(rp)
    ensures NeutronWeight(rp) == MdllWeight(rp) + McpdWeight(rp)
  {
    assert [rp][..0] == [];
    NeutronsSplitByType(rp);
  }

  lemma NothingYet(stats: map<SourceKey, SourceStats>, mdll: map<SourceKey, seq<EventBody>>,
                   mcpd: map<SourceKey, seq<EventBody>>)
    ensures StatsOf(stats, []) == stats && MdllEventsOf(mdll, []) == mdll && McpdEventsOf(mcpd, []) == mcpd
  {
  }

  lemma StatsStep(start: map<SourceKey, SourceStats>, rps: seq<ValidPacket>, rp: ValidPacket)
    ensures
      var m, k := StatsOf(start, rps), SourceKeyOf(rp);
      StatsOf(start, rps + [rp]) == m[k := Counted(Lookup(m, k, NO_STATS), rp)]
  {
    KeyedFoldSnoc(start, rps, rp, SourceKeyOf, NO_STATS, Counted);
  }

  lemma MdllStep(start: map<SourceKey, seq<EventBody>>, rps: seq<ValidPacket>, rp: ValidPacket)
    ensures MdllEventsOf(start, rps + [rp]) == ConsumedMdll(MdllEventsOf(start, rps), rp)
  {
    FilterSnoc(rps, rp, HasType(MDLL_DATA_BUFFER_TYPE));
    KeyedFoldSnoc(start, Filter(rps, HasType(MDLL_DATA_BUFFER_TYPE)), rp, SourceKeyOf, [], AppendMdll);
  }

  lemma McpdStep(start: map<SourceKey, seq<EventBody>>, rps: seq<ValidPacket>, rp: ValidPacket)
    ensures McpdEventsOf(start, rps + [rp]) == ConsumedMcpd(McpdEventsOf(start, rps), rp)
  {
    FilterSnoc(rps, rp, HasType(MCPD_DATA_BUFFER_TYPE));
    KeyedFoldSnoc(start, Filter(rps, HasType(MCPD_DATA_BUFFER_TYPE)), rp, SourceKeyOf, [], AppendMcpd);
  }
}
