/** One set of histograms per data source, filled from packets of the matching type. */
module Histogrammers {
  import opened Counting
  import opened Events
  import opened Folds
  import opened Histograms
  import opened LossAccounting
  import opened Packets
  import opened Stats

  ghost function AppendMdll(events: seq<EventBody>, rp: ValidPacket): seq<EventBody> {
    events + Bodies(rp.packet, MDLL_DATA_BUFFER_TYPE)
  }

  ghost function AppendMcpd(events: seq<EventBody>, rp: ValidPacket): seq<EventBody> {
    events + Bodies(rp.packet, MCPD_DATA_BUFFER_TYPE)
  }

  ghost function HasType(bufferType: u16): ValidPacket -> bool {
    (rp: ValidPacket) => BufferType(rp.packet) == bufferType
  }

  /** The decoded events of each source after more packets were consumed. */
  ghost function MdllEventsOf(
    start: map<SourceKey, seq<EventBody>>, rps: seq<ValidPacket>): map<SourceKey, seq<EventBody>>
  {
    KeyedFold(start, Filter(rps, HasType(MDLL_DATA_BUFFER_TYPE)), SourceKeyOf, [], AppendMdll)
  }

  ghost function McpdEventsOf(
    start: map<SourceKey, seq<EventBody>>, rps: seq<ValidPacket>): map<SourceKey, seq<EventBody>>
  {
    KeyedFold(start, Filter(rps, HasType(MCPD_DATA_BUFFER_TYPE)), SourceKeyOf, [], AppendMcpd)
  }

  /** consume(): packets of another type leave no trace, not even a source. */
  ghost function ConsumedMdll(events: map<SourceKey, seq<EventBody>>, rp: ValidPacket): map<SourceKey, seq<EventBody>> {
    if BufferType(rp.packet) != MDLL_DATA_BUFFER_TYPE then events
    else events[SourceKeyOf(rp) := AppendMdll(Lookup(events, SourceKeyOf(rp), []), rp)]
  }

  class MdllHistogrammer {
    var histos: map<SourceKey, MdllHistograms>
    ghost var Repr: set<object>

    ghost predicate Valid()
      reads this, Repr
      ensures Valid() ==> this in Repr
    {
      && this in Repr
      && (forall k | k in histos :: histos[k] in Repr && histos[k].Repr <= Repr - {this} && histos[k].Valid())
      && (forall k, l | k in histos && l in histos && k != l :: histos[k].Repr !! histos[l].Repr)
    }

    /** The history of every source; Valid() carries it to the bins. */
    ghost function Events(): map<SourceKey, seq<EventBody>>
      requires Valid()
      reads this, Repr
    {
      map k | k in histos :: histos[k].events
    }

    constructor ()
      ensures Valid() && fresh(Repr) && Events() == map[]
    {
      histos := map[];
      Repr := {this};
    }

    method Consume(rp: ValidPacket)
      requires Valid()
      modifies Repr
      ensures Valid() && fresh(Repr - old(Repr))
      ensures Events() == ConsumedMdll(old(Events()), rp)
    {
      hide MdllHistograms.Valid, AppendMdll;
      if BufferType(rp.packet) != MDLL_DATA_BUFFER_TYPE {
        return;
      }
      EnsureEntry(SourceKeyOf(rp));
      FillEntry(SourceKeyOf(rp), rp);
    }

    method FillEntry(key: SourceKey, rp: ValidPacket)
      requires Valid() && key in histos
      modifies Repr
      ensures Valid() && Repr == old(Repr)
      ensures Events() == old(Events())[key := AppendMdll(old(Events())[key], rp)]
    {
      hide MdllHistograms.Valid;
      var h := histos[key];
      h.Fill(rp.packet);
      forall k | k in histos && k != key
        ensures histos[k].Valid() && histos[k].events == old(histos[k].events)
      {
        assert histos[k].Repr !! h.Repr;
      }
    }

    /** operator[] of the map plus make_unique for a source seen for the first time. */
    method EnsureEntry(key: SourceKey)
      requires Valid()
      modifies this
      ensures Valid() && fresh(Repr - old(Repr)) && key in histos
      ensures Events() == old(Events())[key := Lookup(old(Events()), key, [])]
    {
      hide MdllHistograms.Valid;
      if key !in histos {
        var h := new MdllHistograms();
        histos := histos[key := h];
        Repr := Repr + h.Repr;
      }
    }

    /** Zeroes all histograms and keeps the sources. */
    method ClearHistograms()
      requires Valid()
      modifies Repr
      ensures Valid() && Repr == old(Repr)
      ensures Events() == map k | k in old(Events()) :: []
    {
      hide MdllHistograms.Valid;
      var rest := histos.Keys;
      while rest != {}
        invariant Valid() && Repr == old(Repr) && rest <= histos.Keys && histos == old(histos)
        invariant forall k | k in histos && k !in rest :: histos[k].events == []
        decreases |rest|
      {
        var key :| key in rest;
        label clearing:
        histos[key].Clear();
        forall k | k in histos && k != key
          ensures histos[k].Valid() && histos[k].events == old@clearing(histos[k].events)
        {
          assert histos[k].Repr !! histos[key].Repr;
        }
        rest := rest - {key};
      }
    }

    /** Forgets all sources. */
    method Clear()
      requires Valid()
      modifies `histos
      ensures Valid() && Events() == map[]
    {
      histos := map[];
    }
  }

  /** consume(): packets of another type leave no trace, not even a source. */
  ghost function ConsumedMcpd(events: map<SourceKey, seq<EventBody>>, rp: ValidPacket): map<SourceKey, seq<EventBody>> {
    if BufferType(rp.packet) != MCPD_DATA_BUFFER_TYPE then events
    else events[SourceKeyOf(rp) := AppendMcpd(Lookup(events, SourceKeyOf(rp), []), rp)]
  }

  class McpdHistogrammer {
    var histos: map<SourceKey, McpdHistograms>
    ghost var Repr: set<object>

    ghost predicate Valid()
      reads this, Repr
      ensures Valid() ==> this in Repr
    {
      && this in Repr
      && (forall k | k in histos :: histos[k] in Repr && histos[k].Repr <= Repr - {this} && histos[k].Valid())
      && (forall k, l | k in histos && l in histos && k != l :: histos[k].Repr !! histos[l].Repr)
    }

    /** The history of every source; Valid() carries it to the bins. */
    ghost function Events(): map<SourceKey, seq<EventBody>>
      requires Valid()
      reads this, Repr
    {
      map k | k in histos :: histos[k].events
    }

    constructor ()
      ensures Valid() && fresh(Repr) && Events() == map[]
    {
      histos := map[];
      Repr := {this};
    }

    method Consume(rp: ValidPacket)
      requires Valid()
      modifies Repr
      ensures Valid() && fresh(Repr - old(Repr))
      ensures Events() == ConsumedMcpd(old(Events()), rp)
    {
      hide McpdHistograms.Valid, AppendMcpd;
      if BufferType(rp.packet) != MCPD_DATA_BUFFER_TYPE {
        return;
      }
      EnsureEntry(SourceKeyOf(rp));
      FillEntry(SourceKeyOf(rp), rp);
    }

    method FillEntry(key: SourceKey, rp: ValidPacket)
      requires Valid() && key in histos
      modifies Repr
      ensures Valid() && Repr == old(Repr)
      ensures Events() == old(Events())[key := AppendMcpd(old(Events())[key], rp)]
    {
      hide McpdHistograms.Valid;
      var h := histos[key];
      h.Fill(rp.packet);
      forall k | k in histos && k != key
        ensures histos[k].Valid() && histos[k].events == old(histos[k].events)
      {
        assert histos[k].Repr !! h.Repr;
      }
    }

    /** operator[] of the map plus make_unique for a source seen for the first time. */
    method EnsureEntry(key: SourceKey)
      requires Valid()
      modifies this
      ensures Valid() && fresh(Repr - old(Repr)) && key in histos
      ensures Events() == old(Events())[key := Lookup(old(Events()), key, [])]
    {
      hide McpdHistograms.Valid;
      if key !in histos {
        var h := new McpdHistograms();
        histos := histos[key := h];
        Repr := Repr + h.Repr;
      }
    }

    /** Zeroes all histograms and keeps the sources. */
    method ClearHistograms()
      requires Valid()
      modifies Repr
      ensures Valid() && Repr == old(Repr)
      ensures Events() == map k | k in old(Events()) :: []
    {
      hide McpdHistograms.Valid;
      var rest := histos.Keys;
      while rest != {}
        invariant Valid() && Repr == old(Repr) && rest <= histos.Keys && histos == old(histos)
        invariant forall k | k in histos && k !in rest :: histos[k].events == []
        decreases |rest|
      {
        var key :| key in rest;
        label clearing:
        histos[key].Clear();
        forall k | k in histos && k != key
          ensures histos[k].Valid() && histos[k].events == old@clearing(histos[k].events)
        {
          assert histos[k].Repr !! histos[key].Repr;
        }
        rest := rest - {key};
      }
    }

    /** Forgets all sources. */
    method Clear()
      requires Valid()
      modifies `histos
      ensures Valid() && Events() == map[]
    {
      histos := map[];
    }
  }

  ghost function CountOf(f: EventBody -> bool): seq<EventBody> -> nat {
    (events: seq<EventBody>) => Count(events, f)
  }

  ghost function BodiesCount(f: EventBody -> bool, bufferType: u16): ValidPacket -> nat {
    (rp: ValidPacket) => Count(Bodies(rp.packet, bufferType), f)
  }

  lemma BinsAreAdditive(f: EventBody -> bool)
    ensures Additive(CountOf(f), [], AppendMdll, BodiesCount(f, MDLL_DATA_BUFFER_TYPE))
    ensures Additive(CountOf(f), [], AppendMcpd, BodiesCount(f, MCPD_DATA_BUFFER_TYPE))
  {
    forall events: seq<EventBody>, rp: ValidPacket
      ensures CountOf(f)(AppendMdll(events, rp)) == CountOf(f)(events) + BodiesCount(f, MDLL_DATA_BUFFER_TYPE)(rp)
      ensures CountOf(f)(AppendMcpd(events, rp)) == CountOf(f)(events) + BodiesCount(f, MCPD_DATA_BUFFER_TYPE)(rp)
    {
      CountConcat(events, Bodies(rp.packet, MDLL_DATA_BUFFER_TYPE), f);
      CountConcat(events, Bodies(rp.packet, MCPD_DATA_BUFFER_TYPE), f);
    }
  }

  /** How many of the events of a packet f picks, if the packet is of the type. */
  ghost function TypedCount(f: EventBody -> bool, bufferType: u16): ValidPacket -> nat {
    (rp: ValidPacket) => if BufferType(rp.packet) == bufferType then Count(Bodies(rp.packet, bufferType), f) else 0
  }

  /** The picked events in the history of a source are those of its own packets of the type. */
  lemma MdllCountOf(start: map<SourceKey, seq<EventBody>>, rps: seq<ValidPacket>, k: SourceKey, f: EventBody -> bool)
    requires Lookup(start, k, []) == []
    ensures Count(Lookup(MdllEventsOf(start, rps), k, []), f) == WeightOf(OfSource(rps, k), TypedCount(f, 2))
  {
    var typed := Filter(rps, HasType(2));
    BinsAreAdditive(f);
    KeysAreIndependent(start, typed, SourceKeyOf, [], AppendMdll, k);
    FiltersCommute(rps, HasType(2), HasKey(SourceKeyOf, k));
    AdditiveFold(OfSource(typed, k), [], AppendMdll, CountOf(f), BodiesCount(f, 2));
    FilteredWeight(OfSource(rps, k), HasType(2), BodiesCount(f, 2), TypedCount(f, 2));
  }

  lemma McpdCountOf(start: map<SourceKey, seq<EventBody>>, rps: seq<ValidPacket>, k: SourceKey, f: EventBody -> bool)
    requires Lookup(start, k, []) == []
    ensures Count(Lookup(McpdEventsOf(start, rps), k, []), f) == WeightOf(OfSource(rps, k), TypedCount(f, 1))
  {
    var typed := Filter(rps, HasType(1));
    BinsAreAdditive(f);
    KeysAreIndependent(start, typed, SourceKeyOf, [], AppendMcpd, k);
    FiltersCommute(rps, HasType(1), HasKey(SourceKeyOf, k));
    AdditiveFold(OfSource(typed, k), [], AppendMcpd, CountOf(f), BodiesCount(f, 1));
    FilteredWeight(OfSource(rps, k), HasType(1), BodiesCount(f, 1), TypedCount(f, 1));
  }
}
