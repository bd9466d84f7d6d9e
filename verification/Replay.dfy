/** Listfiles, and what replaying one delivers compared with the live run that wrote it. */
module Replay {
  import opened Counting
  import opened Events
  import opened Folds
  import opened Histogrammers
  import opened LossAccounting
  import opened Packets
  import opened Stats

  /** UdpPacketSource::read() into a reused packet: the datagram, cut at the size of the
      packet, and zeros behind it. Nothing of the previous content survives. */
  method ReceiveInto(dest: array<u8>, datagram: seq<u8>) returns (bytes: ByteCount)
    requires dest.Length == PACKET_BYTES
    modifies dest
    ensures bytes == if |datagram| < PACKET_BYTES then |datagram| else PACKET_BYTES
    ensures dest[..] == datagram[..bytes] + Zeros(PACKET_BYTES - bytes)
  {
    bytes := if |datagram| < PACKET_BYTES then |datagram| else PACKET_BYTES;
    for i := 0 to bytes
      invariant dest[..i] == datagram[..i]
    {
      dest[i] := datagram[i];
    }
    for i := bytes to PACKET_BYTES
      invariant dest[..bytes] == datagram[..bytes]
      invariant forall j :: bytes <= j < i ==> dest[j] == 0
    {
      dest[i] := 0;
    }
  }

  /** A listfile is the plain sequence of the packet images. */
  ghost function Listfile(ps: seq<DataPacket>): (file: seq<u8>)
    ensures |file| == PACKET_BYTES * |ps|
  {
    if ps == [] then [] else Listfile(ps[..|ps| - 1]) + ps[|ps| - 1]
  }

  ghost function Records(file: seq<u8>): seq<DataPacket> {
    if |file| < PACKET_BYTES then []
    else
      var n := |file| / PACKET_BYTES;
      Records(file[..(n - 1) * PACKET_BYTES]) + [file[(n - 1) * PACKET_BYTES..n * PACKET_BYTES]]
  }

  /** What a record looks like when it is read back: full size and no sender. */
  function FromListfile(p: DataPacket): ReceivedPacket {
    ReceivedPacket(p, PACKET_BYTES, 0, 0)
  }

  class ListfilePacketSource {
    const file: seq<u8>
    var pos: nat

    constructor (file: seq<u8>)
      ensures this.file == file && pos == 0
    {
      this.file, pos := file, 0;
    }

    /** None is EndOfData: fewer bytes left than a record needs. Trailing bytes are skipped. */
    method Read() returns (rp: Option<ReceivedPacket>)
      requires pos <= |file|
      modifies this
      ensures pos <= |file|
      ensures |file| - old(pos) >= PACKET_BYTES ==>
        && pos == old(pos) + 1472 && rp == Some(FromListfile(file[old(pos)..pos]))
        && rp == Some(ReceivedPacket(file[old(pos)..pos], 1472, 0, 0))
      ensures |file| - old(pos) < PACKET_BYTES ==> pos == |file| && rp == None
    {
      var count := if |file| - pos < PACKET_BYTES then |file| - pos else PACKET_BYTES;
      var start := pos;
      pos := pos + count;
      if count != PACKET_BYTES {
        return None;
      }
      return Some(FromListfile(file[start..pos]));
    }
  }

  /** Reading until the end of data delivers every complete record, once and in order. */
  method ReadAll(file: seq<u8>) returns (rps: seq<ReceivedPacket>)
    ensures rps == MapSeq(Records(file), FromListfile)
  {
    hide Records;
    var source := new ListfilePacketSource(file);
    rps := [];
    ghost var n := 0;
    NoRecords(file[..0]);
    while true
      invariant source.file == file && source.pos == PACKET_BYTES * n <= |file|
      invariant rps == MapSeq(Records(file[..source.pos]), FromListfile)
      decreases |file| - source.pos
    {
      var rp := source.Read();
      if rp.None? {
        RecordsIgnoreTail(file, n);
        return;
      }
      NextRecord(file, n);
      MapSnoc<DataPacket, ReceivedPacket>(
        Records(file[..PACKET_BYTES * n]), file[PACKET_BYTES * n..source.pos], FromListfile);
      rps := rps + [rp.value];
      n := n + 1;
    }
  }

  lemma NoRecords(file: seq<u8>)
    requires |file| < PACKET_BYTES
    ensures Records(file) == []
  {
  }

  lemma LastRecord(file: seq<u8>, n: nat)
    requires PACKET_BYTES * (n + 1) <= |file| < PACKET_BYTES * (n + 2)
    ensures Records(file)
         == Records(file[..PACKET_BYTES * n]) + [file[PACKET_BYTES * n..PACKET_BYTES * (n + 1)]]
  {
    assert |file| / PACKET_BYTES == n + 1;
    assert n * PACKET_BYTES == PACKET_BYTES * n && (n + 1) * PACKET_BYTES == PACKET_BYTES * (n + 1);
  }

  lemma NextRecord(file: seq<u8>, n: nat)
    requires PACKET_BYTES * (n + 1) <= |file|
    ensures Records(file[..PACKET_BYTES * (n + 1)])
         == Records(file[..PACKET_BYTES * n]) + [file[PACKET_BYTES * n..PACKET_BYTES * (n + 1)]]
  {
    hide Records;
    var longer := file[..PACKET_BYTES * (n + 1)];
    LastRecord(longer, n);
    assert longer[..PACKET_BYTES * n] == file[..PACKET_BYTES * n];
    assert longer[PACKET_BYTES * n..PACKET_BYTES * (n + 1)] == file[PACKET_BYTES * n..PACKET_BYTES * (n + 1)];
  }

  lemma RecordsIgnoreTail(file: seq<u8>, n: nat)
    requires PACKET_BYTES * n <= |file| < PACKET_BYTES * (n + 1)
    ensures Records(file) == Records(file[..PACKET_BYTES * n])
  {
    if n == 0 {
      NoRecords(file);
      NoRecords(file[..0]);
    } else {
      hide Records;
      LastRecord(file, n - 1);
      NextRecord(file, n - 1);
    }
  }

  /** Reading undoes writing. */
  lemma {:induction false} RecordsOfListfile(ps: seq<DataPacket>)
    ensures Records(Listfile(ps)) == ps
  {
    if ps != [] {
      var n := |ps| - 1;
      RecordsOfListfile(ps[..n]);
      var file := Listfile(ps);
      NextRecord(file, n);
      assert file[..PACKET_BYTES * n] == Listfile(ps[..n]);
      assert file[..PACKET_BYTES * (n + 1)] == file;
      assert file[PACKET_BYTES * n..PACKET_BYTES * (n + 1)] == ps[n];
    }
  }

  lemma {:induction false} ListfilePrefix(ps: seq<DataPacket>, n: nat)
    requires n <= |ps|
    ensures Listfile(ps)[..PACKET_BYTES * n] == Listfile(ps[..n])
    decreases |ps|
  {
    if n < |ps| {
      var before := ps[..|ps| - 1];
      ListfilePrefix(before, n);
      assert before[..n] == ps[..n];
      assert Listfile(ps)[..PACKET_BYTES * n] == Listfile(before)[..PACKET_BYTES * n];
    } else {
      assert ps[..n] == ps;
    }
  }

  /** A listfile cut anywhere still yields its complete records and nothing else. */
  lemma TruncatedListfile(ps: seq<DataPacket>, length: nat)
    requires length <= PACKET_BYTES * |ps|
    ensures Records(Listfile(ps)[..length]) == ps[..length / PACKET_BYTES]
  {
    hide Records, Listfile;
    var n := length / PACKET_BYTES;
    var file := Listfile(ps)[..length];
    RecordsIgnoreTail(file, n);
    assert file[..PACKET_BYTES * n] == Listfile(ps)[..PACKET_BYTES * n];
    ListfilePrefix(ps, n);
    RecordsOfListfile(ps[..n]);
  }

  ghost function PacketOf(rp: ReceivedPacket): DataPacket { rp.packet }

  /** The same packet as the replay of its listfile record sees it. */
  ghost function Replayed(rp: ReceivedPacket): ReceivedPacket { FromListfile(rp.packet) }

  ghost predicate ValidLive(rp: ReceivedPacket) { IsValidDataPacket(rp) }
  ghost predicate ValidOnReplay(rp: ReceivedPacket) { IsValidDataPacket(Replayed(rp)) }

  /** Rejected live because of the number of bytes received and for no other reason that a
      full record would not cure. */
  ghost predicate OnlyTooShort(rp: ReceivedPacket) {
    !ByteCountOk(rp) && LengthFieldsOk(rp.packet) && 2 * BufferLength(rp.packet) <= PACKET_BYTES
  }

  lemma ReplayAcceptsMore(rp: ReceivedPacket)
    ensures ValidOnReplay(rp) <==> ValidLive(rp) || OnlyTooShort(rp)
    ensures !(ValidLive(rp) && OnlyTooShort(rp))
  {
  }

  /** What the replay of a live run's listfile reads. */
  ghost function ReplayReads(received: seq<ReceivedPacket>): seq<ReceivedPacket> {
    MapSeq(Records(Listfile(MapSeq(received, PacketOf))), FromListfile)
  }

  /** The packets the replay delivers. */
  ghost function ReplayDeliveries(received: seq<ReceivedPacket>): seq<ReceivedPacket> {
    Filter(ReplayReads(received), ValidLive)
  }

  /** The packets that reach the consumers, of a live run or of a replay. */
  ghost function Delivered(inputs: seq<ReceivedPacket>): (ds: seq<ValidPacket>)
    ensures ds == Filter(inputs, ValidLive)
  {
    if inputs == [] then []
    else
      var ds, rp := Delivered(inputs[..|inputs| - 1]), inputs[|inputs| - 1];
      if IsValidDataPacket(rp) then
        var valid: ValidPacket := rp;
        ds + [valid]
      else ds
  }

  /** Replay delivers every packet the live run delivered, in order, and in addition only
      packets that were rejected live because of their byte count. */
  lemma ReplayDeliversLivePackets(received: seq<ReceivedPacket>)
    ensures ReplayDeliveries(received) == MapSeq(Filter(received, ValidOnReplay), Replayed)
    ensures Filter(Filter(received, ValidOnReplay), ValidLive) == Filter(received, ValidLive)
    ensures forall rp | rp in Filter(received, ValidOnReplay) :: ValidLive(rp) || OnlyTooShort(rp)
  {
    hide IsValidDataPacket, OnlyTooShort;
    var ps := MapSeq(received, PacketOf);
    RecordsOfListfile(ps);
    assert MapSeq(ps, FromListfile) == MapSeq(received, Replayed);
    forall rp ensures ValidOnReplay(rp) <==> ValidLive(rp) || OnlyTooShort(rp) {
      ReplayAcceptsMore(rp);
    }
    forall rp ensures ValidOnReplay(rp) <==> ValidLive(Replayed(rp)) {
    }
    FilterAfterMap(received, Replayed, ValidLive, ValidOnReplay);
    FilterOfWeaker(received, ValidOnReplay, ValidLive);
  }

  lemma {:induction false} FilterOfWeaker<T>(ts: seq<T>, weak: T -> bool, strong: T -> bool)
    requires forall t | t in ts :: strong(t) ==> weak(t)
    ensures Filter(Filter(ts, weak), strong) == Filter(ts, strong)
    ensures |Filter(ts, weak)| >= |Filter(ts, strong)|
    ensures |Filter(ts, weak)| == |Filter(ts, strong)| <==> forall t | t in ts :: weak(t) ==> strong(t)
  {
    if ts == [] {
      NothingToFilter(weak, strong);
    } else {
      hide Filter;
      var before, t := ts[..|ts| - 1], ts[|ts| - 1];
      assert ts == before + [t];
      FilterOfWeaker(before, weak, strong);
      FilterSnoc(before, t, weak);
      FilterSnoc(before, t, strong);
      FilterSnoc(Filter(before, weak), t, strong);
      assert forall u :: u in ts <==> u in before || u == t;
    }
  }

  lemma NothingToFilter<T>(f: T -> bool, g: T -> bool)
    ensures Filter([], f) == Filter([], g) == []
  {
  }

  /** Live run and replay deliver the same packets exactly when no packet was merely too short. */
  lemma SameDeliveriesIff(received: seq<ReceivedPacket>)
    ensures ReplayDeliveries(received) == MapSeq(Filter(received, ValidLive), Replayed)
       <==> forall rp | rp in received :: !OnlyTooShort(rp)
  {
    ReplayDeliversLivePackets(received);
    forall rp
      ensures ValidOnReplay(rp) <==> ValidLive(rp) || OnlyTooShort(rp)
      ensures !(ValidLive(rp) && OnlyTooShort(rp))
    {
      ReplayAcceptsMore(rp);
    }
    FilterOfWeaker(received, ValidOnReplay, ValidLive);
    if forall rp | rp in received :: !OnlyTooShort(rp) {
      SameFilter(received, ValidOnReplay, ValidLive);
    }
  }

  lemma {:induction false} SameFilter<T>(ts: seq<T>, f: T -> bool, g: T -> bool)
    requires forall t | t in ts :: f(t) <==> g(t)
    ensures Filter(ts, f) == Filter(ts, g)
  {
    if ts != [] {
      SameFilter(ts[..|ts| - 1], f, g);
    }
  }

  /** Which datagrams are merely too short: those whose header, with zeros for what did not arrive,
      claims at most 736 words, at least its own length and at most 715 more, and which have fewer
      bytes than a header or than claimed. */
  lemma TooShortIff(d: seq<u8>, srcAddr: u32, srcPort: u16)
    requires |d| <= 1472
    ensures
      var p := d + Zeros(1472 - |d|);
      OnlyTooShort(ReceivedDatagram(d, srcAddr, srcPort))
      <==> Word(p, 0) <= 736 && Word(p, 2) <= Word(p, 0) <= Word(p, 2) as int + 715
           && (|d| < 42 || |d| < 2 * Word(p, 0) as int)
  {
  }

  /** It does happen: an empty datagram is rejected live but its record is accepted. */
  lemma EmptyDatagramIsReplayed(srcAddr: u32, srcPort: u16)
    ensures OnlyTooShort(ReceivedPacket(Zeros(PACKET_BYTES), 0, srcAddr, srcPort))
  {
  }

  // ---- counters and histograms of a replay ----

  ghost function ReplayedValid(rp: ValidPacket): ValidPacket { FromListfile(rp.packet) }

  ghost function HasDevice(id: u8): SourceKey -> bool { (k: SourceKey) => k.deviceId == id }

  ghost function OfDevice<V>(m: map<SourceKey, V>, id: u8): map<SourceKey, V> {
    map k | k in m && HasDevice(id)(k) :: m[k]
  }

  /** What a device sent from several addresses adds up to what its replay shows under the
      single source (0, id), for everything that packets count for by their content. */
  lemma ReplayAddsUp<V(!new)>(rps: seq<ValidPacket>, id: u8, zero: V, step: (V, ValidPacket) -> V,
                              f: V -> nat, w: ValidPacket -> nat)
    requires Additive(f, zero, step, w)
    requires forall rp :: w(ReplayedValid(rp)) == w(rp)
    ensures SumBy(OfDevice(KeyedFold(map[], rps, SourceKeyOf, zero, step), id), f)
         == f(Lookup(KeyedFold(map[], MapSeq(rps, ReplayedValid), SourceKeyOf, zero, step), SourceKey(0, id), zero))
  {
    var own := Filter(rps, KeyIn(SourceKeyOf, HasDevice(id)));
    RestrictedFold(rps, SourceKeyOf, zero, step, HasDevice(id));
    assert OfDevice(KeyedFold(map[], rps, SourceKeyOf, zero, step), id)
        == KeyedFold(map[], own, SourceKeyOf, zero, step);
    AdditiveTotal(map[], own, SourceKeyOf, zero, step, f, w);
    forall rp: ValidPacket
      ensures HasKey(SourceKeyOf, SourceKey(0, id))(ReplayedValid(rp)) <==> KeyIn(SourceKeyOf, HasDevice(id))(rp)
    {
      SameDevice(rp, id);
    }
    KeysAreIndependent(map[], MapSeq(rps, ReplayedValid), SourceKeyOf, zero, step, SourceKey(0, id));
    FilterAfterMap(rps, ReplayedValid, HasKey(SourceKeyOf, SourceKey(0, id)), KeyIn(SourceKeyOf, HasDevice(id)));
    AdditiveFold(MapSeq(own, ReplayedValid), zero, step, f, w);
    WeightAfterMap(own, ReplayedValid, w, w);
  }

  lemma SameDevice(rp: ValidPacket, id: u8)
    ensures HasKey(SourceKeyOf, SourceKey(0, id))(ReplayedValid(rp)) <==> KeyIn(SourceKeyOf, HasDevice(id))(rp)
  {
    hide IsValidDataPacket;
    assert SourceKeyOf(ReplayedValid(rp)) == SourceKey(0, SourceKeyOf(rp).deviceId);
    assert HasDevice(id)(SourceKeyOf(rp)) <==> SourceKeyOf(rp).deviceId == id;
  }

  /** Packet, event, neutron and trigger counters of (0, id) are the sums over all live addresses. */
  ghost predicate CountersAgree(live: seq<ValidPacket>, replay: seq<ValidPacket>, id: u8) {
    var stats, st := OfDevice(StatsOf(map[], live), id), Lookup(StatsOf(map[], replay), SourceKey(0, id), NO_STATS);
    && st.packets == SumBy(stats, PacketsOf) && st.events == SumBy(stats, EventsOf)
    && st.neutronEvents == SumBy(stats, NeutronsOf) && st.triggerEvents == SumBy(stats, TriggersOf)
  }

  lemma ReplayCounters(rps: seq<ValidPacket>, id: u8)
    ensures CountersAgree(rps, MapSeq(rps, ReplayedValid), id)
  {
    CountersAreAdditive();
    ReplayAddsUp(rps, id, NO_STATS, Counted, PacketsOf, One);
    ReplayAddsUp(rps, id, NO_STATS, Counted, EventsOf, EventWeight);
    ReplayAddsUp(rps, id, NO_STATS, Counted, NeutronsOf, NeutronWeight);
    ReplayAddsUp(rps, id, NO_STATS, Counted, TriggersOf, TriggerWeight);
  }

  /** So is every histogram bin; f picks the events of the bin. */
  ghost predicate BinsAgree(live: seq<ValidPacket>, replay: seq<ValidPacket>, id: u8, f: EventBody -> bool) {
    var k := SourceKey(0, id);
    && Count(Lookup(MdllEventsOf(map[], replay), k, []), f)
       == SumBy(OfDevice(MdllEventsOf(map[], live), id), CountOf(f))
    && Count(Lookup(McpdEventsOf(map[], replay), k, []), f)
       == SumBy(OfDevice(McpdEventsOf(map[], live), id), CountOf(f))
  }

  lemma ReplayBins(rps: seq<ValidPacket>, id: u8, f: EventBody -> bool)
    ensures BinsAgree(rps, MapSeq(rps, ReplayedValid), id, f)
  {
    BinsAreAdditive(f);
    var mdll, mcpd := HasType(MDLL_DATA_BUFFER_TYPE), HasType(MCPD_DATA_BUFFER_TYPE);
    FilterAfterMap(rps, ReplayedValid, mdll, mdll);
    FilterAfterMap(rps, ReplayedValid, mcpd, mcpd);
    ReplayAddsUp(Filter(rps, mdll), id, [], AppendMdll, CountOf(f), BodiesCount(f, MDLL_DATA_BUFFER_TYPE));
    ReplayAddsUp(Filter(rps, mcpd), id, [], AppendMcpd, CountOf(f), BodiesCount(f, MCPD_DATA_BUFFER_TYPE));
  }

  /** The whole way: receive, write, read back, deliver, count. Without packets that were
      merely too short, the replay shows for every device what the live run showed. */
  lemma ReplayAgreesWithLive(received: seq<ReceivedPacket>, id: u8, f: EventBody -> bool)
    requires forall rp | rp in received :: !OnlyTooShort(rp)
    ensures CountersAgree(Delivered(received), Delivered(ReplayReads(received)), id)
    ensures BinsAgree(Delivered(received), Delivered(ReplayReads(received)), id, f)
  {
    hide IsValidDataPacket, OnlyTooShort, StatsOf, MdllEventsOf, McpdEventsOf;
    var live, replay := Delivered(received), Delivered(ReplayReads(received));
    assert replay == MapSeq(live, ReplayedValid) by {
      SameDeliveriesIff(received);
      assert replay == MapSeq(Filter(received, ValidLive), Replayed);
    }
    ReplayCounters(live, id);
    ReplayBins(live, id, f);
  }
}
