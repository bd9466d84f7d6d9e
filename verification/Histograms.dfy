/** Histograms filled in place, one increment per decoded neutron event. Each class keeps
    the history of its filled events; Valid() says what every bin holds in terms of it. */
module Histograms {
  import opened Counting
  import opened Events
  import opened Packets

  const MDLL_AMPLITUDE_BINS: nat := 0x100
  const POSITION_BINS: nat := 0x400        // x, y and MPSD position
  const XY_BINS: nat := 0x10_0000
  const MPSD_COUNT: nat := 8
  const CHANNEL_COUNT: nat := 32
  const AMPLITUDE_BINS: nat := 0x400
  const MPSD_BINS: nat := 0x4_0000         // MPSD_COUNT * CHANNEL_COUNT * AMPLITUDE_BINS

  ghost function MdllAmplitudeOf(b: EventBody): nat { if b.MdllNeutron? then b.mdllAmplitude else 0 }
  ghost function XOf(b: EventBody): nat { if b.MdllNeutron? then b.xPos else 0 }
  ghost function YOf(b: EventBody): nat { if b.MdllNeutron? then b.yPos else 0 }
  ghost function XyOf(b: EventBody): nat { if b.MdllNeutron? then b.yPos * POSITION_BINS + b.xPos else 0 }

  /** McpdHistograms::index(). */
  function Index(mpsdId: nat, channel: nat, bin: nat): nat {
    (mpsdId * CHANNEL_COUNT + channel) * AMPLITUDE_BINS + bin
  }

  ghost function AmplitudeCellOf(b: EventBody): nat {
    if b.Neutron? then Index(b.mpsdId, b.channel, b.amplitude) else 0
  }

  ghost function PositionCellOf(b: EventBody): nat {
    if b.Neutron? then Index(b.mpsdId, b.channel, b.position) else 0
  }

  /** Cell i of a counts the events of kind q that belong into it. */
  ghost predicate Holds(a: seq<nat>, events: seq<EventBody>, q: EventBody -> bool, cell: EventBody -> nat) {
    forall i: nat | i < |a| :: a[i] == Count(events, InBin(q, cell, i))
  }

  /** ++a[i], where i is the cell of the event b: afterwards a counts b as well. */
  method Increment(a: array<nat>, i: nat, ghost events: seq<EventBody>, ghost b: EventBody,
                   ghost q: EventBody -> bool, ghost cell: EventBody -> nat)
    requires Holds(a[..], events, q, cell) && q(b) && cell(b) == i < a.Length
    modifies a
    ensures Holds(a[..], events + [b], q, cell)
    ensures a[..] == old(a[..])[i := old(a[i]) + 1]
  {
    a[i] := a[i] + 1;
    forall j: nat | j < a.Length ensures a[j] == Count(events + [b], InBin(q, cell, j)) {
      CountSnoc(events, b, InBin(q, cell, j));
    }
  }

  lemma HoldsSkipped(
    a: seq<nat>, events: seq<EventBody>, b: EventBody, q: EventBody -> bool, cell: EventBody -> nat)
    requires Holds(a, events, q, cell) && !q(b)
    ensures Holds(a, events + [b], q, cell)
  {
    forall i: nat | i < |a| ensures a[i] == Count(events + [b], InBin(q, cell, i)) {
      CountSnoc(events, b, InBin(q, cell, i));
    }
  }

  method Zero(a: array<nat>)
    modifies a
    ensures forall i :: 0 <= i < a.Length ==> a[i] == 0
  {
    var i := 0;
    while i < a.Length
      invariant 0 <= i <= a.Length
      invariant forall j :: 0 <= j < i ==> a[j] == 0
    {
      a[i] := 0;
      i := i + 1;
    }
  }

  /** Cell (x, y) of the flat array counts the events at that position and no others. */
  lemma XyCellCount(events: seq<EventBody>, x: nat, y: nat)
    requires x < POSITION_BINS && y < POSITION_BINS
    requires forall b | b in events :: FitsLayout(b, MDLL_DATA_BUFFER_TYPE)
    ensures
      var n := Count(events, InBin(IsMdllNeutron, XyOf, y * POSITION_BINS + x));
      && n == Count(events, InBin(InBin(IsMdllNeutron, YOf, y), XOf, x))
      && n == Count(events, InBin(InBin(IsMdllNeutron, XOf, x), YOf, y))
  {
    var cell := InBin(IsMdllNeutron, XyOf, y * POSITION_BINS + x);
    forall b | b in events
      ensures cell(b) <==> InBin(InBin(IsMdllNeutron, YOf, y), XOf, x)(b)
      ensures cell(b) <==> InBin(InBin(IsMdllNeutron, XOf, x), YOf, y)(b)
    {
      assert IsMdllNeutron(b) ==> (XyOf(b) == y * POSITION_BINS + x <==> YOf(b) == y && XOf(b) == x);
    }
    CountSame(events, cell, InBin(InBin(IsMdllNeutron, YOf, y), XOf, x));
    CountSame(events, cell, InBin(InBin(IsMdllNeutron, XOf, x), YOf, y));
  }

  class MdllHistograms {
    const amplitude: array<nat>
    const x: array<nat>
    const y: array<nat>
    const xy: array<nat>             // xy[yPos * POSITION_BINS + xPos]
    ghost var events: seq<EventBody> // decoded events filled since the last clear

    ghost const Repr: set<object>

    ghost predicate Valid()
      reads this, Repr
    {
      && Repr == {this, amplitude, x, y, xy}
      && amplitude != x && amplitude != y && amplitude != xy && x != y && x != xy && y != xy
      && amplitude.Length == MDLL_AMPLITUDE_BINS && x.Length == POSITION_BINS
      && y.Length == POSITION_BINS && xy.Length == XY_BINS
      && (forall b | b in events :: FitsLayout(b, MDLL_DATA_BUFFER_TYPE))
      && Holds(amplitude[..], events, IsMdllNeutron, MdllAmplitudeOf)
      && Holds(x[..], events, IsMdllNeutron, XOf)
      && Holds(y[..], events, IsMdllNeutron, YOf)
      && Holds(xy[..], events, IsMdllNeutron, XyOf)
    }

    constructor ()
      ensures Valid() && fresh(Repr) && events == []
    {
      amplitude := new nat[MDLL_AMPLITUDE_BINS](_ => 0);
      x := new nat[POSITION_BINS](_ => 0);
      y := new nat[POSITION_BINS](_ => 0);
      xy := new nat[XY_BINS](_ => 0);
      events := [];
      Repr := {this, amplitude, x, y, xy};
    }

    /** Appends what the slow decoder makes of the packet; Valid() carries that to the bins. */
    method Fill(p: DataPacket)
      requires Valid() && LengthFieldsOk(p)
      modifies Repr
      ensures Valid() && events == old(events) + Bodies(p, MDLL_DATA_BUFFER_TYPE)
    {
      var eventCount := EventCount(p);
      ghost var bodies := Bodies(p, MDLL_DATA_BUFFER_TYPE);
      for i := 0 to eventCount
        invariant Valid()
        invariant events == old(events) + bodies[..i]
      {
        NextBody(p, MDLL_DATA_BUFFER_TYPE, i);
        FillEvent(RawEvent(p, i));
      }
      assert bodies[..eventCount] == bodies;
    }

    /** The body of the loop in Fill: triggers are skipped, a neutron adds one to four bins. */
    method FillEvent(event: nat)
      requires Valid() && event < EVENT_VALUES
      modifies Repr
      ensures Valid() && events == old(events) + [DecodeBody(event, MDLL_DATA_BUFFER_TYPE)]
    {
      ghost var b := DecodeBody(event, MDLL_DATA_BUFFER_TYPE);
      DecodedFits(event, MDLL_DATA_BUFFER_TYPE);
      if IsTriggerBit(event) {
        HoldsSkipped(amplitude[..], events, b, IsMdllNeutron, MdllAmplitudeOf);
        HoldsSkipped(x[..], events, b, IsMdllNeutron, XOf);
        HoldsSkipped(y[..], events, b, IsMdllNeutron, YOf);
        HoldsSkipped(xy[..], events, b, IsMdllNeutron, XyOf);
      } else {
        var amp := event / 0x80_0000_0000 % 0x100;
        var xPos := event / 0x8_0000 % 0x400;
        var yPos := event / 0x2000_0000 % 0x400;
        Increment(amplitude, amp, events, b, IsMdllNeutron, MdllAmplitudeOf);
        Increment(x, xPos, events, b, IsMdllNeutron, XOf);
        Increment(y, yPos, events, b, IsMdllNeutron, YOf);
        Increment(xy, yPos * POSITION_BINS + xPos, events, b, IsMdllNeutron, XyOf);
      }
      events := events + [b];
    }

    method Clear()
      requires Valid()
      modifies Repr
      ensures Valid() && events == []
    {
      Zero(amplitude);
      Zero(x);
      Zero(y);
      Zero(xy);
      events := [];
    }

    /** Row yPos of xy sums up to the y bin, column xPos to the x bin. */
    lemma MarginalsAgree(xPos: nat, yPos: nat)
      requires Valid() && xPos < POSITION_BINS && yPos < POSITION_BINS
      ensures StridedSum(xy[..], yPos * POSITION_BINS, 1, POSITION_BINS) == y[yPos]
      ensures StridedSum(xy[..], xPos, POSITION_BINS, POSITION_BINS) == x[xPos]
    {
      var row, column := InBin(IsMdllNeutron, YOf, yPos), InBin(IsMdllNeutron, XOf, xPos);
      forall i: nat | i < POSITION_BINS
        ensures xy[yPos * POSITION_BINS + i] == Count(events, InBin(row, XOf, i))
        ensures xy[xPos + i * POSITION_BINS] == Count(events, InBin(column, YOf, i))
      {
        XyCellCount(events, i, yPos);
        XyCellCount(events, xPos, i);
      }
      AllBinsCount(events, row, XOf, xy[..], yPos * POSITION_BINS, 1, POSITION_BINS);
      AllBinsCount(events, column, YOf, xy[..], xPos, POSITION_BINS, POSITION_BINS);
    }

    /** Every bin counts the decoded MDLL neutrons with its value, or its pair of values. */
    lemma BinsCount(xPos: nat, yPos: nat, amp: nat)
      requires Valid() && xPos < 1024 && yPos < 1024 && amp < 256
      ensures amplitude[amp] == Count(events, MdllWithAmplitude(amp))
      ensures x[xPos] == Count(events, MdllWithX(xPos)) && y[yPos] == Count(events, MdllWithY(yPos))
      ensures xy[1024 * yPos + xPos] == Count(events, MdllAt(xPos, yPos))
    {
      forall b | b in events
        ensures InBin(IsMdllNeutron, MdllAmplitudeOf, amp)(b) <==> MdllWithAmplitude(amp)(b)
      {
        assert IsMdllNeutron(b) ==> MdllAmplitudeOf(b) == b.mdllAmplitude;
      }
      CountSame(events, InBin(IsMdllNeutron, MdllAmplitudeOf, amp), MdllWithAmplitude(amp));
      CountSame(events, InBin(IsMdllNeutron, XOf, xPos), MdllWithX(xPos));
      CountSame(events, InBin(IsMdllNeutron, YOf, yPos), MdllWithY(yPos));
      CountSame(events, InBin(IsMdllNeutron, XyOf, 1024 * yPos + xPos), MdllAt(xPos, yPos));
    }

    /** All four arrays have the same total: the number of decoded MDLL neutrons. */
    lemma TotalsAgree()
      requires Valid()
      ensures StridedSum(amplitude[..], 0, 1, MDLL_AMPLITUDE_BINS) == Count(events, IsMdllNeutron)
      ensures StridedSum(x[..], 0, 1, POSITION_BINS) == Count(events, IsMdllNeutron)
      ensures StridedSum(y[..], 0, 1, POSITION_BINS) == Count(events, IsMdllNeutron)
      ensures StridedSum(xy[..], 0, 1, XY_BINS) == Count(events, IsMdllNeutron)
    {
      AllBinsCount(events, IsMdllNeutron, MdllAmplitudeOf, amplitude[..], 0, 1, MDLL_AMPLITUDE_BINS);
      AllBinsCount(events, IsMdllNeutron, XOf, x[..], 0, 1, POSITION_BINS);
      AllBinsCount(events, IsMdllNeutron, YOf, y[..], 0, 1, POSITION_BINS);
      AllBinsCount(events, IsMdllNeutron, XyOf, xy[..], 0, 1, XY_BINS);
    }
  }

  ghost function MdllWithAmplitude(v: nat): EventBody -> bool {
    (b: EventBody) => b.MdllNeutron? && b.mdllAmplitude == v
  }

  ghost function MdllWithX(v: nat): EventBody -> bool { (b: EventBody) => b.MdllNeutron? && b.xPos == v }

  ghost function MdllWithY(v: nat): EventBody -> bool { (b: EventBody) => b.MdllNeutron? && b.yPos == v }

  ghost function MdllAt(x: nat, y: nat): EventBody -> bool {
    (b: EventBody) => b.MdllNeutron? && b.xPos == x && b.yPos == y
  }

  ghost function NeutronWithAmplitude(m: nat, c: nat, v: nat): EventBody -> bool {
    (b: EventBody) => b.Neutron? && b.mpsdId == m && b.channel == c && b.amplitude == v
  }

  ghost function NeutronWithPosition(m: nat, c: nat, v: nat): EventBody -> bool {
    (b: EventBody) => b.Neutron? && b.mpsdId == m && b.channel == c && b.position == v
  }

  /** Index() reaches every cell of the flat arrays from exactly one triple. */
  lemma IndexIsBijection(cell: nat)
    requires cell < MPSD_BINS
    ensures
      var m, c, bin := cell / 0x8000, cell / 0x400 % 32, cell % 0x400;
      m < MPSD_COUNT && c < CHANNEL_COUNT && bin < AMPLITUDE_BINS && Index(m, c, bin) == cell
  {
    assert cell / 0x8000 == cell / 0x400 / 32;
  }

  lemma IndexIsInjective(m: nat, c: nat, bin: nat, m': nat, c': nat, bin': nat)
    requires m < MPSD_COUNT && c < CHANNEL_COUNT && bin < AMPLITUDE_BINS
    requires m' < MPSD_COUNT && c' < CHANNEL_COUNT && bin' < AMPLITUDE_BINS
    ensures Index(m, c, bin) < MPSD_BINS
    ensures Index(m, c, bin) == Index(m', c', bin') <==> m == m' && c == c' && bin == bin'
  {
    var i, j := m * 32 + c, m' * 32 + c';
    assert i == j <==> m == m' && c == c';
    assert i * 0x400 + bin == j * 0x400 + bin' <==> i == j && bin == bin';
  }

  lemma MpsdCellCount(events: seq<EventBody>, m: nat, c: nat, bin: nat)
    requires m < MPSD_COUNT && c < CHANNEL_COUNT && bin < AMPLITUDE_BINS
    requires forall b | b in events :: FitsLayout(b, MCPD_DATA_BUFFER_TYPE)
    ensures Count(events, InBin(IsNeutron, AmplitudeCellOf, Index(m, c, bin)))
         == Count(events, InBin(OfChannel(m, c), AmplitudeOf, bin))
    ensures Count(events, InBin(IsNeutron, PositionCellOf, Index(m, c, bin)))
         == Count(events, InBin(OfChannel(m, c), PositionOf, bin))
  {
    forall b | b in events
      ensures InBin(IsNeutron, AmplitudeCellOf, Index(m, c, bin))(b) <==> InBin(OfChannel(m, c), AmplitudeOf, bin)(b)
      ensures InBin(IsNeutron, PositionCellOf, Index(m, c, bin))(b) <==> InBin(OfChannel(m, c), PositionOf, bin)(b)
    {
      if IsNeutron(b) {
        assert AmplitudeOf(b) < AMPLITUDE_BINS && PositionOf(b) < AMPLITUDE_BINS;
        assert AmplitudeCellOf(b) == Index(b.mpsdId, b.channel, b.amplitude);
        assert PositionCellOf(b) == Index(b.mpsdId, b.channel, b.position);
        IndexIsInjective(m, c, bin, b.mpsdId, b.channel, b.amplitude);
        IndexIsInjective(m, c, bin, b.mpsdId, b.channel, b.position);
      }
    }
    CountSame(events, InBin(IsNeutron, AmplitudeCellOf, Index(m, c, bin)), InBin(OfChannel(m, c), AmplitudeOf, bin));
    CountSame(events, InBin(IsNeutron, PositionCellOf, Index(m, c, bin)), InBin(OfChannel(m, c), PositionOf, bin));
  }

  class McpdHistograms {
    const amplitude: array<nat>      // amplitude[Index(mpsdId, channel, bin)]
    const position: array<nat>
    ghost var events: seq<EventBody> // decoded events filled since the last clear

    ghost const Repr: set<object>

    ghost predicate Valid()
      reads this, Repr
    {
      && Repr == {this, amplitude, position}
      && amplitude != position && amplitude.Length == MPSD_BINS && position.Length == MPSD_BINS
      && (forall b | b in events :: FitsLayout(b, MCPD_DATA_BUFFER_TYPE))
      && Holds(amplitude[..], events, IsNeutron, AmplitudeCellOf)
      && Holds(position[..], events, IsNeutron, PositionCellOf)
    }

    constructor ()
      ensures Valid() && fresh(Repr) && events == []
    {
      amplitude := new nat[MPSD_BINS](_ => 0);
      position := new nat[MPSD_BINS](_ => 0);
      events := [];
      Repr := {this, amplitude, position};
    }

    method Fill(p: DataPacket)
      requires Valid() && LengthFieldsOk(p)
      modifies Repr
      ensures Valid() && events == old(events) + Bodies(p, MCPD_DATA_BUFFER_TYPE)
    {
      var eventCount := EventCount(p);
      ghost var bodies := Bodies(p, MCPD_DATA_BUFFER_TYPE);
      for i := 0 to eventCount
        invariant Valid()
        invariant events == old(events) + bodies[..i]
      {
        NextBody(p, MCPD_DATA_BUFFER_TYPE, i);
        FillEvent(RawEvent(p, i));
      }
      assert bodies[..eventCount] == bodies;
    }

    method FillEvent(event: nat)
      requires Valid() && event < EVENT_VALUES
      modifies Repr
      ensures Valid() && events == old(events) + [DecodeBody(event, MCPD_DATA_BUFFER_TYPE)]
    {
      ghost var b := DecodeBody(event, MCPD_DATA_BUFFER_TYPE);
      DecodedFits(event, MCPD_DATA_BUFFER_TYPE);
      if IsTriggerBit(event) {
        HoldsSkipped(amplitude[..], events, b, IsNeutron, AmplitudeCellOf);
        HoldsSkipped(position[..], events, b, IsNeutron, PositionCellOf);
      } else {
        var mpsdId := event / 0x1000_0000_0000 % 8;
        var channel := event / 0x80_0000_0000 % 32;
        var amp := event / 0x2000_0000 % 0x400;
        var pos := event / 0x8_0000 % 0x400;
        Increment(amplitude, Index(mpsdId, channel, amp), events, b, IsNeutron, AmplitudeCellOf);
        Increment(position, Index(mpsdId, channel, pos), events, b, IsNeutron, PositionCellOf);
      }
      events := events + [b];
    }

    method Clear()
      requires Valid()
      modifies Repr
      ensures Valid() && events == []
    {
      Zero(amplitude);
      Zero(position);
      events := [];
    }

    /** Every bin counts the decoded neutrons of its module and channel with its value. */
    lemma BinsCount(m: nat, c: nat, v: nat)
      requires Valid() && m < 8 && c < 32 && v < 1024
      ensures Index(m, c, v) == (32 * m + c) * 1024 + v < 8 * 32 * 1024
      ensures amplitude[Index(m, c, v)] == Count(events, NeutronWithAmplitude(m, c, v))
      ensures position[Index(m, c, v)] == Count(events, NeutronWithPosition(m, c, v))
    {
      IndexIsInjective(m, c, v, m, c, v);
      MpsdCellCount(events, m, c, v);
      CountSame(events, InBin(OfChannel(m, c), AmplitudeOf, v), NeutronWithAmplitude(m, c, v));
      CountSame(events, InBin(OfChannel(m, c), PositionOf, v), NeutronWithPosition(m, c, v));
    }

    /** The amplitude slice and the position slice of a channel have equal sums. */
    lemma SlicesAgree(m: nat, c: nat)
      requires Valid() && m < MPSD_COUNT && c < CHANNEL_COUNT
      ensures StridedSum(amplitude[..], Index(m, c, 0), 1, AMPLITUDE_BINS)
           == StridedSum(position[..], Index(m, c, 0), 1, AMPLITUDE_BINS)
           == Count(events, OfChannel(m, c))
    {
      var start, q := Index(m, c, 0), OfChannel(m, c);
      forall i: nat | i < AMPLITUDE_BINS
        ensures amplitude[start + i] == Count(events, InBin(q, AmplitudeOf, i))
        ensures position[start + i] == Count(events, InBin(q, PositionOf, i))
      {
        MpsdCellCount(events, m, c, i);
      }
      AllBinsCount(events, q, AmplitudeOf, amplitude[..], start, 1, AMPLITUDE_BINS);
      AllBinsCount(events, q, PositionOf, position[..], start, 1, AMPLITUDE_BINS);
    }

    lemma TotalsAgree()
      requires Valid()
      ensures StridedSum(amplitude[..], 0, 1, MPSD_BINS) == Count(events, IsNeutron)
      ensures StridedSum(position[..], 0, 1, MPSD_BINS) == Count(events, IsNeutron)
    {
      AllBinsCount(events, IsNeutron, AmplitudeCellOf, amplitude[..], 0, 1, MPSD_BINS);
      AllBinsCount(events, IsNeutron, PositionCellOf, position[..], 0, 1, MPSD_BINS);
    }
  }

  ghost function AmplitudeOf(b: EventBody): nat { if b.Neutron? then b.amplitude else 0 }
  ghost function PositionOf(b: EventBody): nat { if b.Neutron? then b.position else 0 }
  ghost function OfChannel(m: nat, c: nat): EventBody -> bool {
    (b: EventBody) => b.Neutron? && b.mpsdId == m && b.channel == c
  }
}
