/** The 48 bit event layouts. Bit fields are written as quotients and remainders of
    powers of two, which is what shifting right and masking computes. */
module Events {
  import opened Packets

  const TIMESTAMP: nat := 0x8_0000           // 2^19, everything below bit 19
  const EVENT_VALUES: nat := 0x1_0000_0000_0000

  datatype EventBody =
    | Neutron(mpsdId: nat, channel: nat, amplitude: nat, position: nat)
    | Trigger(triggerId: nat, dataId: nat, value: nat)
    | MdllNeutron(mdllAmplitude: nat, xPos: nat, yPos: nat)

  datatype DecodedEvent = DecodedEvent(
    deviceId: u8, body: EventBody, packetTimestamp: nat, eventTimestamp: nat, timestamp: nat)

  predicate IsTriggerBit(event: nat) {
    event / 0x8000_0000_0000 % 2 == 1
  }

  function DecodeBody(event: nat, bufferType: u16): EventBody {
    if IsTriggerBit(event) then
      Trigger(event / 0x1000_0000_0000 % 8, event / 0x100_0000_0000 % 16, event / 0x8_0000 % 0x20_0000)
    else if bufferType == MDLL_DATA_BUFFER_TYPE then
      MdllNeutron(event / 0x80_0000_0000 % 0x100, event / 0x8_0000 % 0x400, event / 0x2000_0000 % 0x400)
    else
      Neutron(event / 0x1000_0000_0000 % 8, event / 0x80_0000_0000 % 32,
              event / 0x2000_0000 % 0x400, event / 0x8_0000 % 0x400)
  }

  function Decode(event: nat, deviceId: u8, bufferType: u16, headerTimestamp: nat): DecodedEvent {
    var eventTimestamp := event % TIMESTAMP;
    DecodedEvent(deviceId, DecodeBody(event, bufferType), headerTimestamp, eventTimestamp,
                 (headerTimestamp + eventTimestamp) % TWO_TO_THE_64)
  }

  /** decode_event(packet, i); None stands for the exception of get_event(). */
  function DecodeEvent(p: DataPacket, i: nat): Option<DecodedEvent>
    requires LengthFieldsOk(p)
  {
    match GetEvent(p, i)
    case None => None
    case Some(event) => Some(Decode(event, DeviceId(p), BufferType(p), HeaderTimestamp(p)))
  }

  /** Places the fields of a body and a timestamp back into their bits. */
  function Encode(b: EventBody, t: nat): nat {
    t + match b
        case Neutron(m, c, a, p) => 0x1000_0000_0000 * m + 0x80_0000_0000 * c + 0x2000_0000 * a + 0x8_0000 * p
        case Trigger(i, d, v) => 0x8000_0000_0000 + 0x1000_0000_0000 * i + 0x100_0000_0000 * d + 0x8_0000 * v
        case MdllNeutron(a, x, y) => 0x80_0000_0000 * a + 0x8_0000 * x + 0x2000_0000 * y
  }

  /** Every field within its number of bits, and the kind matching the buffer type. */
  predicate FitsLayout(b: EventBody, bufferType: u16) {
    match b
    case Neutron(m, c, a, p) => bufferType != MDLL_DATA_BUFFER_TYPE && m < 8 && c < 32 && a < 0x400 && p < 0x400
    case Trigger(i, d, v) => i < 8 && d < 16 && v < 0x20_0000
    case MdllNeutron(a, x, y) => bufferType == MDLL_DATA_BUFFER_TYPE && a < 0x100 && x < 0x400 && y < 0x400
  }

  /** A field border is a quotient of the border below it. */
  lemma Above(v: nat)
    ensures v / 0x2000_0000 == v / 0x8_0000 / 0x400
    ensures v / 0x80_0000_0000 == v / 0x2000_0000 / 0x400
    ensures v / 0x1000_0000_0000 == v / 0x80_0000_0000 / 32
    ensures v / 0x8000_0000_0000 == v / 0x80_0000_0000 / 0x100
  {
  }

  lemma AboveTriggerData(v: nat)
    ensures v / 0x100_0000_0000 == v / 0x8_0000 / 0x20_0000
    ensures v / 0x1000_0000_0000 == v / 0x100_0000_0000 / 16
    ensures v / 0x8000_0000_0000 == v / 0x1000_0000_0000 / 8
  {
  }

  lemma TriggerParts(v: nat)
    requires v < EVENT_VALUES && IsTriggerBit(v)
    ensures Encode(DecodeBody(v, MCPD_DATA_BUFFER_TYPE), v % TIMESTAMP) == v
  {
    AboveTriggerData(v);
  }

  lemma NeutronParts(v: nat)
    requires v < EVENT_VALUES && !IsTriggerBit(v)
    ensures Encode(DecodeBody(v, MCPD_DATA_BUFFER_TYPE), v % TIMESTAMP) == v
  {
    Above(v);
    AboveTriggerData(v);
  }

  lemma MdllParts(v: nat)
    requires v < EVENT_VALUES && !IsTriggerBit(v)
    ensures Encode(DecodeBody(v, MDLL_DATA_BUFFER_TYPE), v % TIMESTAMP) == v
  {
    Above(v);
  }

  lemma DecodedFits(event: nat, bufferType: u16)
    ensures FitsLayout(DecodeBody(event, bufferType), bufferType)
  {
  }

  /** No bit of the event is lost: the decoded fields give the event back. */
  lemma EncodeUndoesDecode(event: nat, bufferType: u16)
    requires event < EVENT_VALUES
    ensures FitsLayout(DecodeBody(event, bufferType), bufferType)
    ensures Encode(DecodeBody(event, bufferType), event % TIMESTAMP) == event
  {
    DecodedFits(event, bufferType);
    if IsTriggerBit(event) {
      TriggerParts(event);
    } else if bufferType == MDLL_DATA_BUFFER_TYPE {
      MdllParts(event);
    } else {
      NeutronParts(event);
    }
  }

  lemma MultipleOutside(k: int, width: nat)
    ensures k >= 1 ==> k * width >= width
    ensures k <= -1 ==> k * width <= 0 - width
  {
    if k >= 1 {
      assert k * width == width + (k - 1) * width;
    } else if k <= -1 {
      assert k * width == 0 - width + (k + 1) * width;
    }
  }

  /** One field above another: the quotient is the upper one, the remainder the lower one. */
  lemma FieldAbove(v: nat, upper: nat, lower: nat, width: nat)
    requires v == width * upper + lower && lower < width
    ensures v / width == upper && v % width == lower
  {
    var k := v / width - upper;
    assert k * width == lower - v % width;
    MultipleOutside(k, width);
  }

  lemma NeutronFields(m: nat, c: nat, a: nat, p: nat, t: nat)
    requires m < 8 && c < 32 && a < 0x400 && p < 0x400 && t < TIMESTAMP
    ensures
      var e := Encode(Neutron(m, c, a, p), t);
      && e < 0x8000_0000_0000 && e % TIMESTAMP == t && !IsTriggerBit(e)
      && e / 0x1000_0000_0000 % 8 == m && e / 0x80_0000_0000 % 32 == c
      && e / 0x2000_0000 % 0x400 == a && e / 0x8_0000 % 0x400 == p
  {
    var e := Encode(Neutron(m, c, a, p), t);
    FieldAbove(e, p + 0x400 * (a + 0x400 * (c + 32 * m)), t, 0x8_0000);
    FieldAbove(e, a + 0x400 * (c + 32 * m), 0x8_0000 * p + t, 0x2000_0000);
    FieldAbove(e, c + 32 * m, 0x2000_0000 * a + 0x8_0000 * p + t, 0x80_0000_0000);
    FieldAbove(e, m, 0x80_0000_0000 * c + 0x2000_0000 * a + 0x8_0000 * p + t, 0x1000_0000_0000);
  }

  lemma TriggerFields(i: nat, d: nat, v: nat, t: nat)
    requires i < 8 && d < 16 && v < 0x20_0000 && t < TIMESTAMP
    ensures
      var e := Encode(Trigger(i, d, v), t);
      && 0x8000_0000_0000 <= e < EVENT_VALUES && e % TIMESTAMP == t && IsTriggerBit(e)
      && e / 0x1000_0000_0000 % 8 == i && e / 0x100_0000_0000 % 16 == d && e / 0x8_0000 % 0x20_0000 == v
  {
    var e := Encode(Trigger(i, d, v), t);
    FieldAbove(e, v + 0x20_0000 * (d + 16 * (i + 8)), t, 0x8_0000);
    FieldAbove(e, d + 16 * (i + 8), 0x8_0000 * v + t, 0x100_0000_0000);
    FieldAbove(e, i + 8, 0x100_0000_0000 * d + 0x8_0000 * v + t, 0x1000_0000_0000);
  }

  lemma MdllFields(a: nat, x: nat, y: nat, t: nat)
    requires a < 0x100 && x < 0x400 && y < 0x400 && t < TIMESTAMP
    ensures
      var e := Encode(MdllNeutron(a, x, y), t);
      && e < 0x8000_0000_0000 && e % TIMESTAMP == t && !IsTriggerBit(e)
      && e / 0x80_0000_0000 % 0x100 == a && e / 0x8_0000 % 0x400 == x && e / 0x2000_0000 % 0x400 == y
  {
    var e := Encode(MdllNeutron(a, x, y), t);
    FieldAbove(e, x + 0x400 * (y + 0x400 * a), t, 0x8_0000);
    FieldAbove(e, y + 0x400 * a, 0x8_0000 * x + t, 0x2000_0000);
    FieldAbove(e, a, 0x2000_0000 * y + 0x8_0000 * x + t, 0x80_0000_0000);
  }

  /** No two fields overlap: every body that fits is decoded from its own encoding. */
  lemma DecodeUndoesEncode(b: EventBody, t: nat, bufferType: u16)
    requires FitsLayout(b, bufferType) && t < TIMESTAMP
    ensures Encode(b, t) < EVENT_VALUES
    ensures DecodeBody(Encode(b, t), bufferType) == b
    ensures Encode(b, t) % TIMESTAMP == t
  {
    match b
    case Neutron(m, c, a, p) => NeutronFields(m, c, a, p, t);
    case Trigger(i, d, v) => TriggerFields(i, d, v, t);
    case MdllNeutron(a, x, y) => MdllFields(a, x, y, t);
  }

  /** The bits of the three layouts, from the highest field to the timestamp: bit 47 marks a
      trigger; a neutron has 3 bits of MPSD id, 5 of channel, 10 of amplitude and 10 of position,
      a trigger 3 bits of id, 4 of data id and 21 of data in any packet, and a neutron in a packet of
      type 2 four unused bits, 8 of amplitude, 10 of y and 10 of x. */
  lemma Layouts(m: nat, c: nat, a: nat, p: nat, d: nat, v: nat, b: nat, t: nat, bufferType: u16)
    requires m < 8 && c < 32 && a < 1024 && p < 1024 && d < 16 && v < 0x20_0000 && b < 256 && t < 0x8_0000
    ensures bufferType != 2 ==>
      DecodeBody(0x1000_0000_0000 * m + 0x80_0000_0000 * c + 0x2000_0000 * a + 0x8_0000 * p + t, bufferType)
      == Neutron(m, c, a, p)
    ensures DecodeBody(0x8000_0000_0000 + 0x1000_0000_0000 * m + 0x100_0000_0000 * d + 0x8_0000 * v + t, bufferType)
            == Trigger(m, d, v)
    ensures bufferType == 2 ==>
      DecodeBody(0x80_0000_0000 * b + 0x2000_0000 * a + 0x8_0000 * p + t, bufferType) == MdllNeutron(b, p, a)
  {
    hide DecodeBody;
    DecodeUndoesEncode(Trigger(m, d, v), t, bufferType);
    if bufferType == 2 {
      DecodeUndoesEncode(MdllNeutron(b, p, a), t, bufferType);
    } else {
      DecodeUndoesEncode(Neutron(m, c, a, p), t, bufferType);
    }
  }

  /** The decoded event re-encodes to the three given words, and its full timestamp
      is the plain sum: it never reaches the width of its 64 bit variable. */
  ghost predicate Recodes(e: DecodedEvent, w0: u16, w1: u16, w2: u16) {
    && From48(Encode(e.body, e.eventTimestamp)) == (w0, w1, w2)
    && e.eventTimestamp < TIMESTAMP
    && e.timestamp == e.packetTimestamp + e.eventTimestamp < 0x1_0000_0000_0000 + TIMESTAMP
  }

  lemma WordsRecoded(w0: u16, w1: u16, w2: u16, deviceId: u8, bufferType: u16, headerTimestamp: nat)
    requires headerTimestamp < 0x1_0000_0000_0000
    ensures Recodes(Decode(To48(w0, w1, w2), deviceId, bufferType, headerTimestamp), w0, w1, w2)
  {
    hide To48, From48, DecodeBody, Encode, FitsLayout;
    var v := To48(w0, w1, w2);
    SplitJoin48(w0, w1, w2);
    EncodeUndoesDecode(v, bufferType);
    var e := Decode(v, deviceId, bufferType, headerTimestamp);
    assert e.body == DecodeBody(v, bufferType) && e.eventTimestamp == v % TIMESTAMP;
  }

  /** From the words of a packet to the decoded fields and back to the words. */
  lemma WordsSurviveDecoding(p: DataPacket, i: nat)
    requires LengthFieldsOk(p) && i < EventCount(p)
    ensures DecodeEvent(p, i).Some?
    ensures DecodeEvent(p, i).value.deviceId == DeviceId(p)
    ensures DecodeEvent(p, i).value.packetTimestamp == HeaderTimestamp(p)
    ensures Recodes(DecodeEvent(p, i).value, Data(p, 3 * i), Data(p, 3 * i + 1), Data(p, 3 * i + 2))
  {
    ValidEventsInBounds(p);
    WordsRecoded(Data(p, 3 * i), Data(p, 3 * i + 1), Data(p, 3 * i + 2),
                 DeviceId(p), BufferType(p), HeaderTimestamp(p));
  }

  /** What the slow decoder makes of all events of a packet, in order. */
  ghost function Bodies(p: DataPacket, bufferType: u16): seq<EventBody>
    requires LengthFieldsOk(p)
  {
    seq(EventCount(p), (i: nat) requires i < EventCount(p) => DecodeBody(RawEvent(p, i), bufferType))
  }

  lemma NextBody(p: DataPacket, bufferType: u16, i: nat)
    requires LengthFieldsOk(p) && i < EventCount(p)
    ensures 3 * i + 2 < MAX_DATA_WORDS
    ensures Bodies(p, bufferType)[..i + 1] == Bodies(p, bufferType)[..i] + [DecodeBody(RawEvent(p, i), bufferType)]
  {
    EventInBounds(p, i);
    assert Bodies(p, bufferType)[i] == DecodeBody(RawEvent(p, i), bufferType);
  }

  lemma BodiesAreDecoded(p: DataPacket, i: nat)
    requires LengthFieldsOk(p) && i < EventCount(p)
    ensures |Bodies(p, BufferType(p))| == EventCount(p)
    ensures DecodeEvent(p, i).Some? && Bodies(p, BufferType(p))[i] == DecodeEvent(p, i).value.body
  {
  }

  ghost predicate IsTrigger(b: EventBody) { b.Trigger? }
  ghost predicate IsNeutron(b: EventBody) { b.Neutron? }
  ghost predicate IsMdllNeutron(b: EventBody) { b.MdllNeutron? }

  /** The shift and mask expressions of the source are the quotients and remainders above. */
  lemma FieldsAreQuotients(e: bv64)
    requires e < 0x1_0000_0000_0000
    ensures (e >> 47) & 1 == e / 0x8000_0000_0000 % 2
    ensures (e >> 44) & 7 == e / 0x1000_0000_0000 % 8
    ensures (e >> 40) & 0xf == e / 0x100_0000_0000 % 0x10
    ensures (e >> 39) & 0x1f == e / 0x80_0000_0000 % 0x20
    ensures (e >> 39) & 0xff == e / 0x80_0000_0000 % 0x100
    ensures (e >> 29) & 0x3ff == e / 0x2000_0000 % 0x400
    ensures (e >> 19) & 0x3ff == e / 0x8_0000 % 0x400
    ensures (e >> 19) & 0x1f_ffff == e / 0x8_0000 % 0x20_0000
    ensures (e >> 0) & 0x7_ffff == e % 0x8_0000
  {
  }
}
