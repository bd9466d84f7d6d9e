/** Packets as the C++ code holds them: byte images of the packed structs on a
    little endian machine, with the struct members as accessors. */
module Packets {
  type u8 = x: int | 0 <= x < 0x100
  type u16 = x: int | 0 <= x < 0x1_0000
  type u32 = x: int | 0 <= x < 0x1_0000_0000

  const PACKET_BYTES: nat := 1472      // sizeof(DataPacket) == sizeof(CommandPacket)
  const HEADER_WORDS: nat := 21        // DataPacket without its data array
  const MAX_DATA_WORDS: nat := 715
  const PARAM_COUNT: nat := 4
  const TWO_TO_THE_64: int := 0x1_0000_0000_0000_0000

  const COMMAND_BUFFER_TYPE: u16 := 0x8000
  const MCPD_DATA_BUFFER_TYPE: u16 := 0x0001
  const MDLL_DATA_BUFFER_TYPE: u16 := 0x0002

  function Zeros(n: nat): (z: seq<u8>)
    ensures |z| == n && forall i :: 0 <= i < n ==> z[i] == 0
  {
    seq(n, _ => 0)
  }

  type DataPacket = b: seq<u8> | |b| == PACKET_BYTES witness Zeros(PACKET_BYTES)

  /** The i-th 16 bit word of a byte image. */
  function Word(b: seq<u8>, i: nat): u16
    requires 2 * i + 1 < |b|
  {
    var low: int, high: int := b[2 * i], b[2 * i + 1];
    low + 0x100 * high
  }

  function BufferLength(p: DataPacket): u16 { Word(p, 0) }
  function BufferType(p: DataPacket): u16 { Word(p, 1) }
  function HeaderLength(p: DataPacket): u16 { Word(p, 2) }
  function BufferNumber(p: DataPacket): u16 { Word(p, 3) }
  function RunId(p: DataPacket): u16 { Word(p, 4) }
  function DeviceStatus(p: DataPacket): u8 { p[10] }
  function DeviceId(p: DataPacket): u8 { p[11] }

  function Data(p: DataPacket, i: nat): u16
    requires i < MAX_DATA_WORDS
  {
    Word(p, HEADER_WORDS + i)
  }

  /** Three words, least significant first. */
  function To48(w0: u16, w1: u16, w2: u16): (v: nat)
    ensures v < 0x1_0000_0000_0000
  {
    w0 + 0x1_0000 * w1 + 0x1_0000_0000 * w2
  }

  function From48(v: nat): (u16, u16, u16) {
    (v % 0x1_0000, v / 0x1_0000 % 0x1_0000, v / 0x1_0000_0000 % 0x1_0000)
  }

  function HeaderTimestamp(p: DataPacket): nat {
    To48(Word(p, 6), Word(p, 7), Word(p, 8))
  }

  function ParameterValues(p: DataPacket): seq<nat> {
    seq(PARAM_COUNT, (i: nat) requires i < PARAM_COUNT =>
      To48(Word(p, 9 + 3 * i), Word(p, 10 + 3 * i), Word(p, 11 + 3 * i)))
  }

  /** A C int: negative when the header claims to be longer than the buffer. */
  function DataLength(p: DataPacket): int {
    BufferLength(p) - HeaderLength(p)
  }

  /** int division truncates towards zero and the quotient is then converted to size_t. */
  function EventCount(p: DataPacket): nat {
    var d := DataLength(p);
    var quotient := if d >= 0 then d / 3 else -(-d / 3);
    if quotient >= 0 then quotient else quotient + TWO_TO_THE_64
  }

  /** The 48 bit event taken straight from the data array. */
  function RawEvent(p: DataPacket, i: nat): nat
    requires 3 * i + 2 < MAX_DATA_WORDS
  {
    To48(Data(p, 3 * i), Data(p, 3 * i + 1), Data(p, 3 * i + 2))
  }

  datatype Option<+T> = None | Some(value: T)

  /** get_event(): None stands for the out of range exception. */
  function GetEvent(p: DataPacket, i: nat): Option<nat>
    requires 3 * i + 2 < DataLength(p) ==> 3 * i + 2 < MAX_DATA_WORDS
  {
    if 3 * i + 2 >= DataLength(p) then None else Some(RawEvent(p, i))
  }

  /** A read never delivers more than the size of its destination. */
  type ByteCount = n: nat | n <= PACKET_BYTES

  datatype ReceivedPacket = ReceivedPacket(packet: DataPacket, bytes: ByteCount, srcAddr: u32, srcPort: u16)

  /** The part of the validity check that only looks at the packet. */
  predicate LengthFieldsOk(p: DataPacket) {
    HeaderLength(p) <= BufferLength(p) && DataLength(p) <= MAX_DATA_WORDS
  }

  /** The part that looks at the number of bytes received. */
  predicate ByteCountOk(rp: ReceivedPacket) {
    2 * HEADER_WORDS <= rp.bytes && 2 * BufferLength(rp.packet) <= rp.bytes
  }

  predicate IsValidDataPacket(rp: ReceivedPacket) {
    ByteCountOk(rp) && LengthFieldsOk(rp.packet)
  }

  /** What the consumers get to see. */
  type ValidPacket = rp: ReceivedPacket | IsValidDataPacket(rp)
    witness ReceivedPacket(Zeros(PACKET_BYTES), PACKET_BYTES, 0, 0)

  lemma EventInBounds(p: DataPacket, i: nat)
    requires LengthFieldsOk(p) && i < EventCount(p)
    ensures 3 * i + 2 < MAX_DATA_WORDS
  {
  }

  /** The event count of every packet, those with a negative data length included. */
  lemma EventCountOfAny(p: DataPacket)
    ensures
      var n, d := EventCount(p), DataLength(p);
      if d > -3 then (if d < 0 then n == 0 else 3 * n <= d < 3 * n + 3)
      else var below := 0x1_0000_0000_0000_0000 - n; 3 * below <= -d < 3 * below + 3
  {
  }

  /** For packets that pass the length checks every event lies inside the data
      array and get_event() delivers it; one index further it throws. */
  lemma ValidEventsInBounds(p: DataPacket)
    requires LengthFieldsOk(p)
    ensures EventCount(p) <= 238
    ensures forall i: nat | i < EventCount(p) ::
      3 * i + 2 < MAX_DATA_WORDS && GetEvent(p, i) == Some(RawEvent(p, i))
    ensures GetEvent(p, EventCount(p)) == None
  {
  }

  /** Splitting and joining 48 bit values are inverse to each other. */
  lemma SplitJoin48(w0: u16, w1: u16, w2: u16)
    ensures From48(To48(w0, w1, w2)) == (w0, w1, w2)
  {
    var v := To48(w0, w1, w2);
    assert v / 0x1_0000 == w1 + 0x1_0000 * w2;
    assert v / 0x1_0000_0000 == w2;
  }

  lemma JoinSplit48(v: nat)
    requires v < 0x1_0000_0000_0000
    ensures To48(From48(v).0, From48(v).1, From48(v).2) == v
  {
    assert v / 0x1_0000_0000 == v / 0x1_0000 / 0x1_0000;
  }

  /** The source joins words with shifts and ors. On 64 bit words that is the sum above. */
  lemma JoinIsSum(w0: bv64, w1: bv64, w2: bv64)
    requires w0 < 0x1_0000 && w1 < 0x1_0000 && w2 < 0x1_0000
    ensures (w0 << 0) | (w1 << 16) | (w2 << 32) == w0 + w1 * 0x1_0000 + w2 * 0x1_0000_0000
  {
  }

  // ---- the layout of a packet ----

  /** Words in the byte order of the structs. */
  function LittleEndian(words: seq<u16>): (b: seq<u8>)
    ensures |b| == 2 * |words|
  {
    if words == [] then []
    else
      var w: int := words[|words| - 1];
      LittleEndian(words[..|words| - 1]) + [w % 0x100, w / 0x100]
  }

  lemma {:induction false} WordsReadBack(words: seq<u16>, i: nat)
    requires i < |words|
    ensures Word(LittleEndian(words), i) == words[i]
  {
    var n := |words| - 1;
    if i < n {
      WordsReadBack(words[..n], i);
      assert LittleEndian(words)[..2 * n] == LittleEndian(words[..n]);
    }
  }

  /** The members of a packet are the words and bytes at their places in the struct: four words of
      the base, run id, status and device id in one word, three time words, four parameters of
      three words each, and the data words behind these 21. */
  lemma FieldsReadBack(base: seq<u16>, runId: u16, status: u8, id: u8, time: seq<u16>, params: seq<u16>, data: seq<u16>)
    requires |base| == 4 && |time| == 3 && |params| == 12 && |data| == 715
    ensures
      var s: int, d: int := status, id;
      var p := LittleEndian(base + [runId, s + 0x100 * d] + time + params + data);
      && |p| == 1472
      && BufferLength(p) == base[0] && BufferType(p) == base[1] && HeaderLength(p) == base[2]
      && BufferNumber(p) == base[3] && RunId(p) == runId && DeviceStatus(p) == status && DeviceId(p) == id
      && HeaderTimestamp(p) == time[0] as int + 0x1_0000 * time[1] as int + 0x1_0000_0000 * time[2] as int
      && |ParameterValues(p)| == 4
      && (forall i | 0 <= i < 4 :: ParameterValues(p)[i]
           == params[3 * i] as int + 0x1_0000 * params[3 * i + 1] as int + 0x1_0000_0000 * params[3 * i + 2] as int)
      && (forall i: nat | i < 715 :: Data(p, i) == data[i])
      && DataLength(p) == base[0] as int - base[2] as int
  {
    hide LittleEndian;
    var s: int, d: int := status, id;
    var words := base + [runId, s + 0x100 * d] + time + params + data;
    var p := LittleEndian(words);
    forall i: nat | i < 736
      ensures Word(p, i) == words[i]
    {
      WordsReadBack(words, i);
    }
    assert Word(p, 5) == s + 0x100 * d;
    assert p[10] as int + 0x100 * p[11] as int == s + 0x100 * d;
    forall i: nat | i < 715
      ensures Data(p, i) == data[i]
    {
      assert words[21 + i] == data[i];
    }
  }

  // ---- which datagrams are valid ----

  /** What a read makes of a datagram: its bytes with zeros behind them, and their number. */
  function ReceivedDatagram(d: seq<u8>, srcAddr: u32, srcPort: u16): ReceivedPacket
    requires |d| <= 1472
  {
    ReceivedPacket(d + Zeros(1472 - |d|), |d|, srcAddr, srcPort)
  }

  /** A datagram is valid exactly when it has the 42 bytes of a header, contains as many words as it
      claims, and these are at least the header it claims and at most 715 words more. */
  lemma DatagramIsValidIff(d: seq<u8>, srcAddr: u32, srcPort: u16)
    requires |d| <= 1472
    ensures IsValidDataPacket(ReceivedDatagram(d, srcAddr, srcPort))
       <==> |d| >= 42 && 2 * Word(d, 0) as int <= |d| && Word(d, 2) <= Word(d, 0) <= Word(d, 2) as int + 715
  {
    var p := d + Zeros(1472 - |d|);
    if |d| >= 42 {
      assert forall i | 0 <= i < 6 :: p[i] == d[i];
    }
  }

  /** A datagram as a module sends it: its own size in its bufferLength, 21 words of them header. */
  predicate IsWhole(d: seq<u8>) {
    |d| >= 42 && Word(d, 2) == 21 && 21 <= Word(d, 0) <= 736 && |d| == 2 * Word(d, 0) as int
  }

  /** Such a datagram is valid, and it is not if only a part of it arrives. */
  lemma WholeDatagramIsValidIff(d: seq<u8>, n: nat, srcAddr: u32, srcPort: u16)
    requires IsWhole(d) && n <= |d|
    ensures IsValidDataPacket(ReceivedDatagram(d[..n], srcAddr, srcPort)) <==> n == |d|
  {
    DatagramIsValidIff(d[..n], srcAddr, srcPort);
    if n >= 42 {
      assert Word(d[..n], 0) == Word(d, 0) && Word(d[..n], 2) == Word(d, 2);
    }
  }
}
