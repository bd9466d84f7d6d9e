/** Command packets: filling one in, its checksum, and its form as a sequence of words. */
module Commands {
  import opened Packets
  import opened Checksums

  const PACKET_WORDS: nat := 736
  const MAX_COMMAND_DATA: nat := 726
  const COMMAND_HEADER_WORDS: u16 := 10
  const BUFFER_TERMINATOR: u16 := 0xFFFF
  const CHECKSUM_AT: nat := 9

  function ZeroWords(n: nat): (z: seq<u16>)
    ensures |z| == n && forall i :: 0 <= i < n ==> z[i] == 0
  {
    seq(n, _ => 0)
  }

  /** sizeof(CommandPacket) / 2 words; deviceStatus and deviceId share the sixth. */
  type CommandPacket = p: seq<u16> | |p| == PACKET_WORDS witness ZeroWords(PACKET_WORDS)

  datatype Error = NoBufferSpace

  // ---- the packet that a request stands for ----

  function Header(cmd: u16, id: u8, length: u16, checksum: u16): (h: seq<u16>)
    ensures |h| == 10
  {
    var c: int, i: int := cmd, id;
    [length, COMMAND_BUFFER_TYPE, COMMAND_HEADER_WORDS, 0, c % 0x100, 0x100 * i, 0, 0, 0, checksum]
  }

  function Image(cmd: u16, id: u8, data: seq<u16>, checksum: u16): CommandPacket
    requires |data| < MAX_COMMAND_DATA
  {
    Header(cmd, id, |data| + 11, checksum) + data + [BUFFER_TERMINATOR] + ZeroWords(725 - |data|)
  }

  /** The packet with the header checksum that its other words demand. */
  function Prepared(cmd: u16, id: u8, data: seq<u16>): CommandPacket
    requires |data| < MAX_COMMAND_DATA
  {
    Image(cmd, id, data, XorAll(Image(cmd, id, data, 0)))
  }

  function BufferLengthOf(p: CommandPacket): u16 { p[0] }

  /** calculate_checksum: reads bufferLength words, which the packet must have. */
  method CalculateChecksum(p: array<u16>) returns (result: u16)
    requires p.Length == PACKET_WORDS && p[0] as int <= PACKET_WORDS
    ensures result == XorAll(p[..p[0]])
  {
    hide Xor16;
    result := 0;
    var i := 0;
    while i < p[0] as int
      invariant 0 <= i <= p[0] as int
      invariant result == XorAll(p[..i])
    {
      assert p[..i + 1][..i] == p[..i];
      result := Xor16(result, p[i]);
      i := i + 1;
    }
  }

  /** prepare_command_packet fills dest step by step, or leaves it alone when the data and
      the terminator do not fit. */
  method PrepareCommandPacket(dest: array<u16>, cmd: u16, id: u8, data: seq<u16>) returns (error: Option<Error>)
    requires dest.Length == PACKET_WORDS && |data| < 0x1_0000
    modifies dest
    ensures error.Some? <==> |data| + 1 > 726
    ensures error.Some? ==> dest[..] == old(dest[..])
    ensures error.None? ==> dest[..] == Prepared(cmd, id, data)
  {
    hide Xor16, XorAll;
    if |data| + 1 > MAX_COMMAND_DATA {
      return Some(NoBufferSpace);
    }
    forall i | 0 <= i < PACKET_WORDS {
      dest[i] := 0;
    }
    var c: int, d: int := cmd, id;
    dest[1] := COMMAND_BUFFER_TYPE;
    dest[2] := COMMAND_HEADER_WORDS;
    dest[4] := c % 0x100;
    dest[5] := 0x100 * d;
    forall i | 0 <= i < |data| {
      dest[10 + i] := data[i];
    }
    dest[10 + |data|] := BUFFER_TERMINATOR;
    dest[0] := COMMAND_HEADER_WORDS + |data| + 1;
    assert dest[..] == Image(cmd, id, data, 0);
    var checksum := CalculateChecksum(dest);
    dest[CHECKSUM_AT] := checksum;
    PrefixSum(Image(cmd, id, data, 0), |data| + 11);
    assert dest[..] == Image(cmd, id, data, checksum);
    return None;
  }

  /** The words after the first n count for nothing when they are zero. */
  lemma PrefixSum(p: CommandPacket, n: nat)
    requires n <= PACKET_WORDS && forall i | n <= i < PACKET_WORDS :: p[i] == 0
    ensures XorAll(p[..n]) == XorAll(p)
  {
    hide Xor16, XorAll;
    assert p == p[..n] + p[n..];
    XorAllConcat(p[..n], p[n..]);
    XorAllZeros(p[n..]);
    Xor16Laws(XorAll(p[..n]), 0, 0);
  }

  // ---- what the checksum is good for ----

  predicate ChecksumOk(p: CommandPacket) {
    BufferLengthOf(p) as int <= PACKET_WORDS && XorAll(p[..p[0]]) == 0
  }

  /** Every prepared packet sums to zero over its bufferLength words. */
  lemma PreparedSumsToZero(cmd: u16, id: u8, data: seq<u16>)
    requires |data| < MAX_COMMAND_DATA
    ensures ChecksumOk(Prepared(cmd, id, data))
  {
    hide Xor16, XorAll;
    var q := Image(cmd, id, data, 0);
    var sum := XorAll(q);
    var p := Prepared(cmd, id, data);
    assert p == q[CHECKSUM_AT := sum];
    XorAllReplace(q, CHECKSUM_AT, sum);
    Xor16Laws(sum, 0, 0);
    PrefixSum(p, |data| + 11);
  }

  /** Changing any single word but bufferLength among those sent is always noticed. */
  lemma OneWordChangeIsNoticed(p: CommandPacket, i: nat, v: u16)
    requires ChecksumOk(p) && 0 < i < p[0] as int
    ensures ChecksumOk(p[i := v]) <==> v == p[i]
  {
    hide Xor16, XorAll;
    var s := p[..p[0]];
    assert p[i := v][..p[0]] == s[i := v];
    XorAllReplace(s, i, v);
    Xor16Laws(Xor16(s[i], v), 0, 0);
    Xor16Differ(s[i], v);
  }

  /** A change of bufferLength itself is missed in exactly three cases: there is none, the
      length becomes 0, or the words cut off sum to the exclusive or of the two lengths. */
  lemma LengthChangeMissedIff(p: CommandPacket, length: u16)
    requires ChecksumOk(p) && 0 < p[0] && forall i | p[0] as int <= i < PACKET_WORDS :: p[i] == 0
    requires length as int <= PACKET_WORDS
    ensures ChecksumOk(p[0 := length]) <==>
            length == p[0] || length == 0 || (length < p[0] && XorAll(p[length..p[0]]) == Xor16(p[0], length))
  {
    hide Xor16, XorAll;
    var was: u16 := p[0];
    if length == 0 {
      assert XorAll([]) == 0 by { XorAllZeros([]); }
      assert p[0 := length][..0] == [];
    } else {
      var all, kept := p[..was], p[..length];
      assert p[0 := length][..length] == kept[0 := length];
      XorAllReplace(kept, 0, length);
      if length <= was {
        var cut := p[length..was];
        assert all == kept + cut;
        XorAllConcat(kept, cut);
        Xor16Differ(XorAll(kept), XorAll(cut));
        Xor16Differ(XorAll(kept), Xor16(was, length));
        if length == was {
          Xor16Differ(was, length);
        }
      } else {
        var extra := p[was..length];
        assert kept == all + extra;
        XorAllConcat(all, extra);
        XorAllZeros(extra);
        Xor16Laws(0, 0, 0);
        Xor16Laws(Xor16(was, length), 0, 0);
        Xor16Differ(was, length);
      }
    }
  }

  /** Every word of a prepared packet but the checksum, which the others determine. */
  lemma PreparedWords(cmd: u16, id: u8, data: seq<u16>)
    requires |data| <= 725
    ensures
      var p := Prepared(cmd, id, data);
      var c: int, i: int := cmd, id;
      && |p| == 736
      && p[..9] == [|data| + 11, 0x8000, 10, 0, c % 256, 256 * i, 0, 0, 0]
      && p[10..10 + |data|] == data && p[10 + |data|] == 0xFFFF
      && forall j | 11 + |data| <= j < 736 :: p[j] == 0
  {
    hide XorAll;
    var p := Prepared(cmd, id, data);
    assert forall j | 0 <= j < 9 :: p[j] == Header(cmd, id, |data| + 11, 0)[j];
    assert p[10..10 + |data|] == data;
  }

  // ---- payload ----

  /** Whoever gets a prepared packet can tell the command byte, the id and the whole payload. */
  lemma PreparedDetermines(cmd: u16, id: u8, data: seq<u16>)
    requires |data| < MAX_COMMAND_DATA
    ensures var p := Prepared(cmd, id, data);
            && p[1] == COMMAND_BUFFER_TYPE && p[4] as int == (cmd as int) % 0x100 && (p[5] as int) / 0x100 == id as int
            && p[2] == COMMAND_HEADER_WORDS && p[0] as int == p[2] as int + |data| + 1
            && p[p[2]..p[0] as int - 1] == data && p[p[0] as int - 1] == BUFFER_TERMINATOR
  {
    hide Xor16, XorAll;
    var p := Prepared(cmd, id, data);
    assert p[10..10 + |data|] == data;
    assert p[10 + |data|] == BUFFER_TERMINATOR;
  }

  /** make_command_packet from a vector: the size is cut to 16 bits and an error is dropped,
      which leaves the all-zero packet. */
  method MakeCommandPacket(cmd: u16, id: u8, data: seq<u16>) returns (p: CommandPacket)
    ensures p == Made(cmd, id, data)
  {
    hide XorAll;
    var result := new u16[PACKET_WORDS](_ => 0);
    var size := |data| % 0x1_0000;
    var ignored := PrepareCommandPacket(result, cmd, id, data[..size]);
    assert ignored.Some? ==> result[..] == ZeroWords(PACKET_WORDS);
    p := result[..];
  }

  function Made(cmd: u16, id: u8, data: seq<u16>): CommandPacket {
    var size := |data| % 0x1_0000;
    if size < MAX_COMMAND_DATA then Prepared(cmd, id, data[..size]) else ZeroWords(PACKET_WORDS)
  }

  function Payload(p: CommandPacket): seq<u16> {
    if COMMAND_HEADER_WORDS < p[0] && p[0] as int <= PACKET_WORDS then p[COMMAND_HEADER_WORDS..p[0] as int - 1] else []
  }

  /** The vector overload carries the payload whole exactly when it has at most 725 words;
      a longer one is lost, or silently cut when its size wraps around. */
  lemma PayloadIsWholeIff(cmd: u16, id: u8, data: seq<u16>)
    ensures Payload(Made(cmd, id, data)) == data <==> |data| <= 725
    ensures |data| % 0x1_0000 > 725 ==> forall j | 0 <= j < 736 :: Made(cmd, id, data)[j] == 0
    ensures |data| >= 0x1_0000 && |data| % 0x1_0000 < MAX_COMMAND_DATA ==>
              ChecksumOk(Made(cmd, id, data)) && Payload(Made(cmd, id, data)) == data[..|data| % 0x1_0000]
  {
    hide XorAll, Prepared, ChecksumOk;
    var size := |data| % 0x1_0000;
    if size < MAX_COMMAND_DATA {
      PreparedDetermines(cmd, id, data[..size]);
      PreparedSumsToZero(cmd, id, data[..size]);
      assert |data[..size]| == size;
      if |data| < MAX_COMMAND_DATA {
        assert data[..size] == data;
      }
    }
  }

  // ---- words and back ----

  function Min(a: int, b: int): int { if a < b then a else b }

  function FromData(view: seq<u16>): CommandPacket {
    view[..Min(|view|, PACKET_WORDS)] + ZeroWords(PACKET_WORDS - Min(|view|, PACKET_WORDS))
  }

  function ToData(p: CommandPacket): (d: seq<u16>)
    ensures |d| == p[0] as int
  {
    var n := Min(p[0] as int, PACKET_WORDS);
    p[..n] + ZeroWords(p[0] as int - n)
  }

  method CommandPacketFromData(view: seq<u16>) returns (p: CommandPacket)
    ensures p == FromData(view) && forall i | 0 <= i < 736 :: p[i] == if i < |view| then view[i] else 0
  {
    var ret := new u16[PACKET_WORDS](_ => 0);
    forall i | 0 <= i < Min(|view|, PACKET_WORDS) {
      ret[i] := view[i];
    }
    p := ret[..];
    assert p == FromData(view);
  }

  method PacketToData(p: CommandPacket) returns (d: seq<u16>)
    ensures d == ToData(p) && |d| == p[0] as int && forall i | 0 <= i < |d| :: d[i] == if i < 736 then p[i] else 0
  {
    var ret := new u16[p[0]](_ => 0);
    forall i | 0 <= i < Min(p[0] as int, PACKET_WORDS) {
      ret[i] := p[i];
    }
    d := ret[..];
    assert d == ToData(p);
  }

  /** Packet to words and back gives the packet exactly when nothing follows its bufferLength words. */
  lemma PacketRoundTripIff(p: CommandPacket)
    ensures FromData(ToData(p)) == p <==> forall i | p[0] as int <= i < PACKET_WORDS :: p[i] == 0
  {
    var n := Min(p[0] as int, PACKET_WORDS);
    var q := FromData(ToData(p));
    assert forall i | 0 <= i < n :: q[i] == p[i];
    assert forall i | n <= i < PACKET_WORDS :: q[i] == 0;
  }

  /** Words to packet and back gives the words exactly when there are none, or the first one
      is their number and none but zeros lie beyond the packet. */
  lemma DataRoundTripIff(d: seq<u16>)
    ensures ToData(FromData(d)) == d <==>
            d == [] || (d[0] as int == |d| && forall i | PACKET_WORDS <= i < |d| :: d[i] == 0)
  {
    if d != [] {
      var p := FromData(d);
      var e := ToData(p);
      assert p[0] == d[0];
      if |e| == |d| {
        assert forall i | 0 <= i < Min(|d|, PACKET_WORDS) :: e[i] == d[i];
        assert forall i | PACKET_WORDS <= i < |d| :: e[i] == 0;
      }
    } else {
      assert FromData(d)[0] == 0;
    }
  }

  /** A prepared packet survives the way to words and back. */
  lemma PreparedRoundTrip(cmd: u16, id: u8, data: seq<u16>)
    requires |data| < MAX_COMMAND_DATA
    ensures FromData(ToData(Prepared(cmd, id, data))) == Prepared(cmd, id, data)
  {
    hide XorAll;
    PacketRoundTripIff(Prepared(cmd, id, data));
  }
}
