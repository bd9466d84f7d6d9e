/** mdat2mcpdlst: big endian packets of varying size, each followed by a separator, become
    little endian packets of fixed size. The reader always reads a whole DataPacket and then
    seeks back to where the separator should be. */
module Mdat {
  import opened Packets

  const MINIMUM_PACKET_BYTES: int := 42
  const SEPARATOR: seq<u8> := [0x00, 0x00, 0xff, 0xff, 0x55, 0x55, 0xaa, 0xaa]

  // ---- std::ifstream ----

  /** What read() finds: up to n bytes from pos on. */
  function Available(file: seq<u8>, pos: nat, n: nat): (bytes: seq<u8>)
    ensures |bytes| <= n && (pos <= |file| ==> |bytes| <= |file| - pos)
  {
    if pos >= |file| then [] else if pos + n <= |file| then file[pos..pos + n] else file[pos..]
  }

  class InFile {
    const contents: seq<u8>
    var pos: nat
    var eof: bool
    var fail: bool

    constructor (contents: seq<u8>, pos: nat)
      ensures this.contents == contents && this.pos == pos && Good()
    {
      this.contents, this.pos, this.eof, this.fail := contents, pos, false, false;
    }

    predicate Good()
      reads this
    {
      !eof && !fail
    }

    /** |bytes| is gcount(). A short read sets both bits; a stream that is not good reads nothing. */
    method Read(n: nat) returns (bytes: seq<u8>)
      modifies this
      ensures bytes == if old(Good()) then Available(contents, old(pos), n) else []
      ensures pos == old(pos) + |bytes|
      ensures fail == (old(fail) || old(eof) || |bytes| < n)
      ensures eof == (old(eof) || (old(Good()) && |bytes| < n))
    {
      bytes := [];
      if eof || fail {
        fail := true;
        return;
      }
      bytes := Available(contents, pos, n);
      pos := pos + |bytes|;
      if |bytes| < n {
        eof, fail := true, true;
      }
    }

    method Tell() returns (p: int)
      modifies this`fail
      ensures fail == (old(fail) || eof) && p == if fail then -1 else pos
    {
      if eof || fail {
        fail := true;
        return -1;
      }
      p := pos;
    }

    method Clear()
      modifies this`eof, this`fail
      ensures Good()
    {
      eof, fail := false, false;
    }

    /** seekg() to an offset from the given base; a negative target fails, one behind the end does not. */
    method Seek(base: nat, offset: int)
      modifies this
      ensures !eof && fail == (old(fail) || base + offset < 0)
      ensures pos == if fail then old(pos) else base + offset
    {
      eof := false;
      if !fail {
        if base + offset < 0 {
          fail := true;
        } else {
          pos := base + offset;
        }
      }
    }
  }

  // ---- one packet ----

  function BigEndian(b: seq<u8>, i: nat): u16
    requires 2 * i + 1 < |b|
  {
    var high: int, low: int := b[2 * i], b[2 * i + 1];
    0x100 * high + low
  }

  /** bufferLength - headerLength, as get_data_length sees it after the swap. */
  function FileDataLength(raw: seq<u8>): int
    requires |raw| >= 6
  {
    BigEndian(raw, 0) as int - BigEndian(raw, 2) as int
  }

  function Partner(j: nat): nat {
    if j % 2 == 0 then j + 1 else j - 1
  }

  /** Is the i-th byte from runId on reached by the swap loop? It works on whole words. */
  predicate Swapped(i: int, dataLen: int) { i < dataLen + dataLen % 2 }

  /** The fix-up of one byte. The zero loop does not run for a negative dataLen. */
  function ConvertedByte(raw: DataPacket, j: nat): u8
    requires j < PACKET_BYTES
  {
    var dataLen := FileDataLength(raw);
    if dataLen >= 0 && j >= 42 + 2 * dataLen then 0
    else if j < 8 || Swapped(j - 8, dataLen) then raw[Partner(j)]
    else raw[j]
  }

  function Converted(raw: DataPacket): DataPacket {
    seq(PACKET_BYTES, j requires 0 <= j < PACKET_BYTES => ConvertedByte(raw, j))
  }

  /** Swaps the two bytes of each of the first four words. */
  method SwapPacketBase(a: array<u8>)
    requires a.Length == PACKET_BYTES
    modifies a
    ensures forall j | 0 <= j < 8 :: a[j] == old(a[Partner(j)])
    ensures forall j | 8 <= j < PACKET_BYTES :: a[j] == old(a[j])
  {
    a[0], a[1] := a[1], a[0];
    a[2], a[3] := a[3], a[2];
    a[4], a[5] := a[5], a[4];
    a[6], a[7] := a[7], a[6];
  }

  /** The swap loop: i counts bytes, and so does its bound. */
  method SwapFromRunId(a: array<u8>, dataLen: int)
    requires a.Length == PACKET_BYTES && dataLen <= MAX_DATA_WORDS
    modifies a
    ensures forall j | 0 <= j < PACKET_BYTES ::
      a[j] == if j >= 8 && Swapped(j - 8, dataLen) then old(a[Partner(j)]) else old(a[j])
  {
    hide Partner;
    PartnersStayBehind();
    var i := 0;
    while i < dataLen
      invariant 0 <= i <= PACKET_BYTES - 10 && i % 2 == 0 && (i == 0 || i <= dataLen + dataLen % 2)
      invariant forall j | 0 <= j < 8 :: a[j] == old(a[j])
      invariant forall j | 8 <= j < 8 + i :: a[j] == old(a[Partner(j)])
      invariant forall j | 8 + i <= j < PACKET_BYTES :: a[j] == old(a[j])
    {
      PartnersOfPair(8 + i);
      a[8 + i], a[8 + i + 1] := a[8 + i + 1], a[8 + i];
      i := i + 2;
    }
  }

  /** The index is unsigned, so nothing is cleared when dataLen is negative. */
  method ZeroTail(a: array<u8>, dataLen: int)
    requires a.Length == PACKET_BYTES
    modifies a
    ensures forall j | 0 <= j < PACKET_BYTES ::
      a[j] == if dataLen >= 0 && j >= 42 + 2 * dataLen then 0 else old(a[j])
  {
    if dataLen < 0 {
      return;
    }
    var w := dataLen;
    while w < MAX_DATA_WORDS
      invariant dataLen <= w
      invariant forall j | 0 <= j < PACKET_BYTES :: a[j] == if 42 + 2 * dataLen <= j < 42 + 2 * w then 0 else old(a[j])
    {
      a[42 + 2 * w], a[42 + 2 * w + 1] := 0, 0;
      w := w + 1;
    }
  }

  /** The body of the loop between read and write, in place. */
  method ConvertInPlace(a: array<u8>)
    requires a.Length == PACKET_BYTES && FileDataLength(a[..]) <= MAX_DATA_WORDS
    modifies a
    ensures a[..] == Converted(old(a[..]))
  {
    hide Partner, Swapped;
    ghost var raw: DataPacket := a[..];
    SwapPacketBase(a);
    var bufferLength, headerLength := Word(a[..], 0) as int, Word(a[..], 2) as int;
    var dataLen := bufferLength - headerLength;
    assert dataLen == FileDataLength(raw) by { PartnersOfHeader(); }
    SwapFromRunId(a, dataLen);
    ZeroTail(a, dataLen);
    PartnersStayBehind();
    forall j: nat | j < PACKET_BYTES
      ensures a[j] == ConvertedByte(raw, j)
    {
    }
  }

  lemma PartnersOfPair(j: nat)
    requires j % 2 == 0
    ensures Partner(j) == j + 1 && Partner(j + 1) == j
  {
  }

  lemma PartnersOfHeader()
    ensures Partner(0) == 1 && Partner(1) == 0 && Partner(4) == 5 && Partner(5) == 4
  {
  }

  lemma PartnersStayBehind()
    ensures forall j: nat | j < 8 :: Partner(j) < 8
    ensures forall j: nat | 8 <= j < PACKET_BYTES :: 8 <= Partner(j) < PACKET_BYTES
  {
  }

  // ---- the read loop ----

  datatype Step =
    | Stop(records: seq<DataPacket>, retval: int)
    | OutOfBounds                               // dataLen > 715: reads behind the data array
    | Continue(record: DataPacket, next: nat)

  function Pad(bytes: seq<u8>): DataPacket
    requires |bytes| <= PACKET_BYTES
  {
    bytes + Zeros(PACKET_BYTES - |bytes|)
  }

  /** Where the separator is expected, for a packet that starts at pos. */
  function SeparatorAt(pos: nat, raw: seq<u8>): int
    requires |raw| >= 6
  {
    pos + MINIMUM_PACKET_BYTES + 2 * FileDataLength(raw)
  }

  /** One turn of the loop, without over-reading and seeking. */
  function StepAt(file: seq<u8>, pos: nat): Step {
    var bytes := Available(file, pos, PACKET_BYTES);
    if |bytes| < MINIMUM_PACKET_BYTES then Stop([], 0)
    else
      var raw := Pad(bytes);
      if FileDataLength(raw) > MAX_DATA_WORDS then OutOfBounds
      else
        var at := SeparatorAt(pos, raw);
        if at >= 0 && Available(file, at, 8) == SEPARATOR then Continue(Converted(raw), at + 8)
        else Stop([Converted(raw)], 1)
  }

  datatype End = Returned(retval: int) | Undefined | StillRunning

  datatype Run = Run(records: seq<DataPacket>, end: End)

  /** At most the given number of turns. */
  function Parse(file: seq<u8>, pos: nat, turns: nat): Run
    decreases turns
  {
    if turns == 0 then Run([], StillRunning)
    else match StepAt(file, pos)
         case Stop(records, retval) => Run(records, Returned(retval))
         case OutOfBounds => Run([], Undefined)
         case Continue(record, next) =>
           var rest := Parse(file, next, turns - 1);
           Run([record] + rest.records, rest.end)
  }

  /** Whether the read reached the end of the file or not, the stream ends up good and
      trailingBytes back, or failed when that is in front of the file. */
  method SeekBack(inFile: InFile, trailingBytes: int)
    requires inFile.Good() || (inFile.eof && inFile.fail && inFile.pos == |inFile.contents|)
    modifies inFile
    ensures !inFile.eof && inFile.fail == (old(inFile.pos) < trailingBytes)
    ensures inFile.Good() ==> inFile.pos == old(inFile.pos) - trailingBytes
  {
    var curPos := inFile.Tell();
    if curPos >= 0 {
      inFile.Seek(inFile.pos, -trailingBytes);
    } else {
      inFile.Clear();
      inFile.Seek(|inFile.contents|, -trailingBytes);
    }
  }

  lemma ShortReadEnds(file: seq<u8>, pos: nat, n: nat)
    ensures 0 < |Available(file, pos, n)| < n ==> pos + |Available(file, pos, n)| == |file|
  {
  }

  /** One turn as written: read too much, fix up, seek back, read the separator. */
  method Turn(inFile: InFile) returns (step: Step)
    requires inFile.Good()
    modifies inFile
    ensures step == StepAt(inFile.contents, old(inFile.pos))
    ensures step.Continue? ==> inFile.Good() && inFile.pos == step.next
  {
    hide Converted, Pad, Available, FileDataLength;
    ghost var start := inFile.pos;
    var bytes := inFile.Read(PACKET_BYTES);
    var bytesRead := |bytes|;
    if bytesRead < MINIMUM_PACKET_BYTES {
      return Stop([], 0);
    }
    ShortReadEnds(inFile.contents, start, PACKET_BYTES);
    var raw := Pad(bytes);
    var dataLen := FileDataLength(raw);
    if dataLen > MAX_DATA_WORDS {
      return OutOfBounds;
    }
    var dataPacket := new u8[PACKET_BYTES](i requires 0 <= i < PACKET_BYTES => raw[i]);
    assert dataPacket[..] == raw;
    ConvertInPlace(dataPacket);
    var record: DataPacket := dataPacket[..];
    var trailingBytes := bytesRead - (MINIMUM_PACKET_BYTES + 2 * dataLen);
    SeekBack(inFile, trailingBytes);
    var sep := inFile.Read(8);
    if |sep| < 8 {
      assert sep != SEPARATOR;
      return Stop([record], 1);
    }
    if sep != SEPARATOR {
      return Stop([record], 1);
    }
    return Continue(record, inFile.pos);
  }

  /** The whole loop, stopped by force after the given number of turns: it need not end. */
  method ConvertAll(inFile: InFile, turns: nat) returns (outFile: seq<DataPacket>, end: End)
    requires inFile.Good()
    modifies inFile
    ensures Run(outFile, end) == Parse(inFile.contents, old(inFile.pos), turns)
  {
    hide StepAt;
    outFile := [];
    var n := 0;
    while n < turns
      invariant n <= turns && inFile.Good()
      invariant var rest := Parse(inFile.contents, inFile.pos, turns - n);
                Parse(inFile.contents, old(inFile.pos), turns) == Run(outFile + rest.records, rest.end)
    {
      var step := Turn(inFile);
      match step {
        case Stop(records, retval) => return outFile + records, Returned(retval);
        case OutOfBounds => return outFile, Undefined;
        case Continue(record, next) =>
          assert forall rest: Run :: outFile + ([record] + rest.records) == outFile + [record] + rest.records;
          outFile := outFile + [record];
      }
      n := n + 1;
    }
    end := StillRunning;
  }

  // ---- parsing undoes framing ----

  /** A packet as qmesydaq writes it: all of its bufferLength words, 21 of them header. */
  predicate WellFormed(p: seq<u8>) {
    && |p| >= MINIMUM_PACKET_BYTES
    && BigEndian(p, 2) as int == HEADER_WORDS
    && BigEndian(p, 0) as int <= HEADER_WORDS + MAX_DATA_WORDS
    && |p| == 2 * BigEndian(p, 0) as int
  }

  type Packet = p: seq<u8> | WellFormed(p) witness Smallest()

  function Smallest(): seq<u8> {
    [0, 21, 0, 0, 0, 21] + Zeros(36)
  }

  function Framed(ps: seq<Packet>): seq<u8> {
    if ps == [] then [] else ps[0] + SEPARATOR + Framed(ps[1..])
  }

  function RecordOf(p: Packet): DataPacket {
    Converted(Pad(p))
  }

  function RecordsOf(ps: seq<Packet>): (rs: seq<DataPacket>)
    ensures |rs| == |ps| && forall i | 0 <= i < |ps| :: rs[i] == RecordOf(ps[i])
  {
    if ps == [] then [] else [RecordOf(ps[0])] + RecordsOf(ps[1..])
  }

  /** A record depends on nothing but its own packet, whatever else was read with it. */
  lemma RecordIsLocal(p: Packet, raw: DataPacket)
    requires |p| <= PACKET_BYTES && raw[..|p|] == p
    ensures FileDataLength(raw) == FileDataLength(p) && Converted(raw) == RecordOf(p)
  {
    hide Swapped;
    assert forall j | 0 <= j < |p| :: raw[j] == p[j];
    forall j: nat | j < PACKET_BYTES
      ensures ConvertedByte(raw, j) == ConvertedByte(Pad(p), j)
    {
      if j < |p| {
        assert Partner(j) < |p|;
      }
    }
  }

  lemma AvailableInside(file: seq<u8>, pos: nat, s: seq<u8>, n: nat)
    requires pos + |s| <= |file| && file[pos..pos + |s|] == s && |s| <= n
    ensures |Available(file, pos, n)| >= |s| && Available(file, pos, n)[..|s|] == s
  {
  }

  /** Wherever a packet and its separator stand, one turn takes exactly these bytes. */
  lemma StepTakesPacket(file: seq<u8>, pos: nat, p: Packet)
    requires pos + |p| + 8 <= |file| && file[pos..pos + |p|] == p && file[pos + |p|..pos + |p| + 8] == SEPARATOR
    ensures StepAt(file, pos) == Continue(RecordOf(p), pos + |p| + 8)
  {
    hide Converted, Zeros;
    var bytes := Available(file, pos, PACKET_BYTES);
    AvailableInside(file, pos, p, PACKET_BYTES);
    var raw := Pad(bytes);
    assert raw[..|p|] == bytes[..|p|];
    RecordIsLocal(p, raw);
  }

  /** After any packets the parser goes on with whatever follows them. */
  lemma {:induction false} ParseFramedThen(prefix: seq<u8>, ps: seq<Packet>, rest: seq<u8>, turns: nat)
    requires turns >= |ps|
    ensures var after := Parse(prefix + Framed(ps) + rest, |prefix + Framed(ps)|, turns - |ps|);
            Parse(prefix + Framed(ps) + rest, |prefix|, turns) == Run(RecordsOf(ps) + after.records, after.end)
    decreases |ps|
  {
    hide StepAt, RecordOf, WellFormed;
    var file := prefix + Framed(ps) + rest;
    if ps == [] {
      assert prefix + Framed(ps) == prefix;
    } else {
      var p, tail := ps[0], Framed(ps[1..]);
      var longer := prefix + p + SEPARATOR;
      assert prefix + Framed(ps) == longer + tail;
      assert file == prefix + p + (SEPARATOR + tail + rest) == longer + (tail + rest);
      assert file[|prefix|..|prefix| + |p|] == p;
      assert file[|prefix + p|..|longer|] == SEPARATOR;
      StepTakesPacket(file, |prefix|, p);
      ParseFramedThen(longer, ps[1..], rest, turns - 1);
      var after := Parse(file, |prefix + Framed(ps)|, turns - |ps|);
      assert [RecordOf(p)] + (RecordsOf(ps[1..]) + after.records) == RecordsOf(ps) + after.records;
    }
  }

  /** Any number of packets, each followed by the separator, give one record each, in order,
      and return value 0. */
  lemma FramedIsParsed(prefix: seq<u8>, ps: seq<Packet>, turns: nat)
    requires turns > |ps|
    ensures Parse(prefix + Framed(ps), |prefix|, turns) == Run(RecordsOf(ps), Returned(0))
  {
    hide RecordOf, WellFormed;
    ParseFramedThen(prefix, ps, [], turns);
    assert prefix + Framed(ps) + [] == prefix + Framed(ps);
  }

  /** A file cut inside a packet or its separator gives the complete packets. Less than a
      packet header goes unnoticed; anything else adds a record padded with zeros and returns 1. */
  lemma TruncatedIsParsed(prefix: seq<u8>, ps: seq<Packet>, p: Packet, cut: nat, turns: nat)
    requires turns > |ps| && cut < |p| + 8
    ensures var rest := (p + SEPARATOR)[..cut];
            Parse(prefix + Framed(ps) + rest, |prefix|, turns)
            == if cut < MINIMUM_PACKET_BYTES then Run(RecordsOf(ps), Returned(0))
               else Run(RecordsOf(ps) + [if cut < |p| then Converted(Pad(rest)) else RecordOf(p)], Returned(1))
  {
    hide RecordOf, Converted, Zeros;
    var rest := (p + SEPARATOR)[..cut];
    var before := prefix + Framed(ps);
    ParseFramedThen(prefix, ps, rest, turns);
    LastStep(before, p, cut);
  }

  lemma LastStep(before: seq<u8>, p: Packet, cut: nat)
    requires cut < |p| + 8
    ensures var rest := (p + SEPARATOR)[..cut];
            StepAt(before + rest, |before|)
            == if cut < MINIMUM_PACKET_BYTES then Stop([], 0)
               else Stop([if cut < |p| then Converted(Pad(rest)) else RecordOf(p)], 1)
  {
    hide RecordOf, Converted, Zeros;
    var rest := (p + SEPARATOR)[..cut];
    var file, pos := before + rest, |before|;
    assert file[pos..] == rest;
    var bytes := Available(file, pos, PACKET_BYTES);
    assert forall j | 0 <= j < |bytes| :: bytes[j] == file[pos..][j];
    assert cut <= PACKET_BYTES ==> bytes == rest;
    if cut >= MINIMUM_PACKET_BYTES {
      assert forall j | 0 <= j < 6 :: bytes[j] == p[j];
      if cut >= |p| {
        assert rest[..|p|] == p;
        assert Pad(bytes)[..|p|] == p;
        RecordIsLocal(p, Pad(bytes));
        RecordDefinition(p);
      }
      var at := pos + |p|;
      assert |Available(file, at, 8)| < 8;
    }
  }

  lemma RecordDefinition(p: Packet)
    ensures RecordOf(p) == Converted(Pad(p))
  {
  }

  /** Two packets with the same record are the same. */
  lemma ConversionIsLossless(p: Packet, q: Packet)
    requires RecordOf(p) == RecordOf(q)
    ensures p == q
  {
    hide Swapped;
    var r := RecordOf(p);
    forall j: nat | j < 8
      ensures p[j] == q[j]
    {
      assert r[Partner(j)] == p[j];
    }
    assert |p| == |q|;
    forall j: nat | 8 <= j < |p|
      ensures p[j] == q[j]
    {
      assert r[j] == ConvertedByte(Pad(p), j) == ConvertedByte(Pad(q), j);
      assert r[Partner(j)] == ConvertedByte(Pad(p), Partner(j)) == ConvertedByte(Pad(q), Partner(j));
      SamePair(j, FileDataLength(p));
    }
  }

  lemma SamePair(j: nat, dataLen: int)
    requires j >= 8
    ensures Swapped(j - 8, dataLen) == Swapped(Partner(j) - 8, dataLen) && Partner(Partner(j)) == j
  {
  }

  /** Which words end up little endian: the first four, and those from runId on that the swap
      loop reaches, which counts bytes where dataLen counts words. The last half of the packet
      keeps its byte order, and all behind it is zero; with a negative dataLen nothing is. */
  lemma WordIsSwappedIff(raw: DataPacket, w: nat)
    requires w < 736
    ensures Word(Converted(raw), w)
            == if FileDataLength(raw) >= 0 && w >= 21 + FileDataLength(raw) then 0
               else if w < 4 || 2 * (w - 4) < FileDataLength(raw) then BigEndian(raw, w) else Word(raw, w)
  {
    assert w >= 4 ==> (Swapped(2 * w - 8, FileDataLength(raw)) <==> 2 * (w - 4) < FileDataLength(raw));
    assert w >= 4 ==> (Swapped(2 * w + 1 - 8, FileDataLength(raw)) <==> 2 * (w - 4) < FileDataLength(raw));
  }

  // ---- what every file leads to ----

  /** The data length that the bytes at pos announce. */
  function AnnouncedAt(file: seq<u8>, pos: nat): int
    requires pos + 6 <= |file|
  {
    (0x100 * file[pos] as int + file[pos + 1] as int) - (0x100 * file[pos + 4] as int + file[pos + 5] as int)
  }

  /** The eight bytes of the separator stand at the given place, which may lie outside the file. */
  predicate SeparatorStandsAt(file: seq<u8>, at: int) {
    0 <= at && at + 8 <= |file| && file[at..at + 8] == [0x00, 0x00, 0xff, 0xff, 0x55, 0x55, 0xaa, 0xaa]
  }

  /** What a turn makes of the bytes from pos on, in terms of the file alone: the end without a
      record, undefined behaviour, a record and the next turn behind the separator, or a record
      and return value 1 when the separator is missing, cut off, different or in front of the file. */
  lemma TurnCases(file: seq<u8>, pos: nat, turns: nat)
    requires turns > 0 && pos <= |file|
    ensures |file| - pos < 42 ==> Parse(file, pos, turns) == Run([], Returned(0))
    ensures |file| - pos >= 42 ==>
      var dataLen := AnnouncedAt(file, pos);
      var at := pos + 42 + 2 * dataLen;
      var run := Parse(file, pos, turns);
      if dataLen > 715 then run == Run([], Undefined)
      else
        && run.records != []
        && run.records[0] == Converted(Pad(if pos + 1472 <= |file| then file[pos..pos + 1472] else file[pos..]))
        && if SeparatorStandsAt(file, at)
           then var rest := Parse(file, at + 8, turns - 1); run == Run([run.records[0]] + rest.records, rest.end)
           else run == Run([run.records[0]], Returned(1))
  {
    hide Converted, Zeros;
    var bytes := Available(file, pos, PACKET_BYTES);
    if |file| - pos >= 42 {
      var raw := Pad(bytes);
      assert forall j | 0 <= j < 6 :: raw[j] == file[pos + j];
      var at := SeparatorAt(pos, raw);
      assert at >= 0 ==> (Available(file, at, 8) == SEPARATOR <==> SeparatorStandsAt(file, at));
    }
  }

  /** A packet with other bytes where its separator should be is the last one that is recorded,
      whatever follows, and makes the return value 1. */
  lemma ForeignSeparator(
    prefix: seq<u8>, ps: seq<Packet>, p: Packet, other: seq<u8>, rest: seq<u8>, turns: nat)
    requires turns > |ps| && |other| == 8 && other != [0x00, 0x00, 0xff, 0xff, 0x55, 0x55, 0xaa, 0xaa]
    ensures Parse(prefix + Framed(ps) + p + other + rest, |prefix|, turns)
            == Run(RecordsOf(ps) + [RecordOf(p)], Returned(1))
  {
    hide Converted, Zeros, RecordOf, Parse;
    var before, after := prefix + Framed(ps), p + other + rest;
    var file, pos := before + after, |before|;
    assert file == prefix + Framed(ps) + p + other + rest == prefix + Framed(ps) + after;
    ParseFramedThen(prefix, ps, after, turns);
    assert file[pos..pos + |p|] == p && file[pos + |p|..pos + |p| + 8] == other;
    assert forall j | 0 <= j < 6 :: file[pos + j] == p[j];
    assert pos + 42 + 2 * AnnouncedAt(file, pos) == pos + |p|;
    TurnCases(file, pos, turns - |ps|);
    var raw := Pad(if pos + 1472 <= |file| then file[pos..pos + 1472] else file[pos..]);
    assert raw[..|p|] == p;
    RecordIsLocal(p, raw);
  }

  // ---- does the loop end? ----

  lemma TurnLength(file: seq<u8>, pos: nat)
    requires StepAt(file, pos).Continue?
    ensures var bytes := Available(file, pos, PACKET_BYTES);
            && |bytes| >= MINIMUM_PACKET_BYTES
            && StepAt(file, pos).next == pos + 50 + 2 * (BigEndian(bytes, 0) as int - BigEndian(bytes, 2) as int)
  {
    hide Converted, Zeros;
  }

  /** A turn that continues moves forward exactly when headerLength < bufferLength + 25. */
  lemma AdvancesIff(file: seq<u8>, pos: nat)
    requires StepAt(file, pos).Continue?
    ensures var bytes := Available(file, pos, PACKET_BYTES);
            && |bytes| >= MINIMUM_PACKET_BYTES
            && (StepAt(file, pos).next > pos <==> BigEndian(bytes, 2) as int < BigEndian(bytes, 0) as int + 25)
            && StepAt(file, pos).next <= |file|
  {
    hide Converted, Zeros;
  }

  /** Where the n-th turn starts, if there is one. */
  function PosAt(file: seq<u8>, pos: nat, n: nat): Option<nat>
    decreases n
  {
    if n == 0 then Some(pos)
    else match StepAt(file, pos)
         case Continue(_, next) => PosAt(file, next, n - 1)
         case _ => None
  }

  lemma {:induction false} RunningIffTurn(file: seq<u8>, pos: nat, n: nat)
    ensures Parse(file, pos, n).end.StillRunning? <==> PosAt(file, pos, n).Some?
    decreases n
  {
    hide StepAt;
    if n > 0 && StepAt(file, pos).Continue? {
      RunningIffTurn(file, StepAt(file, pos).next, n - 1);
    }
  }

  lemma {:induction false} TurnsAdd(file: seq<u8>, pos: nat, m: nat, n: nat)
    ensures PosAt(file, pos, m + n)
            == match PosAt(file, pos, m) case Some(p) => PosAt(file, p, n) case None => None
    decreases m
  {
    hide StepAt;
    if m > 0 && StepAt(file, pos).Continue? {
      TurnsAdd(file, StepAt(file, pos).next, m - 1, n);
    }
  }

  lemma EarlierTurns(file: seq<u8>, pos: nat, m: nat, n: nat)
    requires m <= n && PosAt(file, pos, n).Some?
    ensures PosAt(file, pos, m).Some?
  {
    hide PosAt;
    TurnsAdd(file, pos, m, n - m);
  }

  lemma TurnStartsInFile(file: seq<u8>, pos: nat, n: nat)
    requires n > 0 && PosAt(file, pos, n).Some?
    ensures PosAt(file, pos, n).value <= |file|
  {
    hide StepAt;
    EarlierTurns(file, pos, n - 1, n);
    TurnsAdd(file, pos, n - 1, 1);
    var p := PosAt(file, pos, n - 1).value;
    assert PosAt(file, p, 1).Some?;
    AdvancesIff(file, p);
    assert PosAt(file, StepAt(file, p).next, 0) == Some(StepAt(file, p).next);
  }

  /** Two turns start at the same place. */
  ghost predicate ComesBack(file: seq<u8>, pos: nat, m: nat, n: nat) {
    m < n && PosAt(file, pos, m).Some? && PosAt(file, pos, m) == PosAt(file, pos, n)
  }

  lemma {:induction false} CycleGoesOn(file: seq<u8>, p: nat, period: nat, n: nat)
    requires period > 0 && PosAt(file, p, period) == Some(p)
    ensures PosAt(file, p, n).Some?
    decreases n
  {
    hide PosAt;
    if n < period {
      EarlierTurns(file, p, n, period);
    } else {
      CycleGoesOn(file, p, period, n - period);
      TurnsAdd(file, p, period, n - period);
    }
  }

  lemma ComesBackForever(file: seq<u8>, pos: nat, m: nat, k: nat, n: nat)
    requires ComesBack(file, pos, m, k)
    ensures PosAt(file, pos, n).Some?
  {
    hide PosAt;
    var p := PosAt(file, pos, m).value;
    TurnsAdd(file, pos, m, k - m);
    CycleGoesOn(file, p, k - m, n);
    TurnsAdd(file, pos, m, n);
    EarlierTurns(file, pos, n, m + n);
  }

  /** More numbers than there are values: two of them are the same. */
  lemma {:induction false} Pigeonhole(s: seq<nat>, n: nat) returns (i: nat, j: nat)
    requires 0 < n < |s| && forall k | 0 <= k < |s| :: s[k] < n
    ensures i < j < |s| && s[i] == s[j]
    decreases n
  {
    if n == 1 {
      i, j := 0, 1;
    } else if k :| 0 <= k < |s| && s[k] == n - 1 {
      if l :| 0 <= l < |s| && l != k && s[l] == n - 1 {
        i, j := if k < l then k else l, if k < l then l else k;
      } else {
        i, j := Pigeonhole(s[..k] + s[k + 1..], n - 1);
        i, j := if i < k then i else i + 1, if j < k then j else j + 1;
      }
    } else {
      i, j := Pigeonhole(s, n - 1);
    }
  }

  lemma LongRunComesBack(file: seq<u8>, pos: nat) returns (m: nat, n: nat)
    requires PosAt(file, pos, |file| + 2).Some?
    ensures ComesBack(file, pos, m, n) && n <= |file| + 2
  {
    hide PosAt;
    forall n: nat | n <= |file| + 2
      ensures PosAt(file, pos, n).Some? && (n > 0 ==> PosAt(file, pos, n).value <= |file|)
    {
      EarlierTurns(file, pos, n, |file| + 2);
      if n > 0 {
        TurnStartsInFile(file, pos, n);
      }
    }
    var s := seq(|file| + 2, i requires 0 <= i < |file| + 2 => PosAt(file, pos, i + 1).value);
    m, n := Pigeonhole(s, |file| + 1);
    m, n := m + 1, n + 1;
  }

  /** Exactly when the loop ends: it does unless some turn starts where an earlier one did. As
      many turns as the file has bytes, and two, decide that. */
  lemma EndsIff(file: seq<u8>, pos: nat)
    ensures (exists turns: nat :: !Parse(file, pos, turns).end.StillRunning?)
            <==> !Parse(file, pos, |file| + 2).end.StillRunning?
    ensures (exists turns: nat :: !Parse(file, pos, turns).end.StillRunning?)
            <==> !exists m: nat, n: nat :: ComesBack(file, pos, m, n)
  {
    hide Parse, PosAt;
    RunningIffTurn(file, pos, |file| + 2);
    if m: nat, k: nat :| ComesBack(file, pos, m, k) {
      forall turns: nat
        ensures Parse(file, pos, turns).end.StillRunning?
      {
        ComesBackForever(file, pos, m, k, turns);
        RunningIffTurn(file, pos, turns);
      }
    } else {
      if PosAt(file, pos, |file| + 2).Some? {
        var m, n := LongRunComesBack(file, pos);
      }
    }
  }

  /** What sends the loop back to the start of its m-th turn: a header whose headerLength exceeds
      bufferLength + 25 by half the bytes since then, with 0 bytes for the turn itself. */
  lemma ComesBackIff(file: seq<u8>, pos: nat, m: nat, n: nat)
    requires m <= n && PosAt(file, pos, n + 1).Some?
    ensures PosAt(file, pos, m).Some? && PosAt(file, pos, n).Some?
    ensures
      var p := PosAt(file, pos, n).value;
      var bytes := Available(file, p, PACKET_BYTES);
      && |bytes| >= MINIMUM_PACKET_BYTES
      && (ComesBack(file, pos, m, n + 1) <==>
          2 * (BigEndian(bytes, 2) as int - BigEndian(bytes, 0) as int - 25) == p - PosAt(file, pos, m).value)
  {
    EarlierTurns(file, pos, m, n + 1);
    EarlierTurns(file, pos, n, n + 1);
    TurnsAdd(file, pos, n, 1);
    var p := PosAt(file, pos, n).value;
    assert PosAt(file, p, 1).Some?;
    TurnLength(file, p);
    assert PosAt(file, StepAt(file, p).next, 0) == Some(StepAt(file, p).next);
  }

  /** Every turn of the run that goes on starts the next one further back in the file. */
  ghost predicate AlwaysAdvances(file: seq<u8>, pos: nat) {
    forall n: nat :: PosAt(file, pos, n).Some? && PosAt(file, pos, n + 1).Some? ==>
      PosAt(file, pos, n).value < PosAt(file, pos, n + 1).value
  }

  lemma {:induction false} AdvancedBy(file: seq<u8>, pos: nat, n: nat)
    requires AlwaysAdvances(file, pos) && PosAt(file, pos, n).Some?
    ensures PosAt(file, pos, n).value >= pos + n
  {
    if n > 0 {
      EarlierTurns(file, pos, n - 1, n);
      AdvancedBy(file, pos, n - 1);
      assert PosAt(file, pos, n - 1 + 1).Some?;
    }
  }

  /** A run whose turns all move forward ends after at most one turn per byte, and one more. */
  lemma EndsWhenAdvancing(file: seq<u8>, pos: nat, turns: nat)
    requires AlwaysAdvances(file, pos) && turns > |file| - pos && turns > 0
    ensures !Parse(file, pos, turns).end.StillRunning?
  {
    hide Parse, PosAt;
    RunningIffTurn(file, pos, turns);
    if PosAt(file, pos, turns).Some? {
      AdvancedBy(file, pos, turns);
      TurnStartsInFile(file, pos, turns);
      assert false;
    }
  }

  /** Strict progress is not given: right after a separator, a header whose headerLength is
      bufferLength + 25 sends the loop back to its own start, to write the same record forever. */
  lemma {:induction false} StuckForever(file: seq<u8>, pos: nat, turns: nat)
    requires 8 <= pos && pos + MINIMUM_PACKET_BYTES <= |file| && file[pos - 8..pos] == SEPARATOR
    requires BigEndian(file[pos..], 2) as int == BigEndian(file[pos..], 0) as int + 25
    ensures Parse(file, pos, turns).end.StillRunning? && |Parse(file, pos, turns).records| == turns
    decreases turns
  {
    hide Converted, Zeros;
    if turns > 0 {
      var bytes := Available(file, pos, PACKET_BYTES);
      assert forall j | 0 <= j < 6 :: bytes[j] == file[pos..][j];
      assert Available(file, pos - 8, 8) == SEPARATOR;
      StuckForever(file, pos, turns - 1);
    }
  }

  /** Behind anything, the header of an mdat file say, and a sound packet there may be bytes that
      keep the converter running. */
  lemma StuckFile(prefix: seq<u8>) returns (rest: seq<u8>)
    ensures forall turns: nat :: Parse(prefix + Framed([Smallest()]) + rest, |prefix|, turns).end.StillRunning?
  {
    hide Parse;
    rest := [0, 0, 0, 2, 0, 25] + Zeros(36);
    var p: Packet := Smallest();
    assert Framed([p][1..]) == [];
    assert Framed([p]) == p + SEPARATOR;
    var file, at := prefix + Framed([p]) + rest, |prefix| + |p|;
    assert file == prefix + p + SEPARATOR + rest;
    assert file[|prefix|..at] == p && file[at..at + 8] == SEPARATOR && file[at + 8..] == rest;
    assert BigEndian(rest, 2) == 25 && BigEndian(rest, 0) == 0;
    StepTakesPacket(file, |prefix|, p);
    forall turns: nat
      ensures Parse(file, |prefix|, turns).end.StillRunning?
    {
      if turns == 0 {
        NoTurns(file, |prefix|);
      } else {
        StuckForever(file, at + 8, turns - 1);
        OneTurn(file, |prefix|, turns);
      }
    }
  }

  lemma NoTurns(file: seq<u8>, pos: nat)
    ensures Parse(file, pos, 0).end.StillRunning?
  {
  }

  lemma OneTurn(file: seq<u8>, pos: nat, turns: nat)
    requires turns > 0 && StepAt(file, pos).Continue?
    ensures Parse(file, pos, turns).end == Parse(file, StepAt(file, pos).next, turns - 1).end
  {
    hide StepAt;
  }
}
