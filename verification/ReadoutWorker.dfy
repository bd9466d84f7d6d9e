/** The packet loop of the readout thread, for every behaviour of its surroundings:
    the quit flag, the packet source, the listfile and the consumers. */
module ReadoutWorker {
  import opened Folds
  import opened Packets
  import opened Replay

  datatype ReadResult = Packet(rp: ReceivedPacket) | Timeout | EndOfData | ReadError

  /** What one pass of the loop meets. failing is the index of the first consumer that
      throws for this packet. A write can fail only if there is a listfile; the stream is
      buffered, so what is then left of the file may end anywhere before the end of the record. */
  datatype Pass = Pass(quit: bool, result: ReadResult, writeFails: Option<nat>, failing: Option<nat>)

  datatype Counters = Counters(packets: nat, bytes: nat, timeouts: nat, invalidPackets: nat, listfileBytes: nat)

  const NO_COUNTS: Counters := Counters(0, 0, 0, 0, 0)

  ghost function BytesOf(rp: ReceivedPacket): nat { rp.bytes }

  /** The packets and the timeouts among the passes. */
  ghost function PacketsIn(passes: seq<Pass>): seq<ReceivedPacket> {
    if passes == [] then []
    else
      var before, last := PacketsIn(passes[..|passes| - 1]), passes[|passes| - 1].result;
      if last.Packet? then before + [last.rp] else before
  }

  ghost function TimeoutsIn(passes: seq<Pass>): nat {
    if passes == [] then 0
    else TimeoutsIn(passes[..|passes| - 1]) + if passes[|passes| - 1].result.Timeout? then 1 else 0
  }

  /** A pass after which the loop goes on: read a packet and nothing threw, or timed out. */
  ghost predicate GoesOn(pass: Pass, hasListfile: bool, consumers: nat) {
    && !pass.quit
    && (pass.result.Timeout? || pass.result.Packet?)
    && (pass.result.Packet? ==>
      && !(hasListfile && pass.writeFails.Some?)
      && (ValidLive(pass.result.rp) && pass.failing.Some? ==> pass.failing.value >= consumers))
  }

  /** The pass ends the loop with an exception. */
  ghost predicate Throws(pass: Pass, hasListfile: bool, consumers: nat) {
    !pass.quit && !pass.result.EndOfData? && !GoesOn(pass, hasListfile, consumers)
  }

  /** The passes before the one that ends the loop. */
  ghost function Undisturbed(passes: seq<Pass>, hasListfile: bool, consumers: nat): (done: seq<Pass>)
    ensures |done| <= |passes| && done == passes[..|done|]
    ensures forall pass | pass in done :: GoesOn(pass, hasListfile, consumers)
    ensures |done| < |passes| ==> !GoesOn(passes[|done|], hasListfile, consumers)
  {
    if passes == [] || !GoesOn(passes[0], hasListfile, consumers) then []
    else [passes[0]] + Undisturbed(passes[1..], hasListfile, consumers)
  }

  /** What a failed write of a record leaves of a file. */
  ghost function CutFile(file: seq<u8>, record: DataPacket, length: nat): seq<u8> {
    if length < |file| + PACKET_BYTES then (file + record)[..length] else file + record[..PACKET_BYTES - 1]
  }

  /** The counters once these packets were read and that many reads timed out. */
  ghost function Tally(packets: seq<ReceivedPacket>, timeouts: nat, hasListfile: bool): Counters {
    Counters(|packets|, WeightOf(packets, BytesOf), timeouts, |packets| - |Filter(packets, ValidLive)|,
             if hasListfile then PACKET_BYTES * |packets| else 0)
  }

  /** Every value the counters had before, between and after the passes, in order. */
  ghost function TalliesOf(done: seq<Pass>, hasListfile: bool): (h: seq<Counters>)
    ensures h != [] && h[|h| - 1] == Tally(PacketsIn(done), TimeoutsIn(done), hasListfile)
    ensures |h| == |done| + 1
  {
    var now := Tally(PacketsIn(done), TimeoutsIn(done), hasListfile);
    if done == [] then [now] else TalliesOf(done[..|done| - 1], hasListfile) + [now]
  }

  class ReadoutWorker {
    const hasListfile: bool
    const consumers: nat
    var listfile: seq<u8>
    var bytesWritten: nat
    var counters: Counters
    var exception: bool
    var running: bool
    var consumed: seq<seq<ReceivedPacket>>  // per consumer: the packets it was called with
    var finished: seq<nat>                  // per consumer: calls of finished()
    ghost var snapshots: seq<Counters>      // all values getCounters() could return

    ghost predicate Fresh()
      reads this
    {
      && listfile == [] && bytesWritten == 0 && counters == NO_COUNTS && !exception
      && consumed == seq(consumers, _ => []) && finished == seq(consumers, _ => 0)
      && snapshots == [NO_COUNTS]
    }

    constructor (hasListfile: bool, consumers: nat)
      ensures Fresh() && !running
      ensures this.hasListfile == hasListfile && this.consumers == consumers
    {
      this.hasListfile, this.consumers := hasListfile, consumers;
      listfile, bytesWritten, counters, exception, running := [], 0, NO_COUNTS, false, false;
      consumed, finished := seq(consumers, _ => []), seq(consumers, _ => 0);
      snapshots := [NO_COUNTS];
    }

    /** The state between two passes, as a function of the packets read so far: they are the
        listfile, and every consumer saw exactly the valid ones, in order. */
    ghost predicate Between(done: seq<Pass>)
      reads `listfile, `bytesWritten, `counters, `exception, `consumed, `snapshots
    {
      var packets := PacketsIn(done);
      && listfile == (if hasListfile then Listfile(MapSeq(packets, PacketOf)) else [])
      && bytesWritten == |listfile|
      && counters == Tally(packets, TimeoutsIn(done), hasListfile)
      && snapshots == TalliesOf(done, hasListfile)
      && |consumed| == consumers
      && (forall j :: 0 <= j < consumers ==> consumed[j] == Filter(packets, ValidLive))
      && !exception
    }

    /** What getCounters() may return at any time, the present counters among it. */
    ghost predicate SnapshotsConsistent()
      reads `counters, `snapshots
    {
      && counters in snapshots
      && forall c | c in snapshots ::
           c.invalidPackets <= c.packets && c.listfileBytes == if hasListfile then PACKET_BYTES * c.packets else 0
    }

    /** loop(). When the passes are used up the quit flag is found set. */
    method Loop(passes: seq<Pass>)
      requires Fresh() && running
      modifies this
      ensures !running && finished == seq(consumers, _ => 1) && SnapshotsConsistent()
      ensures
        var done := Undisturbed(passes, hasListfile, consumers);
        if |done| == |passes| || !Throws(passes[|done|], hasListfile, consumers)
        then Between(done)                    // ended by quit or at the end of the data
        else AfterThrow(done, passes[|done|])
    {
      hide GoesOn, PacketsIn, Throws, Listfile, Tally, TalliesOf;
      var i := 0;
      ghost var done := [];
      NoPasses(hasListfile);
      assert consumed == seq(consumers, _ => []);
      assert Between(done) && SnapshotsConsistent();
      hide Between, AfterThrow, SnapshotsConsistent;
      while i < |passes|
        invariant 0 <= i <= |passes| && done == passes[..i]
        invariant finished == old(finished)
        invariant forall pass | pass in done :: GoesOn(pass, hasListfile, consumers)
        invariant Between(done) && SnapshotsConsistent()
      {
        UndisturbedIs(passes, i, hasListfile, consumers);
        assert passes[..i + 1] == done + [passes[i]];
        var goOn := OnePass(passes[i], done);
        if !goOn {
          break;
        }
        done := done + [passes[i]];
        i := i + 1;
      }
      UndisturbedIs(passes, i, hasListfile, consumers);
      Finish();
    }

    /** The body of the try block for one packet or timeout; false leaves the loop. */
    method OnePass(pass: Pass, ghost done: seq<Pass>) returns (goOn: bool)
      requires Between(done) && SnapshotsConsistent()
      modifies this
      ensures finished == old(finished) && SnapshotsConsistent()
      ensures goOn <==> GoesOn(pass, hasListfile, consumers)
      ensures goOn ==> Between(done + [pass])
      ensures !goOn && !Throws(pass, hasListfile, consumers) ==> Between(done)
      ensures Throws(pass, hasListfile, consumers) ==> AfterThrow(done, pass)
    {
      hide IsValidDataPacket, PacketsIn, TimeoutsIn, Filter, WeightOf, Listfile, Tally, TalliesOf;
      if pass.quit || pass.result.EndOfData? {
        return false;
      }
      if pass.result.ReadError? {
        exception := true;
        return false;
      }
      if pass.result.Timeout? {
        StepPasses(done, pass);
        StepTallies(done, pass, hasListfile);
        TallyOfTimeout(PacketsIn(done), TimeoutsIn(done), hasListfile);
        counters := counters.(timeouts := counters.timeouts + 1);
        snapshots := snapshots + [counters];
        return true;
      }
      goOn := OnePacket(pass.result.rp, pass, done);
    }

    /** The part for a packet. */
    method OnePacket(rp: ReceivedPacket, pass: Pass, ghost done: seq<Pass>) returns (goOn: bool)
      requires Between(done) && SnapshotsConsistent() && !pass.quit && pass.result == Packet(rp)
      modifies this
      ensures finished == old(finished) && SnapshotsConsistent()
      ensures goOn <==> GoesOn(pass, hasListfile, consumers)
      ensures goOn ==> Between(done + [pass])
      ensures !goOn ==> AfterThrow(done, pass)
    {
      hide IsValidDataPacket, PacketsIn, TimeoutsIn, Filter, WeightOf, Listfile, Tally, TalliesOf, CutFile;
      StepPasses(done, pass);
      StepTallies(done, pass, hasListfile);
      TallyOfPacket(PacketsIn(done), rp, TimeoutsIn(done), hasListfile);
      if hasListfile && pass.writeFails.Some? {
        FailWrite(rp, pass.writeFails.value);
        return false;
      }
      WriteAndCount(rp);
      if IsValidDataPacket(rp) {
        var threw := Deliver(rp, pass.failing);
        if threw {
          exception := true;
          return false;
        }
      }
      return true;
    }

    /** The record does not reach the file, or not as a whole; nothing is counted. */
    method FailWrite(rp: ReceivedPacket, length: nat)
      modifies `listfile, `exception
      ensures exception && listfile == CutFile(old(listfile), rp.packet, length)
      ensures listfile <= old(listfile) + rp.packet
      ensures |listfile| == if length < |old(listfile)| + 1472 then length else |old(listfile)| + 1471
    {
      listfile := if length < |listfile| + PACKET_BYTES then (listfile + rp.packet)[..length]
                  else listfile + rp.packet[..PACKET_BYTES - 1];
      exception := true;
    }

    /** The record goes to the listfile before the packet is counted. */
    method WriteAndCount(rp: ReceivedPacket)
      requires SnapshotsConsistent() && bytesWritten == |listfile|
      requires counters.invalidPackets <= counters.packets
      requires bytesWritten == if hasListfile then PACKET_BYTES * counters.packets else 0
      modifies `listfile, `bytesWritten, `counters, `snapshots
      ensures SnapshotsConsistent() && bytesWritten == |listfile| && snapshots == old(snapshots) + [counters]
      ensures listfile == old(listfile) + if hasListfile then rp.packet else []
      ensures counters == Counters(
        old(counters).packets + 1, old(counters).bytes + rp.bytes, old(counters).timeouts,
        old(counters).invalidPackets + (if ValidLive(rp) then 0 else 1), bytesWritten)
    {
      if hasListfile {
        listfile := listfile + rp.packet;
        bytesWritten := bytesWritten + PACKET_BYTES;
      }
      counters := counters.(packets := counters.packets + 1, bytes := counters.bytes + rp.bytes,
                            listfileBytes := if hasListfile then bytesWritten else 0,
                            invalidPackets := counters.invalidPackets + if IsValidDataPacket(rp) then 0 else 1);
      snapshots := snapshots + [counters];
    }

    /** The consumers are called in order until one throws. */
    method Deliver(rp: ReceivedPacket, failing: Option<nat>) returns (threw: bool)
      requires |consumed| == consumers
      modifies `consumed
      ensures |consumed| == consumers
      ensures threw <==> failing.Some? && failing.value < consumers
      ensures forall j :: 0 <= j < consumers ==>
        consumed[j] == old(consumed)[j] + if threw && j > failing.value then [] else [rp]
    {
      var j := 0;
      while j < consumers
        invariant 0 <= j <= consumers && |consumed| == consumers
        invariant forall l :: 0 <= l < consumers ==> consumed[l] == old(consumed)[l] + if l < j then [rp] else []
        invariant failing.Some? ==> j <= failing.value
      {
        consumed := consumed[j := consumed[j] + [rp]];
        if failing == Some(j) {
          return true;
        }
        j := j + 1;
      }
      return false;
    }

    /** The last packet got as far as the part that threw: a failed write leaves at most a part of
        its record in the file, a throwing consumer is the last one to see it. */
    ghost predicate AfterThrow(done: seq<Pass>, last: Pass)
      reads `listfile, `bytesWritten, `counters, `exception, `consumed, `snapshots
    {
      var packets, valid := PacketsIn(done), Filter(PacketsIn(done), ValidLive);
      var written := last.result.Packet? && !(hasListfile && last.writeFails.Some?);
      var reached := if written && ValidLive(last.result.rp) && last.failing.Some? then last.failing.value + 1 else 0;
      var got := if written then packets + [last.result.rp] else packets;
      var file := Listfile(MapSeq(got, PacketOf));
      && exception && |consumed| == consumers
      && counters == Tally(got, TimeoutsIn(done), hasListfile)
      && snapshots == TalliesOf(done, hasListfile) + (if written then [counters] else [])
      && bytesWritten == (if hasListfile then |file| else 0)
      && listfile == (if !hasListfile then [] else if written || !last.result.Packet? then file
                      else CutFile(file, last.result.rp.packet, last.writeFails.value))
      && forall j :: 0 <= j < consumers ==>
           consumed[j] == if j < reached then valid + [last.result.rp] else valid
    }

    /** After the loop, whatever ended it: finished() once for every consumer, also when one
        of them throws. */
    method Finish()
      requires |finished| == consumers && forall j :: 0 <= j < consumers ==> finished[j] == 0
      modifies `finished, `running
      ensures finished == seq(consumers, _ => 1) && !running
    {
      var j := 0;
      while j < consumers
        invariant 0 <= j <= consumers && |finished| == consumers
        invariant forall l :: 0 <= l < consumers ==> finished[l] == if l < j then 1 else 0
      {
        finished := finished[j := finished[j] + 1];
        j := j + 1;
      }
      running := false;
    }
  }

  /** Whatever a failed write leaves of a listfile, its complete records are the first of the
      packets that were counted. */
  lemma FailedWriteKeepsRecords(ps: seq<DataPacket>, record: DataPacket, length: nat)
    ensures |CutFile(Listfile(ps), record, length)| / PACKET_BYTES <= |ps|
    ensures var file := CutFile(Listfile(ps), record, length); Records(file) == ps[..|file| / PACKET_BYTES]
  {
    hide Records;
    var file, more := CutFile(Listfile(ps), record, length), ps + [record];
    assert more[..|ps|] == ps;
    assert Listfile(more) == Listfile(ps) + record;
    assert file == Listfile(more)[..|file|];
    TruncatedListfile(more, |file|);
    assert more[..|file| / PACKET_BYTES] == ps[..|file| / PACKET_BYTES];
  }

  lemma NoPasses(hasListfile: bool)
    ensures PacketsIn([]) == [] && Listfile(MapSeq([], PacketOf)) == []
    ensures TalliesOf([], hasListfile) == [NO_COUNTS] && Tally([], 0, hasListfile) == NO_COUNTS
  {
  }

  /** One more pass appends its packet to all that is a function of the packets. */
  lemma StepPasses(done: seq<Pass>, pass: Pass)
    ensures
      var packets, more := PacketsIn(done), PacketsIn(done + [pass]);
      && TimeoutsIn(done + [pass]) == TimeoutsIn(done) + (if pass.result.Timeout? then 1 else 0)
      && if !pass.result.Packet? then more == packets else
         var rp := pass.result.rp;
         && more == packets + [rp]
         && Listfile(MapSeq(more, PacketOf)) == Listfile(MapSeq(packets, PacketOf)) + rp.packet
         && Filter(more, ValidLive) == Filter(packets, ValidLive) + if ValidLive(rp) then [rp] else []
  {
    assert (done + [pass])[..|done|] == done;
    var packets := PacketsIn(done);
    if pass.result.Packet? {
      var rp := pass.result.rp;
      FilterSnoc(packets, rp, ValidLive);
      MapSnoc(packets, rp, PacketOf);
      var ps := MapSeq(packets, PacketOf);
      assert (ps + [rp.packet])[..|ps|] == ps;
    }
  }

  lemma StepTallies(done: seq<Pass>, pass: Pass, hasListfile: bool)
    ensures
      var next := Tally(PacketsIn(done + [pass]), TimeoutsIn(done + [pass]), hasListfile);
      TalliesOf(done + [pass], hasListfile) == TalliesOf(done, hasListfile) + [next]
  {
    hide Tally;
    assert (done + [pass])[..|done|] == done;
  }

  lemma TallyOfPacket(packets: seq<ReceivedPacket>, rp: ReceivedPacket, timeouts: nat, hasListfile: bool)
    ensures
      var now := Tally(packets, timeouts, hasListfile);
      && now.packets == |packets| && now.timeouts == timeouts && now.invalidPackets <= now.packets
      && now.listfileBytes == (if hasListfile then PACKET_BYTES * now.packets else 0)
      && Tally(packets + [rp], timeouts, hasListfile)
         == Counters(now.packets + 1, now.bytes + rp.bytes, timeouts,
                     now.invalidPackets + (if ValidLive(rp) then 0 else 1),
                     now.listfileBytes + (if hasListfile then PACKET_BYTES else 0))
  {
    FilterSnoc(packets, rp, ValidLive);
    assert (packets + [rp])[..|packets|] == packets;
  }

  lemma TallyOfTimeout(packets: seq<ReceivedPacket>, timeouts: nat, hasListfile: bool)
    ensures
      var now := Tally(packets, timeouts, hasListfile);
      Tally(packets, timeouts + 1, hasListfile) == now.(timeouts := now.timeouts + 1)
  {
  }

  lemma UndisturbedIs(passes: seq<Pass>, i: nat, hasListfile: bool, consumers: nat)
    requires i <= |passes| && forall pass | pass in passes[..i] :: GoesOn(pass, hasListfile, consumers)
    ensures i == |passes| || !GoesOn(passes[i], hasListfile, consumers) ==>
      Undisturbed(passes, hasListfile, consumers) == passes[..i]
  {
    var done := Undisturbed(passes, hasListfile, consumers);
    assert forall k | 0 <= k < i :: passes[..i][k] in passes[..i];
    assert forall k | 0 <= k < |done| :: done[k] in done;
  }

  // ---- when the loop ends, and what it does with sound datagrams ----

  /** What ends the loop: the quit flag, the end of the data, a failed read, a failed write, and an
      exception of a consumer that gets to see the packet. Invalid packets and timeouts do not. */
  ghost predicate Ends(pass: Pass, hasListfile: bool, consumers: nat) {
    || pass.quit || pass.result == EndOfData || pass.result == ReadError
    || (pass.result.Packet? && hasListfile && pass.writeFails != None)
    || (pass.result.Packet? && IsValidDataPacket(pass.result.rp)
        && pass.failing.Some? && pass.failing.value < consumers)
  }

  /** The loop goes on exactly up to the first pass that ends it; it ends with an exception unless
      that was the quit flag or the end of the data. */
  lemma EndsAtTheFirst(passes: seq<Pass>, hasListfile: bool, consumers: nat)
    ensures
      var done := Undisturbed(passes, hasListfile, consumers);
      && (forall i | 0 <= i < |done| :: !Ends(passes[i], hasListfile, consumers))
      && (|done| < |passes| ==>
            var last := passes[|done|];
            && Ends(last, hasListfile, consumers)
            && (Throws(last, hasListfile, consumers) <==> !last.quit && last.result != EndOfData))
  {
    hide IsValidDataPacket;
    var done := Undisturbed(passes, hasListfile, consumers);
    forall i | 0 <= i < |done|
      ensures !Ends(passes[i], hasListfile, consumers)
    {
      assert done[i] in done;
    }
  }

  datatype Sent = Sent(bytes: seq<u8>, srcAddr: u32, srcPort: u16)

  type WholeSent = s: Sent | IsWhole(s.bytes) witness Sent([21, 0, 0, 0, 21, 0] + Zeros(36), 0, 0)

  function ReceivedOf(s: WholeSent): ReceivedPacket {
    ReceivedDatagram(s.bytes, s.srcAddr, s.srcPort)
  }

  /** The pass in which a whole datagram is read, or none within the timeout. */
  function ReadOf(sent: Option<WholeSent>): Pass {
    match sent
    case None => Pass(false, Timeout, None, None)
    case Some(s) => Pass(false, Packet(ReceivedOf(s)), None, None)
  }

  function ReadsOf(sent: seq<Option<WholeSent>>): seq<Pass> {
    seq(|sent|, i requires 0 <= i < |sent| => ReadOf(sent[i]))
  }

  lemma WholeIsValid(s: WholeSent)
    ensures IsValidDataPacket(ReceivedOf(s))
  {
    assert s.bytes[..|s.bytes|] == s.bytes;
    WholeDatagramIsValidIff(s.bytes, |s.bytes|, s.srcAddr, s.srcPort);
  }

  lemma {:induction false} WholeReads(sent: seq<Option<WholeSent>>)
    ensures
      var packets := PacketsIn(ReadsOf(sent));
      && |packets| + TimeoutsIn(ReadsOf(sent)) == |sent| && Filter(packets, ValidLive) == packets
      && (None !in sent ==>
            |packets| == |sent| && forall i | 0 <= i < |sent| :: packets[i] == ReceivedOf(sent[i].value))
  {
    hide IsValidDataPacket, IsWhole, ReceivedOf, ReadOf, Filter;
    if sent == [] {
      NothingRead();
    } else {
      var n := |sent| - 1;
      var before := PacketsIn(ReadsOf(sent[..n]));
      WholeReads(sent[..n]);
      assert ReadsOf(sent)[..n] == ReadsOf(sent[..n]);
      ReadIs(sent[n]);
      if sent[n].Some? {
        WholeIsValid(sent[n].value);
        FilterSnoc(before, ReceivedOf(sent[n].value), ValidLive);
      }
    }
  }

  lemma ReadIs(sent: Option<WholeSent>)
    ensures ReadOf(sent).result == match sent case None => Timeout case Some(s) => Packet(ReceivedOf(s))
  {
  }

  lemma NothingRead()
    ensures PacketsIn(ReadsOf([])) == [] && TimeoutsIn(ReadsOf([])) == 0 && Filter([], ValidLive) == []
  {
  }

  /** A run in which modules send whole datagrams, with timeouts in between, delivers every one
      of them to every consumer in order, and counts none as invalid. */
  method ReceiveWhole(sent: seq<Option<WholeSent>>, hasListfile: bool, consumers: nat) returns (worker: ReadoutWorker)
    ensures !worker.exception && !worker.running && worker.consumers == |worker.consumed| == consumers
    ensures worker.counters.packets + worker.counters.timeouts == |sent| && worker.counters.invalidPackets == 0
    ensures forall j | 0 <= j < consumers :: |worker.consumed[j]| == worker.counters.packets
    ensures None !in sent ==>
      && worker.counters.packets == |sent|
      && forall j, i | 0 <= j < consumers && 0 <= i < |sent| :: worker.consumed[j][i] == ReceivedOf(sent[i].value)
  {
    hide IsValidDataPacket, IsWhole, PacketsIn, TimeoutsIn, Listfile, TalliesOf, Undisturbed, Filter, ReceivedOf;
    worker := new ReadoutWorker(hasListfile, consumers);
    worker.running := true;
    WholeReads(sent);
    var passes := ReadsOf(sent);
    assert passes[..|passes|] == passes;
    assert forall pass | pass in passes :: GoesOn(pass, hasListfile, consumers);
    UndisturbedIs(passes, |passes|, hasListfile, consumers);
    worker.Loop(passes);
  }

  // ---- a live run and the replay of its listfile ----

  /** The passes of a readout from a listfile: its records, then the end of the data. */
  function ReplayPasses(rps: seq<ReceivedPacket>): seq<Pass> {
    seq(|rps|, i requires 0 <= i < |rps| => Pass(false, Packet(rps[i]), None, None))
  }

  const END_PASS: Pass := Pass(false, EndOfData, None, None)

  lemma {:induction false} PacketsReplayed(rps: seq<ReceivedPacket>)
    ensures PacketsIn(ReplayPasses(rps)) == rps
  {
    if rps != [] {
      var before := rps[..|rps| - 1];
      PacketsReplayed(before);
      assert ReplayPasses(rps)[..|rps| - 1] == ReplayPasses(before);
    }
  }

  lemma ReplayRunsToEnd(rps: seq<ReceivedPacket>, consumers: nat)
    ensures Undisturbed(ReplayPasses(rps) + [END_PASS], false, consumers) == ReplayPasses(rps)
    ensures !Throws(END_PASS, false, consumers)
  {
    var passes := ReplayPasses(rps) + [END_PASS];
    assert passes[..|rps|] == ReplayPasses(rps);
    UndisturbedIs(passes, |rps|, false, consumers);
  }

  /** A readout with a listfile, and a readout from that listfile: however the live run ended,
      the replay delivers the valid ones among the complete records. After a live run without an
      exception these are the packets read, and the consumers of both see the same packets exactly
      when none was merely too short (if there is a consumer). */
  method RecordAndReplay(passes: seq<Pass>, consumers: nat) returns (live: ReadoutWorker, replay: ReadoutWorker)
    ensures live.consumers == replay.consumers == |live.consumed| == |replay.consumed| == consumers
    ensures forall j | 0 <= j < consumers ::
      replay.consumed[j] == Filter(MapSeq(Records(live.listfile), FromListfile), ValidLive)
    ensures
      var done := Undisturbed(passes, true, consumers);
      |done| == |passes| || !Throws(passes[|done|], true, consumers) ==>
        var received := PacketsIn(done);
        && Records(live.listfile) == MapSeq(received, PacketOf)
        && forall j | 0 <= j < consumers ::
             && live.consumed[j] == Filter(received, ValidLive)
             && (replay.consumed[j] == MapSeq(live.consumed[j], Replayed)
                 <==> forall rp | rp in received :: !OnlyTooShort(rp))
  {
    hide Throws, GoesOn, Undisturbed, PacketsIn, Listfile, Records, Tally, TalliesOf, OnlyTooShort;
    live := new ReadoutWorker(true, consumers);
    live.running := true;
    live.Loop(passes);
    var rps := ReadAll(live.listfile);
    replay := new ReadoutWorker(false, consumers);
    replay.running := true;
    PacketsReplayed(rps);
    ReplayRunsToEnd(rps, consumers);
    replay.Loop(ReplayPasses(rps) + [END_PASS]);
    ghost var received := PacketsIn(Undisturbed(passes, true, consumers));
    RecordsOfListfile(MapSeq(received, PacketOf));
    SameDeliveriesIff(received);
  }
}
