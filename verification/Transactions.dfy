/** Command transactions: the retry loop against whatever the network answers, and the
    search for a device id built on it. */
module Transactions {
  import opened Packets
  import Commands

  const MAX_ATTEMPTS: nat := 5
  const MAX_IDS: nat := 256
  const GET_VERSION: u16 := 51
  const ID_MISMATCH: u8 := 128

  type Request = Commands.CommandPacket
  type Response = DataPacket            // CommandPacket has the same size; bytes as received

  type Datagram = d: seq<u8> | |d| <= PACKET_BYTES witness []   // recvfrom cuts longer ones

  /** What one attempt meets: a timeout, another socket error, or a datagram. */
  datatype Outcome =
    | SendTimeout
    | SendError(errno: int)
    | ReceiveTimeout
    | ReceiveError(errno: int)
    | Received(bytes: Datagram)

  /** The network: its reaction to the n-th request sent on a socket. */
  type Network = (nat, Request) -> Outcome

  datatype ErrorCode =
    | NoError
    | Socket(errno: int)
    | Device(value: u8)                 // from the error byte of a response
    | TimedOut
    | ProtocolError

  function Cmd(r: Response): u16 { Word(r, 4) }
  function CommandNumber(r: Response): u8 { r[8] }
  function ErrorValue(r: Response): u8 { r[9] }

  /** cmd & CommandNumberMask and the shifted error mask are the two bytes of cmd. */
  lemma CmdBytes(r: Response)
    ensures Cmd(r) as int % 0x100 == CommandNumber(r) as int && Cmd(r) as int / 0x100 == ErrorValue(r) as int
  {
  }

  /** A datagram overwrites the front of the response; what an earlier one left behind stays. */
  function Overwrite(r: Response, o: Outcome): Response {
    if o.Received? then o.bytes + r[|o.bytes|..] else r
  }

  /** The end of the transaction, or None for another attempt. */
  function Verdict(o: Outcome, r: Response, request: Request, ignoreProtoError: bool): Option<ErrorCode> {
    match o
    case SendTimeout => None
    case ReceiveTimeout => None
    case SendError(e) => Some(Socket(e))
    case ReceiveError(e) => Some(Socket(e))
    case Received(_) =>
      if BufferType(r) != COMMAND_BUFFER_TYPE || CommandNumber(r) as int != request[4] as int then None
      else if !ignoreProtoError && ErrorValue(r) != 0 then Some(Device(ErrorValue(r)))
      else Some(NoError)
  }

  /** The response buffer after n attempts. */
  function BufferAfter(net: Network, start: nat, request: Request, r: Response, n: nat): Response {
    if n == 0 then r
    else Overwrite(BufferAfter(net, start, request, r, n - 1), net(start + n - 1, request))
  }

  lemma BufferStart(net: Network, start: nat, request: Request, r: Response)
    ensures BufferAfter(net, start, request, r, 0) == r
  {
  }

  lemma BufferStep(net: Network, start: nat, request: Request, r: Response, n: nat)
    ensures BufferAfter(net, start, request, r, n + 1)
            == Overwrite(BufferAfter(net, start, request, r, n), net(start + n, request))
  {
  }

  function VerdictOf(net: Network, start: nat, request: Request, r: Response, ignore: bool, i: nat): Option<ErrorCode> {
    Verdict(net(start + i, request), BufferAfter(net, start, request, r, i + 1), request, ignore)
  }

  datatype Exchange = Exchange(ec: ErrorCode, sends: nat, response: Response)

  /** The result of a transaction whose first attempt is the start-th send on the socket:
      that of the first decisive attempt, of at most five. */
  ghost predicate IsExchange(net: Network, start: nat, request: Request, r: Response, ignore: bool, x: Exchange) {
    && 1 <= x.sends <= MAX_ATTEMPTS
    && x.response == BufferAfter(net, start, request, r, x.sends)
    && (forall i | 0 <= i < x.sends - 1 :: VerdictOf(net, start, request, r, ignore, i) == None)
    && match VerdictOf(net, start, request, r, ignore, x.sends - 1)
       case Some(ec) => x.ec == ec
       case None => x.sends == MAX_ATTEMPTS && x.ec == TimedOut
  }

  /** command_transaction_ with the response as an array it overwrites. */
  method CommandTransaction(net: Network, start: nat, request: Request, response: array<u8>, ignoreProtoError: bool)
    returns (ec: ErrorCode, sends: nat)
    requires response.Length == PACKET_BYTES
    modifies response
    ensures IsExchange(net, start, request, old(response[..]), ignoreProtoError, Exchange(ec, sends, response[..]))
  {
    hide BufferAfter, BufferType, CommandNumber, ErrorValue;
    ghost var r: Response := response[..];
    assert BufferAfter(net, start, request, r, 0) == r by { BufferStart(net, start, request, r); }
    sends := 0;
    while sends < MAX_ATTEMPTS
      invariant sends <= MAX_ATTEMPTS
      invariant response[..] == BufferAfter(net, start, request, r, sends)
      invariant forall i | 0 <= i < sends :: VerdictOf(net, start, request, r, ignoreProtoError, i) == None
    {
      var outcome := net(start + sends, request);
      if outcome.Received? {
        forall i | 0 <= i < |outcome.bytes| {
          response[i] := outcome.bytes[i];
        }
      }
      assert response[..] == Overwrite(BufferAfter(net, start, request, r, sends), outcome);
      BufferStep(net, start, request, r, sends);
      var now: Response := response[..];
      sends := sends + 1;
      match outcome {
        case SendError(e) => return Socket(e), sends;
        case ReceiveError(e) => return Socket(e), sends;
        case Received(_) =>
          if BufferType(now) == COMMAND_BUFFER_TYPE && CommandNumber(now) as int == request[4] as int {
            if !ignoreProtoError && ErrorValue(now) != 0 {
              return Device(ErrorValue(now)), sends;
            }
            return NoError, sends;
          }
        case _ =>
      }
    }
    ec := TimedOut;
  }

  /** The result of a transaction is determined, so Transact below is the one there is. */
  lemma ExchangeIsUnique(
    net: Network, start: nat, request: Request, r: Response, ignore: bool, x: Exchange, y: Exchange)
    requires IsExchange(net, start, request, r, ignore, x) && IsExchange(net, start, request, r, ignore, y)
    ensures x == y
  {
    hide BufferAfter, VerdictOf;
    var a := VerdictOf(net, start, request, r, ignore, x.sends - 1);
    var b := VerdictOf(net, start, request, r, ignore, y.sends - 1);
    assert x.sends == y.sends;
  }

  /** The response is not the answer to the request: another buffer type or command number. */
  predicate Mismatched(r: Response, request: Request) {
    Word(r, 1) != 0x8000 || (Word(r, 4) as int) % 0x100 != request[4] as int
  }

  /** An attempt that leads to another one: a timeout, or a datagram that is not the answer. */
  predicate Indecisive(o: Outcome, r: Response, request: Request) {
    o == SendTimeout || o == ReceiveTimeout || (o.Received? && Mismatched(r, request))
  }

  predicate IndecisiveAttempt(net: Network, start: nat, request: Request, r: Response, i: nat) {
    Indecisive(net(start + i, request), BufferAfter(net, start, request, r, i + 1), request)
  }

  /** The error code of every exchange, read off the outcomes and the words of the response: all
      attempts but the last are indecisive, and so is the fifth if the code is a timeout; socket
      errors are passed on; the error byte of the answer is the device error, unless errors are
      ignored or it is zero. */
  lemma ErrorCodeIff(net: Network, start: nat, request: Request, r: Response, ignore: bool, x: Exchange)
    requires IsExchange(net, start, request, r, ignore, x)
    ensures 1 <= x.sends <= 5
    ensures forall i | 0 <= i < x.sends - 1 :: IndecisiveAttempt(net, start, request, r, i)
    ensures
      var o := net(start + x.sends - 1, request);
      var answered := o.Received? && !Mismatched(x.response, request);
      var error := (Word(x.response, 4) as int) / 0x100;
      && (x.ec == TimedOut <==> Indecisive(o, x.response, request))
      && (x.ec == TimedOut ==> x.sends == 5)
      && (forall e :: x.ec == Socket(e) <==> o == SendError(e) || o == ReceiveError(e))
      && (forall v :: x.ec == Device(v) <==> answered && !ignore && v as int == error != 0)
      && (x.ec == NoError <==> answered && (ignore || error == 0))
      && x.ec != ProtocolError
  {
    hide BufferAfter;
    forall i | 0 <= i < x.sends - 1
      ensures IndecisiveAttempt(net, start, request, r, i)
    {
      assert VerdictOf(net, start, request, r, ignore, i) == None;
      CmdBytes(BufferAfter(net, start, request, r, i + 1));
    }
    CmdBytes(x.response);
  }

  /** Success means: the last attempt received a command buffer for the command that was
      sent, without an error byte unless those are ignored. */
  lemma SuccessMeans(net: Network, start: nat, request: Request, r: Response, ignore: bool, x: Exchange)
    requires IsExchange(net, start, request, r, ignore, x) && x.ec == NoError
    ensures net(start + x.sends - 1, request).Received?
    ensures BufferType(x.response) == COMMAND_BUFFER_TYPE
    ensures Cmd(x.response) as int % 0x100 == request[4] as int
    ensures ignore || Cmd(x.response) as int == request[4] as int
  {
    hide BufferAfter;
    CmdBytes(x.response);
  }

  /** A transaction times out exactly when all five attempts were indecisive. */
  lemma TimedOutIff(net: Network, start: nat, request: Request, r: Response, ignore: bool, x: Exchange)
    requires IsExchange(net, start, request, r, ignore, x)
    ensures x.ec == TimedOut
       <==> forall i | 0 <= i < MAX_ATTEMPTS :: VerdictOf(net, start, request, r, ignore, i) == None
    ensures x.ec == TimedOut ==> x.sends == 5
  {
    hide BufferAfter;
    if forall i | 0 <= i < MAX_ATTEMPTS :: VerdictOf(net, start, request, r, ignore, i) == None {
      assert VerdictOf(net, start, request, r, ignore, x.sends - 1) == None;
    }
  }

  /** A request whose command does not fit in a byte is never answered, only refused by the socket. */
  lemma WideCommandNeverSucceeds(net: Network, start: nat, request: Request, r: Response, ignore: bool, x: Exchange)
    requires IsExchange(net, start, request, r, ignore, x) && request[4] as int >= 0x100
    ensures x.ec.Socket? || x.ec == TimedOut
  {
    hide BufferAfter;
  }

  /** The front of an accepted response is the last datagram, the rest is what the buffer held. */
  lemma AcceptedFront(net: Network, start: nat, request: Request, r: Response, ignore: bool, x: Exchange)
    requires IsExchange(net, start, request, r, ignore, x) && x.ec == NoError
    ensures var d := net(start + x.sends - 1, request).bytes;
            && x.response[..|d|] == d
            && x.response[|d|..] == BufferAfter(net, start, request, r, x.sends - 1)[|d|..]
  {
  }

  function RunAttempts(net: Network, start: nat, request: Request, r: Response, ignore: bool, n: nat): (x: Exchange)
    requires 1 <= n <= MAX_ATTEMPTS
    requires forall i | 0 <= i < n - 1 :: VerdictOf(net, start, request, r, ignore, i) == None
    ensures IsExchange(net, start, request, r, ignore, x)
    decreases MAX_ATTEMPTS - n
  {
    var b := BufferAfter(net, start, request, r, n);
    match VerdictOf(net, start, request, r, ignore, n - 1)
    case Some(ec) => Exchange(ec, n, b)
    case None =>
      if n == MAX_ATTEMPTS then Exchange(TimedOut, n, b) else RunAttempts(net, start, request, r, ignore, n + 1)
  }

  function Transact(net: Network, start: nat, request: Request, r: Response): (x: Exchange)
    ensures IsExchange(net, start, request, r, false, x)
  {
    RunAttempts(net, start, request, r, false, 1)
  }

  // ---- how much of an accepted response is new ----

  /** A datagram that is accepted whatever the buffer held: it reaches behind cmd. */
  predicate AcceptedAlone(d: Datagram, request: Request) {
    |d| >= 10 && Word(d, 1) == COMMAND_BUFFER_TYPE && d[8] as int == request[4] as int && d[9] == 0
  }

  /** The transaction succeeds with d as the accepted datagram. */
  ghost predicate EndsWith(net: Network, start: nat, request: Request, r: Response, d: Datagram) {
    var x := Transact(net, start, request, r);
    x.ec == NoError && net(start + x.sends - 1, request) == Received(d)
  }

  /** The first n bytes of the response are the same whatever came before the accepted datagram. */
  ghost predicate FrontIsFresh(start: nat, request: Request, r: Response, d: Datagram, n: nat)
    requires n <= PACKET_BYTES
  {
    forall net: Network, other: Network |
      EndsWith(net, start, request, r, d) && EndsWith(other, start, request, r, d) ::
      Transact(net, start, request, r).response[..n] == Transact(other, start, request, r).response[..n]
  }

  /** A full datagram that is refused for its buffer type and differs from r in all that d leaves. */
  function Junk(r: Response): Datagram {
    seq(PACKET_BYTES, i requires 0 <= i < PACKET_BYTES => if i < 10 then 1 else 255 - r[i])
  }

  function At(start: nat, first: Datagram, later: Datagram): Network {
    (n: nat, q: Request) => if n == start then Received(first) else Received(later)
  }

  lemma AcceptedAtOnce(start: nat, request: Request, r: Response, d: Datagram)
    requires AcceptedAlone(d, request)
    ensures Transact(At(start, d, d), start, request, r) == Exchange(NoError, 1, d + r[|d|..])
  {
    hide RunAttempts;
    var net := At(start, d, d);
    DatagramAccepted(r, d, request);
    BufferStart(net, start, request, r);
    BufferStep(net, start, request, r, 0);
    ExchangeIsUnique(net, start, request, r, false, Transact(net, start, request, r),
                     Exchange(NoError, 1, d + r[|d|..]));
  }

  /** A full datagram that is refused shines through behind the one accepted after it. */
  lemma AcceptedAfterRefused(start: nat, request: Request, r: Response, refused: Datagram, d: Datagram)
    requires |refused| == PACKET_BYTES && Verdict(Received(refused), refused, request, false) == None
    requires Verdict(Received(d), d + refused[|d|..], request, false) == Some(NoError)
    ensures Transact(At(start, refused, d), start, request, r) == Exchange(NoError, 2, d + refused[|d|..])
  {
    hide RunAttempts, Verdict;
    var net := At(start, refused, d);
    BufferStart(net, start, request, r);
    BufferStep(net, start, request, r, 0);
    BufferStep(net, start, request, r, 1);
    assert Overwrite(r, Received(refused)) == refused;
    ExchangeIsUnique(net, start, request, r, false, Transact(net, start, request, r),
                     Exchange(NoError, 2, d + refused[|d|..]));
  }

  /** The same datagram accepted at once, and after a refused one. */
  lemma AcceptedTwice(start: nat, request: Request, r: Response, d: Datagram)
    requires AcceptedAlone(d, request)
    ensures EndsWith(At(start, d, d), start, request, r, d)
    ensures Transact(At(start, d, d), start, request, r).response == d + r[|d|..]
    ensures EndsWith(At(start, Junk(r), d), start, request, r, d)
    ensures Transact(At(start, Junk(r), d), start, request, r).response == d + Junk(r)[|d|..]
  {
    hide Transact, Verdict;
    AcceptedAtOnce(start, request, r, d);
    JunkRefused(r, request);
    DatagramAccepted(Junk(r), d, request);
    AcceptedAfterRefused(start, request, r, Junk(r), d);
  }

  lemma DatagramAccepted(r: Response, d: Datagram, request: Request)
    requires AcceptedAlone(d, request)
    ensures Verdict(Received(d), Overwrite(r, Received(d)), request, false) == Some(NoError)
  {
    assert forall i | 0 <= i < 10 :: Overwrite(r, Received(d))[i] == d[i];
  }

  lemma JunkRefused(r: Response, request: Request)
    ensures Verdict(Received(Junk(r)), Junk(r), request, false) == None
  {
    assert BufferType(Junk(r)) == 0x101;
  }

  /** An accepted response need not be new: what a caller reads of it is fixed by the accepted
      datagram exactly as far as that reaches, however long a packet it claims to be. */
  lemma TailMayBeStale(start: nat, request: Request, r: Response, d: Datagram, n: nat)
    requires AcceptedAlone(d, request) && n <= PACKET_BYTES
    ensures FrontIsFresh(start, request, r, d, n) <==> n <= |d|
  {
    hide RunAttempts, Transact;
    if n <= |d| {
      forall net: Network, other: Network |
        EndsWith(net, start, request, r, d) && EndsWith(other, start, request, r, d)
        ensures Transact(net, start, request, r).response[..n] == Transact(other, start, request, r).response[..n]
      {
        var x, y := Transact(net, start, request, r), Transact(other, start, request, r);
        AcceptedFront(net, start, request, r, false, x);
        AcceptedFront(other, start, request, r, false, y);
        assert x.response[..n] == d[..n] == y.response[..n];
      }
    } else {
      AcceptedTwice(start, request, r, d);
      var x, y := d + r[|d|..], d + Junk(r)[|d|..];
      assert x[..n][|d|] == r[|d|] && y[..n][|d|] == Junk(r)[|d|];
    }
  }

  // ---- GetVersion ----

  datatype VersionInfo = VersionInfo(cpu0: u16, cpu1: u16, fpga0: u8, fpga1: u8)

  function DataLength(r: Response): int {
    BufferLength(r) as int - HeaderLength(r) as int
  }

  function VersionRequest(id: u8): Request {
    Commands.Made(GET_VERSION, id, [])
  }

  function VersionExchange(net: Network, start: nat, id: u8): Exchange {
    Transact(net, start, VersionRequest(id), Zeros(PACKET_BYTES))
  }

  /** The words mcpd_get_version takes from a response with at least two data words. */
  function VersionOf(r: Response): VersionInfo {
    VersionInfo(Word(r, 10), Word(r, 11),
                if DataLength(r) >= 3 then r[25] else 0, if DataLength(r) >= 3 then r[24] else 0)
  }

  function VersionError(x: Exchange): ErrorCode {
    if x.ec == NoError && DataLength(x.response) < 2 then ProtocolError else x.ec
  }

  /** The outcome of mcpd_get_version in terms of the words of the response: a protocol error for
      less than two data words, the version from the first two, and from the bytes of a third. */
  lemma VersionMeans(x: Exchange)
    ensures
      var dataLen := Word(x.response, 0) as int - Word(x.response, 2) as int;
      var v := VersionOf(x.response);
      && VersionError(x) == (if x.ec == NoError && dataLen <= 1 then ProtocolError else x.ec)
      && v.cpu0 == Word(x.response, 10) && v.cpu1 == Word(x.response, 11)
      && (dataLen < 3 ==> v.fpga0 == v.fpga1 == 0)
      && (dataLen >= 3 ==> 0x100 * v.fpga0 as int + v.fpga1 as int == Word(x.response, 12) as int)
  {
  }

  /** The request names the command, the id it is sent to, and nothing else. */
  lemma VersionRequestWords(id: u8)
    ensures
      var q := VersionRequest(id);
      && q[..9] == [11, 0x8000, 10, 0, 51, 256 * id as int, 0, 0, 0] && q[10] == 0xFFFF
      && forall i | 11 <= i < 736 :: q[i] == 0
  {
    hide Commands.Prepared;
    Commands.PreparedWords(GET_VERSION, id, []);
  }

  method GetVersion(net: Network, start: nat, id: u8) returns (ec: ErrorCode, info: VersionInfo, sends: nat)
    ensures ec == VersionError(VersionExchange(net, start, id))
    ensures sends == VersionExchange(net, start, id).sends
    ensures ec == NoError ==> info == VersionOf(VersionExchange(net, start, id).response)
  {
    hide BufferAfter, VerdictOf, RunAttempts, Transact;
    info := VersionInfo(0, 0, 0, 0);
    var request := Commands.MakeCommandPacket(GET_VERSION, id, []);
    var response := new u8[PACKET_BYTES](_ => 0);
    assert response[..] == Zeros(PACKET_BYTES);
    ec, sends := CommandTransaction(net, start, request, response, false);
    ExchangeIsUnique(net, start, request, Zeros(PACKET_BYTES), false,
                     Exchange(ec, sends, response[..]), VersionExchange(net, start, id));
    if ec == NoError {
      var r: Response := response[..];
      if DataLength(r) < 2 {
        ec := ProtocolError;
      } else {
        info := VersionInfo(Word(r, 10), Word(r, 11), 0, 0);
        if DataLength(r) >= 3 {
          info := VersionInfo(Word(r, 10), Word(r, 11), r[25], r[24]);
        }
      }
    }
  }

  /** The bytes of a datagram that hold the version it reports. */
  function VersionBytes(d: Datagram): nat
    requires |d| >= 6
  {
    if Word(d, 0) as int - Word(d, 2) as int >= 3 then 26 else 24
  }

  /** The header fields that d brings along fit an answer to GetVersion without an error. A
      datagram that does not reach the buffer type cannot change a refusal. */
  predicate Acceptable(d: Datagram) {
    && |d| >= 3 && d[2] == 0 && (|d| > 3 ==> d[3] == 0x80)
    && (|d| > 8 ==> d[8] as int == GET_VERSION as int) && (|d| > 9 ==> d[9] == 0)
  }

  /** The data length of a response accepted with d is at most this: headerLength may gain from
      the bytes that d does not reach. */
  function MaxDataLength(d: Datagram): int
    requires |d| >= 2
  {
    var low, high := if |d| > 4 then d[4] as int else 0, if |d| > 5 then d[5] as int else 0;
    Word(d, 0) as int - low - 0x100 * high
  }

  predicate Reportable(d: Datagram) {
    Acceptable(d) && MaxDataLength(d) >= 2
  }

  /** mcpd_get_version succeeds with d as the accepted datagram. */
  ghost predicate ReportsVersion(net: Network, start: nat, id: u8, d: Datagram) {
    && EndsWith(net, start, VersionRequest(id), Zeros(PACKET_BYTES), d)
    && VersionError(VersionExchange(net, start, id)) == NoError
  }

  /** The version reported does not depend on what came before the accepted datagram. */
  ghost predicate VersionIsFresh(start: nat, id: u8, d: Datagram) {
    forall net: Network, other: Network | ReportsVersion(net, start, id, d) && ReportsVersion(other, start, id, d) ::
      VersionOf(VersionExchange(net, start, id).response) == VersionOf(VersionExchange(other, start, id).response)
  }

  /** A reported version is that of the accepted datagram alone exactly when the datagram
      contains its words; otherwise parts of a refused answer may stand in for them. The only
      other datagrams are those with which no version is ever reported. */
  lemma VersionIsFreshIff(start: nat, id: u8, d: Datagram)
    ensures VersionIsFresh(start, id, d) <==> !Reportable(d) || (|d| >= 24 && |d| >= VersionBytes(d))
    ensures (exists net: Network :: ReportsVersion(net, start, id, d)) <==> Reportable(d)
  {
    hide Transact, EndsWith, ReportsVersion;
    if !Reportable(d) {
      forall net: Network
        ensures !ReportsVersion(net, start, id, d)
      {
        NeverReported(net, start, id, d);
      }
    } else {
      TwoVersions(start, id, d);
      if |d| >= 24 && |d| >= VersionBytes(d) {
        forall net: Network, other: Network | ReportsVersion(net, start, id, d) && ReportsVersion(other, start, id, d)
          ensures VersionOf(VersionExchange(net, start, id).response)
               == VersionOf(VersionExchange(other, start, id).response)
        {
          VersionInDatagram(net, start, id, d);
          VersionInDatagram(other, start, id, d);
        }
      }
    }
  }

  lemma NeverReported(net: Network, start: nat, id: u8, d: Datagram)
    requires !Reportable(d)
    ensures !ReportsVersion(net, start, id, d)
  {
    hide Transact, EndsWith;
    if !Acceptable(d) {
      NeverAccepted(net, start, id, d);
    } else if EndsWith(net, start, VersionRequest(id), Zeros(PACKET_BYTES), d) {
      LengthIsBounded(net, start, id, d);
    }
  }

  lemma LengthIsBounded(net: Network, start: nat, id: u8, d: Datagram)
    requires |d| >= 2 && EndsWith(net, start, VersionRequest(id), Zeros(PACKET_BYTES), d)
    ensures DataLength(VersionExchange(net, start, id).response) <= MaxDataLength(d)
  {
    hide Transact, EndsWith;
    var x := VersionExchange(net, start, id).response;
    AcceptedIsFront(net, start, VersionRequest(id), Zeros(PACKET_BYTES), d);
    assert forall i | 0 <= i < |d| :: x[i] == x[..|d|][i];
  }

  /** The version of a datagram that contains it. */
  lemma VersionInDatagram(net: Network, start: nat, id: u8, d: Datagram)
    requires |d| >= 24 && |d| >= VersionBytes(d) && ReportsVersion(net, start, id, d)
    ensures VersionOf(VersionExchange(net, start, id).response)
         == VersionInfo(Word(d, 10), Word(d, 11), if VersionBytes(d) == 26 then d[25] else 0,
                        if VersionBytes(d) == 26 then d[24] else 0)
  {
    hide Transact, EndsWith;
    var x := VersionExchange(net, start, id);
    AcceptedIsFront(net, start, VersionRequest(id), Zeros(PACKET_BYTES), d);
    assert forall i | 0 <= i < |d| :: x.response[i] == x.response[..|d|][i];
  }

  /** A refused full answer with the header fields that d lacks, and otherwise one value. */
  function Filler(fill: u8): Datagram {
    [0, 0, 1, 0x80, 0, 0, 0, 0, 51, 0] + seq(PACKET_BYTES - 10, _ => fill)
  }

  /** Two networks that end with d; they report different versions unless d contains it. */
  lemma TwoVersions(start: nat, id: u8, d: Datagram)
    requires Reportable(d)
    ensures ReportsVersion(At(start, Filler(0), d), start, id, d)
    ensures ReportsVersion(At(start, Filler(255), d), start, id, d)
    ensures |d| < 24 || |d| < VersionBytes(d) ==>
      VersionOf(VersionExchange(At(start, Filler(0), d), start, id).response)
      != VersionOf(VersionExchange(At(start, Filler(255), d), start, id).response)
  {
    hide Transact, Verdict, Filler, VersionOf, Commands.Made;
    var r: Response := Zeros(PACKET_BYTES);
    FillerAccepted(id, d, 0);
    FillerAccepted(id, d, 255);
    AcceptedAfterRefused(start, VersionRequest(id), r, Filler(0), d);
    AcceptedAfterRefused(start, VersionRequest(id), r, Filler(255), d);
    if |d| < 24 || |d| < VersionBytes(d) {
      FillersDiffer(d);
    }
  }

  lemma FillerAccepted(id: u8, d: Datagram, fill: u8)
    requires Acceptable(d)
    ensures |Filler(fill)| == PACKET_BYTES
    ensures Verdict(Received(Filler(fill)), Filler(fill), VersionRequest(id), false) == None
    ensures Verdict(Received(d), d + Filler(fill)[|d|..], VersionRequest(id), false) == Some(NoError)
    ensures DataLength(d + Filler(fill)[|d|..]) == MaxDataLength(d)
  {
    hide Commands.Prepared;
    Commands.PreparedDetermines(GET_VERSION, id, []);
    var f, x := Filler(fill), d + Filler(fill)[|d|..];
    assert BufferType(f) == 0x8001;
    assert x[2] == 0 && x[3] == 0x80 && x[8] == 51 && x[9] == 0;
    assert x[4] == (if |d| > 4 then d[4] else 0) && x[5] == (if |d| > 5 then d[5] else 0);
  }

  lemma FillersDiffer(d: Datagram)
    requires |d| < 24 || (|d| < 26 && |d| < VersionBytes(d))
    ensures |Filler(0)| == |Filler(255)| == PACKET_BYTES
    ensures VersionOf(d + Filler(0)[|d|..]) != VersionOf(d + Filler(255)[|d|..])
  {
    var x, y: Response := d + Filler(0)[|d|..], d + Filler(255)[|d|..];
    assert forall i | 0 <= i < 10 :: x[i] == y[i];
    if |d| < 24 {
      assert x[23] == 0 && y[23] == 255;
    } else {
      assert forall i | 0 <= i < 6 :: x[i] == d[i];
      assert x[25] == 0 && y[25] == 255;
    }
  }

  /** While every attempt was indecisive the buffer holds what would be refused again. */
  lemma {:induction false} StaysRefused(net: Network, start: nat, id: u8, n: nat)
    requires forall i | 0 <= i < n :: VerdictOf(net, start, VersionRequest(id), Zeros(PACKET_BYTES), false, i) == None
    ensures
      var b := BufferAfter(net, start, VersionRequest(id), Zeros(PACKET_BYTES), n);
      BufferType(b) != COMMAND_BUFFER_TYPE || CommandNumber(b) as int != VersionRequest(id)[4] as int
  {
    hide Commands.Made, BufferType, CommandNumber;
    if n == 0 {
      TypeOfZeros();
    } else {
      StaysRefused(net, start, id, n - 1);
      assert VerdictOf(net, start, VersionRequest(id), Zeros(PACKET_BYTES), false, n - 1) == None;
    }
  }

  lemma TypeOfZeros()
    ensures BufferType(Zeros(PACKET_BYTES)) == 0
  {
  }

  lemma NeverAccepted(net: Network, start: nat, id: u8, d: Datagram)
    requires !Acceptable(d)
    ensures !EndsWith(net, start, VersionRequest(id), Zeros(PACKET_BYTES), d)
  {
    hide RunAttempts, Commands.Prepared;
    Commands.PreparedDetermines(GET_VERSION, id, []);
    var q, r: Response := VersionRequest(id), Zeros(PACKET_BYTES);
    var x := Transact(net, start, q, r);
    if EndsWith(net, start, q, r, d) {
      StaysRefused(net, start, id, x.sends - 1);
      BufferStep(net, start, q, r, x.sends - 1);
      hide BufferAfter;
      var b := BufferAfter(net, start, q, r, x.sends - 1);
      assert x.response == d + b[|d|..];
      HeaderDecides(b, d, x.response);
    }
  }

  lemma HeaderDecides(b: Response, d: Datagram, x: Response)
    requires x == d + b[|d|..] && BufferType(x) == COMMAND_BUFFER_TYPE
    requires CommandNumber(x) as int == GET_VERSION as int && ErrorValue(x) == 0
    requires BufferType(b) != COMMAND_BUFFER_TYPE || CommandNumber(b) as int != GET_VERSION as int
    ensures Acceptable(d)
  {
    assert x[2] == 0 && x[3] == 0x80;
    assert forall i | |d| <= i < 10 :: x[i] == b[i];
  }

  lemma AcceptedIsFront(net: Network, start: nat, request: Request, r: Response, d: Datagram)
    requires EndsWith(net, start, request, r, d)
    ensures Transact(net, start, request, r).response[..|d|] == d
  {
    hide RunAttempts;
    AcceptedFront(net, start, request, r, false, Transact(net, start, request, r));
  }

  /** A full answer to command 52, and the bare header of one to GetVersion that claims 12 words. */
  function OtherAnswer(): Datagram {
    [12, 0, 0, 0x80, 10, 0, 0, 0, 52, 0] + Zeros(10) + [0x34, 0x12, 0x78, 0x56] + Zeros(PACKET_BYTES - 24)
  }

  function BareHeader(): Datagram {
    [12, 0, 0, 0x80, 10, 0, 0, 0, 51, 0] + Zeros(10)
  }

  /** It does happen: the first answer is refused, yet its data is reported as the version. */
  lemma StaleVersion(start: nat, id: u8)
    ensures
      var x := VersionExchange(At(start, OtherAnswer(), BareHeader()), start, id);
      && VersionError(x) == NoError && x.sends == 2
      && VersionOf(x.response).cpu0 == 0x1234 && VersionOf(x.response).cpu1 == 0x5678
  {
    hide Transact, OtherAnswer, BareHeader, Commands.Made;
    AnswersOfExample(VersionRequest(id), id);
    DatagramAccepted(OtherAnswer(), BareHeader(), VersionRequest(id));
    AcceptedAfterRefused(start, VersionRequest(id), Zeros(PACKET_BYTES), OtherAnswer(), BareHeader());
    VersionOfExample();
  }

  lemma AnswersOfExample(request: Request, id: u8)
    requires request == VersionRequest(id)
    ensures AcceptedAlone(BareHeader(), request) && |BareHeader()| == 20 && |OtherAnswer()| == PACKET_BYTES
    ensures Verdict(Received(OtherAnswer()), OtherAnswer(), request, false) == None
  {
    hide Commands.Prepared;
    Commands.PreparedDetermines(GET_VERSION, id, []);
    assert CommandNumber(OtherAnswer()) == 52;
  }

  lemma VersionOfExample()
    ensures
      var r: Response := BareHeader() + OtherAnswer()[20..];
      DataLength(r) == 2 && Word(r, 10) == 0x1234 && Word(r, 11) == 0x5678
  {
    var r: Response := BareHeader() + OtherAnswer()[20..];
    assert r[0] == 12 && r[1] == 0 && r[4] == 10 && r[5] == 0;
    assert r[20] == 0x34 && r[21] == 0x12 && r[22] == 0x78 && r[23] == 0x56;
  }

  // ---- find_mcpd_id ----

  /** The number of sends before id k is probed, when all smaller ids are. */
  function StartOf(net: Network, k: nat): nat
    requires k <= MAX_IDS
  {
    if k == 0 then 0 else StartOf(net, k - 1) + VersionExchange(net, StartOf(net, k - 1), k - 1).sends
  }

  function ProbeError(net: Network, k: nat): ErrorCode
    requires k < MAX_IDS
  {
    VersionError(VersionExchange(net, StartOf(net, k), k))
  }

  /** The id returned, the error thrown, or the exception when no id answers. */
  datatype Search = Found(id: nat) | Failed(ec: ErrorCode) | NothingFound

  method FindMcpdId(net: Network) returns (result: Search, sends: nat)
    ensures sends <= 256 * 5
    ensures IsSearch(net, result)
  {
    hide VersionError, VersionExchange;
    sends := 0;
    var id := 0;
    while id < MAX_IDS
      invariant id <= MAX_IDS && sends == StartOf(net, id) <= id * MAX_ATTEMPTS
      invariant forall j | 0 <= j < id :: ProbeError(net, j) == Device(ID_MISMATCH)
    {
      var ec, info, n := GetVersion(net, sends, id);
      assert n <= MAX_ATTEMPTS by { SendsAreFew(net, sends, id); }
      sends := sends + n;
      if ec == NoError {
        return Found(id), sends;
      }
      if ec != Device(ID_MISMATCH) {
        assert ProbeError(net, id) == ec && MismatchBelow(net, id);
        return Failed(ec), sends;
      }
      id := id + 1;
    }
    result := NothingFound;
  }

  lemma SendsAreFew(net: Network, start: nat, id: u8)
    ensures 1 <= VersionExchange(net, start, id).sends <= MAX_ATTEMPTS
  {
  }

  /** Every smaller id ended in a mismatch, and the result says how the last one probed ended. */
  ghost predicate IsSearch(net: Network, result: Search) {
    match result
    case Found(k) => k < MAX_IDS && ProbeError(net, k) == NoError && MismatchBelow(net, k)
    case Failed(ec) => exists k: nat | k < MAX_IDS ::
      ProbeError(net, k) == ec && ec != NoError && ec != Device(ID_MISMATCH) && MismatchBelow(net, k)
    case NothingFound => MismatchBelow(net, MAX_IDS)
  }

  ghost predicate MismatchBelow(net: Network, k: nat)
    requires k <= MAX_IDS
  {
    forall j: nat | j < k :: ProbeError(net, j) == Device(ID_MISMATCH)
  }

  /** The probes follow each other on one socket, each with one to five sends of its own. */
  lemma {:induction false} ProbesFollow(net: Network, k: nat)
    requires k < 256
    ensures k <= StartOf(net, k) <= 5 * k
    ensures StartOf(net, k) + 1 <= StartOf(net, k + 1) <= StartOf(net, k) + 5
    ensures StartOf(net, k + 1) == StartOf(net, k) + VersionExchange(net, StartOf(net, k), k).sends
  {
    hide VersionExchange;
    SendsAreFew(net, StartOf(net, k), k);
    if k > 0 {
      ProbesFollow(net, k - 1);
    }
  }

  /** The first id whose probe does not end in the device error 128 decides the search. */
  lemma SearchIs(net: Network, result: Search, k: nat)
    requires IsSearch(net, result) && k <= 256
    requires forall j | 0 <= j < k :: ProbeError(net, j) == Device(128)
    requires k < 256 ==> ProbeError(net, k) != Device(128)
    ensures result == if k == 256 then NothingFound
                      else if ProbeError(net, k) == NoError then Found(k) else Failed(ProbeError(net, k))
  {
    hide ProbeError;
    match result
    case Found(i) => assert i == k;
    case Failed(ec) =>
      var i: nat :| i < MAX_IDS && ProbeError(net, i) == ec && ec != NoError && ec != Device(ID_MISMATCH)
                    && MismatchBelow(net, i);
      assert i == k;
    case NothingFound => assert k == 256;
  }

  // ---- a device that answers ----

  /** A response with the given error byte, otherwise as the device likes: as long as it reaches
      behind cmd, and with two data words in its header if it is no error. */
  ghost predicate Answers(o: Outcome, error: u8) {
    && o.Received? && |o.bytes| >= 10
    && Word(o.bytes, 1) == COMMAND_BUFFER_TYPE
    && o.bytes[8] as int == GET_VERSION as int && o.bytes[9] == error
    && (error == 0 ==> Word(o.bytes, 0) as int - Word(o.bytes, 2) as int >= 2)
  }

  ghost predicate AnswersSoon(net: Network, n: nat, q: Request) {
    exists i: nat | n <= i < n + MAX_ATTEMPTS :: net(i, q).Received?
  }

  /** A device with id d accepts version requests for its own id and refuses those for others.
      A timeout is possible, but no five in a row. Other requests play no role. */
  ghost predicate DeviceWithId(net: Network, d: u8) {
    && (forall n: nat, id: u8 ::
          var o := net(n, VersionRequest(id));
          o == SendTimeout || o == ReceiveTimeout || Answers(o, if id == d then 0 else ID_MISMATCH))
    && (forall n: nat, id: u8 :: AnswersSoon(net, n, VersionRequest(id)))
  }

  lemma AnswerIsDecisive(net: Network, start: nat, id: u8, d: u8, i: nat)
    requires DeviceWithId(net, d)
    ensures var q := VersionRequest(id);
            var v := VerdictOf(net, start, q, Zeros(PACKET_BYTES), false, i);
            && (v.Some? <==> net(start + i, q).Received?)
            && (v.Some? ==> VerdictFits(v.value, BufferAfter(net, start, q, Zeros(PACKET_BYTES), i + 1), id == d))
  {
    hide Commands.Prepared;
    var q, r: Response := VersionRequest(id), Zeros(PACKET_BYTES);
    Commands.PreparedDetermines(GET_VERSION, id, []);
    var o := net(start + i, q);
    if o.Received? {
      var b := Overwrite(BufferAfter(net, start, q, r, i), o);
      assert forall j | 0 <= j < 10 :: b[j] == o.bytes[j];
    }
  }

  ghost predicate VerdictFits(ec: ErrorCode, r: Response, same: bool) {
    if same then ec == NoError && DataLength(r) >= 2 else ec == Device(ID_MISMATCH)
  }

  lemma ProbeOfDevice(net: Network, start: nat, id: u8, d: u8)
    requires DeviceWithId(net, d)
    ensures VersionError(VersionExchange(net, start, id)) == if id == d then NoError else Device(ID_MISMATCH)
  {
    hide RunAttempts, VerdictOf, BufferAfter, DataLength, Commands.Made, Answers;
    var q, x := VersionRequest(id), VersionExchange(net, start, id);
    assert AnswersSoon(net, start, q);
    var k: nat :| start <= k < start + MAX_ATTEMPTS && net(k, q).Received?;
    AnswerIsDecisive(net, start, id, d, k - start);
    AnswerIsDecisive(net, start, id, d, x.sends - 1);
    assert x.sends - 1 <= k - start;
  }

  /** Lost requests and responses do not mislead the search: it finds the device. */
  lemma SearchFindsDevice(net: Network, d: u8, result: Search)
    requires DeviceWithId(net, d) && IsSearch(net, result)
    ensures result == Found(d)
  {
    hide VersionError, VersionExchange, DeviceWithId;
    forall k: nat | k < MAX_IDS
      ensures ProbeError(net, k) == if k == d as int then NoError else Device(ID_MISMATCH)
    {
      ProbeOfDevice(net, StartOf(net, k), k, d);
    }
    var ec := ProbeError(net, d);
    assert result != NothingFound;
  }
}
