/** `tls_auth` (`tls1.0_session_auth`): a TLS 1.0 handshake whose ClientHello
    carries a time-stamped HMAC tag in its random field and the client's id as
    session id; the server checks time, tag and replay before admitting. */
module TlsAuth {
  import opened Wire
  import opened TlsWire
  import opened AuthState

  /** The method name whose fallback answers with the error sentinel. */
  const StrictMethod: string := "tls1.0_session_auth"

  /** The client's ClientHello: its auth tag in the random field, then its
      own 32-byte id as session id. */
  function AuthClientHello(mac: Mac, key: seq<byte>, clientId: Bytes32, now: nat, random18: seq<byte>): (r: seq<byte>)
    requires |random18| == 18
    ensures ParseAuthHello(r, Tls10) == Parsed(PackAuthData(mac, key, clientId, now, random18), clientId)
  {
    var tag := PackAuthData(mac, key, clientId, now, random18);
    AuthHelloParses(Tls10, tag, clientId, AuthHelloTail);
    Handshake(Tls10, ClientHelloType, AuthHelloBody(Tls10, tag, clientId, AuthHelloTail))
  }

  class TlsAuth {
    const methodName: string
    /** The shared secret (`server_info.key`). */
    const key: seq<byte>
    /** Truncated HMAC-SHA1. */
    const mac: Mac
    /** The per-server context shared by all connections (`server_info.data`). */
    const data: AuthData
    var hasSentHeader: bool
    var hasRecvHeader: bool
    var rawTransSent: bool
    var rawTransRecv: bool
    var sendBuffer: seq<byte>
    /** On the server, the session id of the last parsed ClientHello. */
    var clientId: seq<byte>

    /** A session id never exceeds what a one-byte length can announce. */
    ghost predicate Valid()
      reads this
    {
      |clientId| < 0x100
    }

    constructor(methodName: string, key: seq<byte>, mac: Mac, data: AuthData)
      ensures this.methodName == methodName && this.key == key && this.mac == mac && this.data == data
      ensures !hasSentHeader && !hasRecvHeader && !rawTransSent && !rawTransRecv
      ensures sendBuffer == [] && clientId == [] && Valid()
    {
      this.methodName := methodName;
      this.key := key;
      this.mac := mac;
      this.data := data;
      hasSentHeader := false;
      hasRecvHeader := false;
      rawTransSent := false;
      rawTransRecv := false;
      sendBuffer := [];
      clientId := [];
    }

    /** `client_encode`: the first call sends the authenticated ClientHello
        and keeps the payload; once the server's flight has been checked, the
        next call sends ChangeCipherSpec + Finished (HMAC under the client's
        id) followed by every kept payload; afterwards payloads pass. */
    method ClientEncode(buf: seq<byte>, now: nat, random18: seq<byte>, random22: seq<byte>) returns (r: seq<byte>)
      requires |random18| == 18 && |random22| == 22
      modifies this`hasSentHeader, this`sendBuffer, this`rawTransSent
      ensures hasSentHeader || old(rawTransSent)
      ensures old(rawTransSent) ==> r == buf && unchanged(this)
      ensures !old(rawTransSent) && !old(hasSentHeader) ==>
        && r == AuthClientHello(mac, key, data.clientId, now, random18)
        && sendBuffer == old(sendBuffer) + buf && !rawTransSent
      ensures !old(rawTransSent) && old(hasSentHeader) && hasRecvHeader ==>
        && r == FinishedFlight(mac, key, data.clientId, Tls10, random22) + old(sendBuffer) + buf
        && sendBuffer == [] && rawTransSent
      ensures !old(rawTransSent) && old(hasSentHeader) && !hasRecvHeader ==>
        r == [] && sendBuffer == old(sendBuffer) + buf && !rawTransSent
    {
      if rawTransSent {
        return buf;
      }
      sendBuffer := sendBuffer + buf;
      if !hasSentHeader {
        hasSentHeader := true;
        return AuthClientHello(mac, key, data.clientId, now, random18);
      }
      if hasRecvHeader {
        r := FinishedFlight(mac, key, data.clientId, Tls10, random22) + sendBuffer;
        sendBuffer := [];
        rawTransSent := true;
        return;
      }
      r := [];
    }

    /** `client_decode`: the server's first flight must carry a tag made with
        the client's own id, or the call fails hard; after it, bytes pass. */
    method ClientDecode(buf: seq<byte>) returns (r: Result<ClientDecoded>)
      modifies this`hasRecvHeader
      ensures old(hasRecvHeader) ==> r == Ok(ClientDecoded(buf, false)) && hasRecvHeader
      ensures !old(hasRecvHeader) ==>
        && (r.Ok? <==> ServerHelloAuthentic(buf, mac, key, data.clientId))
        && (r.Ok? ==> r.value == ClientDecoded([], true) && hasRecvHeader)
        && (r.Err? ==> r.error == DataError && !hasRecvHeader)
    {
      if hasRecvHeader {
        return Ok(ClientDecoded(buf, false));
      }
      if !ServerHelloAuthentic(buf, mac, key, data.clientId) {
        return Err(DataError);
      }
      hasRecvHeader := true;
      r := Ok(ClientDecoded([], true));
    }

    /** `server_encode`: the first call answers with ServerHello (tag and
        echoed session id), ChangeCipherSpec and Finished, all closed by an
        HMAC under the client's id; the payload itself is not sent. */
    method ServerEncode(buf: seq<byte>, now: nat, random18: seq<byte>, random22: seq<byte>) returns (r: seq<byte>)
      requires Valid() && |random18| == 18 && |random22| == 22
      modifies this`hasSentHeader
      ensures old(rawTransSent || hasSentHeader) ==> r == buf && hasSentHeader == old(hasSentHeader)
      ensures !old(rawTransSent || hasSentHeader) ==> hasSentHeader
      ensures !old(rawTransSent || hasSentHeader) ==>
        r == ServerFlight(mac, key, clientId, Tls10, PackAuthData(mac, key, clientId, now, random18), AuthHelloTail, random22)
    {
      if rawTransSent || hasSentHeader {
        return buf;
      }
      hasSentHeader := true;
      r := ServerFlight(mac, key, clientId, Tls10, PackAuthData(mac, key, clientId, now, random18), AuthHelloTail, random22);
    }

    /** `decode_error_return`: both directions become raw pass-through. */
    method DecodeErrorReturn(buf: seq<byte>) returns (r: ServerDecoded)
      modifies this`rawTransSent, this`rawTransRecv
      ensures rawTransSent && rawTransRecv
      ensures r == Fallback(methodName == StrictMethod, buf)
    {
      rawTransSent := true;
      rawTransRecv := true;
      if methodName == StrictMethod {
        r := ServerDecoded(ErrorSentinel, false, false);
      } else {
        r := ServerDecoded(buf, true, false);
      }
    }

    /** `server_decode`. The first inbound bytes must be an admissible
        ClientHello: the server remembers its tag (after sweeping expired
        entries) and asks for a reply; anything else falls back on the whole
        buffer, except a buffer so short that parsing raises. The next bytes
        must be the client's Finished flight, checked under the session id;
        after it every byte passes. */
    method ServerDecode(buf: seq<byte>, now: nat, expired: set<seq<byte>>) returns (r: Result<ServerDecoded>)
      requires Valid()
      modifies this`hasRecvHeader, this`rawTransSent, this`rawTransRecv, this`clientId, data`clientData
      ensures Valid()
      ensures old(rawTransRecv) ==> r == Ok(ServerDecoded(buf, true, false)) && unchanged(this) && unchanged(data)
      ensures !old(rawTransRecv) && old(hasRecvHeader) ==>
        && unchanged(data) && clientId == old(clientId) && hasRecvHeader
        && (r.Ok? <==> CheckFinished(buf, mac, key, clientId, Tls10).Ok?)
        && (r.Ok? ==> r.value == ServerDecoded(CheckFinished(buf, mac, key, clientId, Tls10).value, true, false) && rawTransRecv)
        && rawTransSent == old(rawTransSent)
        && (r.Err? ==> r.error == DataError && rawTransRecv == old(rawTransRecv))
      ensures !old(rawTransRecv) && !old(hasRecvHeader) ==>
        var v := Verdict(buf, Tls10, mac, key, now, data.startupTime, old(data.clientData));
        && hasRecvHeader
        && (r == Ok(ServerDecoded([], false, true)) <==> v.Admitted?)
        && (v.Admitted? ==>
              && clientId == v.sessionId && unchanged(this`rawTransSent, this`rawTransRecv)
              && data.clientData == (old(data.clientData) - expired)[ParseAuthHello(buf, Tls10).verifyId[..22] := v.sessionId])
        && (v.Refused? ==> clientId == v.sessionId)
        && (v.Unparsed? ==> clientId == old(clientId))
        && (v.Refused? || v.Unparsed? ==>
              r == Ok(Fallback(methodName == StrictMethod, buf)) && rawTransSent && rawTransRecv && unchanged(data))
        && (v.Raised? ==>
              r == Err(v.error) && clientId == old(clientId) && unchanged(data)
              && unchanged(this`rawTransSent, this`rawTransRecv))
    {
      if rawTransRecv {
        return Ok(ServerDecoded(buf, true, false));
      }
      if hasRecvHeader {
        var finished := CheckFinished(buf, mac, key, clientId, Tls10);
        if finished.Err? {
          return Err(finished.error);
        }
        rawTransRecv := true;
        return Ok(ServerDecoded(finished.value, true, false));
      }
      hasRecvHeader := true;
      var verdict := data.CheckHello(buf, Tls10, mac, key, now, expired);
      match verdict
      case Raised(e) =>
        r := Err(e);
      case Unparsed =>
        var fallback := DecodeErrorReturn(buf);
        r := Ok(fallback);
      case Refused(sessionId) =>
        clientId := sessionId;
        var fallback := DecodeErrorReturn(buf);
        r := Ok(fallback);
      case Admitted(sessionId) =>
        clientId := sessionId;
        r := Ok(ServerDecoded([], false, true));
    }
  }

  /** A whole session between a client and a server that share the key and
      start with the clocks in step: after the greeting, the client's next
      call sends its Finished flight followed by every kept payload, and the
      server hands those payloads on in order. */
  method Session(methodName: string, mac: Mac, key: seq<byte>, clientRandom: Bytes32, serverRandom: Bytes32,
                 startedAt: nat, now: nat, random18: seq<byte>, random22: seq<byte>,
                 p1: seq<byte>, p2: seq<byte>, expired: set<seq<byte>>)
    returns (sent: seq<byte>, received: Result<ServerDecoded>)
    requires |random18| == 18 && |random22| == 22
    requires StartupBackdate <= startedAt <= now < 0x8000_0000
    ensures sent == FinishedFlight(mac, key, clientRandom, Tls10, random22) + p1 + p2
    ensures received == Ok(ServerDecoded(p1 + p2, true, false))
  {
    var client, server, _, _ :=
      Greeting(methodName, mac, key, clientRandom, serverRandom, startedAt, now, random18, random22, p1, expired);
    sent := client.ClientEncode(p2, now, random18, random22);
    var finished := FinishedFlight(mac, key, clientRandom, Tls10, random22);
    assert sent == finished + (p1 + p2);
    FinishedRoundTrip(mac, key, clientRandom, Tls10, random22, p1 + p2);
    received := server.ServerDecode(sent, now, expired);
  }

  /** The greeting: the client sends its ClientHello and keeps the payload,
      the server admits the hello and answers with its flight, and the client
      accepts that flight. */
  method Greeting(methodName: string, mac: Mac, key: seq<byte>, clientRandom: Bytes32, serverRandom: Bytes32,
                  startedAt: nat, now: nat, random18: seq<byte>, random22: seq<byte>,
                  p1: seq<byte>, expired: set<seq<byte>>)
    returns (client: TlsAuth, server: TlsAuth, admitted: Result<ServerDecoded>, answered: Result<ClientDecoded>)
    requires |random18| == 18 && |random22| == 22
    requires StartupBackdate <= startedAt <= now < 0x8000_0000
    ensures admitted == Ok(ServerDecoded([], false, true))
    ensures answered == Ok(ClientDecoded([], true))
    ensures fresh(client) && fresh(server) && fresh(server.data) && client != server
    ensures client.key == key && client.mac == mac && client.data.clientId == clientRandom
    ensures client.sendBuffer == p1 && client.hasSentHeader && client.hasRecvHeader && !client.rawTransSent
    ensures server.key == key && server.mac == mac && server.Valid()
    ensures server.clientId == clientRandom && server.hasRecvHeader && !server.rawTransRecv
  {
    var hello, tag;
    client, hello, tag := OpenClient(methodName, mac, key, clientRandom, startedAt, now, random18, random22, p1);
    server, admitted := Admit(methodName, mac, key, serverRandom, startedAt, now, hello, tag, clientRandom, expired);
    var flight := Answer(server, now, random18, random22);
    answered := client.ClientDecode(flight);
  }

  /** A fresh client sends its ClientHello, which parses to its own tag and
      id, and keeps the payload. */
  method OpenClient(methodName: string, mac: Mac, key: seq<byte>, clientRandom: Bytes32, startedAt: nat, now: nat,
                    random18: seq<byte>, random22: seq<byte>, p1: seq<byte>)
    returns (client: TlsAuth, hello: seq<byte>, tag: seq<byte>)
    requires |random18| == 18 && |random22| == 22
    ensures hello == AuthClientHello(mac, key, clientRandom, now, random18)
    ensures ParseAuthHello(hello, Tls10) == Parsed(tag, clientRandom)
    ensures |tag| == 32 && Be32At(tag, 0) == now % 0x1_0000_0000 && TagOk(mac, key, clientRandom, tag)
    ensures fresh(client) && client.key == key && client.mac == mac && client.data.clientId == clientRandom
    ensures client.sendBuffer == p1 && client.hasSentHeader && !client.hasRecvHeader && !client.rawTransSent
  {
    var clientData := new AuthData(clientRandom, startedAt);
    client := new TlsAuth(methodName, key, mac, clientData);
    hello := client.ClientEncode(p1, now, random18, random22);
    tag := PackAuthData(mac, key, clientRandom, now, random18);
  }

  /** A server that has admitted a hello answers with a flight that the
      client holding the session id accepts. */
  method Answer(server: TlsAuth, now: nat, random18: seq<byte>, random22: seq<byte>) returns (flight: seq<byte>)
    requires server.Valid() && !server.hasSentHeader && !server.rawTransSent
    requires |random18| == 18 && |random22| == 22
    modifies server`hasSentHeader
    ensures ServerHelloAuthentic(flight, server.mac, server.key, server.clientId)
  {
    flight := server.ServerEncode([], now, random18, random22);
    ServerFlightAuthentic(server.mac, server.key, server.clientId, Tls10, now, random18, AuthHelloTail, random22);
  }

  /** A fresh server admits a hello that parses to a well-made tag of the
      current time, remembers the tag and takes the session id as client id. */
  method Admit(methodName: string, mac: Mac, key: seq<byte>, serverRandom: Bytes32, startedAt: nat, now: nat,
               hello: seq<byte>, tag: seq<byte>, sessionId: seq<byte>, expired: set<seq<byte>>)
    returns (server: TlsAuth, admitted: Result<ServerDecoded>)
    requires ParseAuthHello(hello, Tls10) == Parsed(tag, sessionId)
    requires |tag| == 32 && Be32At(tag, 0) == now % 0x1_0000_0000 && TagOk(mac, key, sessionId, tag)
    requires StartupBackdate <= startedAt <= now < 0x8000_0000
    ensures fresh(server) && fresh(server.data) && server.Valid()
    ensures server.methodName == methodName && server.key == key && server.mac == mac
    ensures server.clientId == sessionId && server.hasRecvHeader && !server.rawTransRecv
    ensures !server.hasSentHeader && !server.rawTransSent
    ensures server.data.clientData == map[tag[..22] := sessionId]
    ensures admitted == Ok(ServerDecoded([], false, true))
  {
    var serverData := new AuthData(serverRandom, startedAt);
    server := new TlsAuth(methodName, key, mac, serverData);
    ClocksInStep(startedAt, now);
    assert Admissible(hello, Tls10, mac, key, now, serverData.startupTime, serverData.clientData);
    admitted := server.ServerDecode(hello, now, expired);
    var empty: map<seq<byte>, seq<byte>> := map[];
    assert empty - expired == empty;
  }

  /** The same ClientHello replayed on a second connection to the same server
      falls back, whatever the clock says. */
  method Replay(methodName: string, mac: Mac, key: seq<byte>, serverRandom: Bytes32, clientRandom: Bytes32,
                startedAt: nat, now: nat, later: nat, random18: seq<byte>, expired: set<seq<byte>>)
    returns (admitted: Result<ServerDecoded>, replayed: Result<ServerDecoded>)
    requires |random18| == 18
    requires StartupBackdate <= startedAt <= now < 0x8000_0000
    ensures admitted == Ok(ServerDecoded([], false, true))
    ensures replayed == Ok(Fallback(methodName == StrictMethod, AuthClientHello(mac, key, clientRandom, now, random18)))
  {
    var hello := AuthClientHello(mac, key, clientRandom, now, random18);
    var tag := PackAuthData(mac, key, clientRandom, now, random18);
    var server;
    server, admitted := Admit(methodName, mac, key, serverRandom, startedAt, now, hello, tag, clientRandom, expired);
    var second := new TlsAuth(methodName, key, mac, server.data);
    ReplayRefused(hello, Tls10, mac, key, later, server.data.startupTime, server.data.clientData);
    replayed := second.ServerDecode(hello, later, {});
  }
}
