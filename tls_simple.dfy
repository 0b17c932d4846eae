/** `tls_simple`: an unauthenticated, purely cosmetic TLS 1.0 ClientHello /
    ServerHello exchange, after which both directions are raw. */
module TlsSimple {
  import opened Wire
  import opened TlsWire

  /** The method name whose fallback answers with the error sentinel. */
  const StrictMethod: string := "tls_simple"

  /** The fixed ClientHello tail: an empty session id, then the same cipher
      suites and extensions as `tls_auth`. */
  const SimpleHelloTail: seq<byte> := [0x00] + AuthHelloTail

  /** The client's only handshake message. */
  function ClientHello(random32: seq<byte>): (r: seq<byte>)
    requires |random32| == 32
    ensures |r| == 43 + |SimpleHelloTail| && r[9..11] == Tls10 && r[11..43] == random32
    ensures r[43..] == SimpleHelloTail
  {
    var body := Tls10 + random32 + SimpleHelloTail;
    assert body[..2] == Tls10 && body[2..34] == random32 && body[34..] == SimpleHelloTail;
    Handshake(Tls10, ClientHelloType, body)
  }

  /** The server's only handshake message. */
  function ServerHello(random32: seq<byte>): (r: seq<byte>)
    requires |random32| == 32
    ensures |r| == 43 && r[..3] == [0x16] + Tls10 && Be16At(r, 3) == 38
    ensures r[5..7] == [ServerHelloType, 0x00] && Be16At(r, 7) == 34
    ensures r[9..11] == Tls10 && r[11..] == random32
  {
    Handshake(Tls10, ServerHelloType, Tls10 + random32)
  }

  /** Every ClientHello the client can send has the shape the server accepts. */
  lemma ClientHelloAccepted(random32: seq<byte>)
    requires |random32| == 32
    ensures HelloShape(ClientHello(random32), Tls10)
    ensures UnwrapHello(ClientHello(random32), Tls10).Framed?
  {
    UnwrapHelloExactly(ClientHello(random32), Tls10);
  }

  class TlsSimple {
    const methodName: string
    var hasSentHeader: bool
    var hasRecvHeader: bool
    var rawTransSent: bool
    var sendBuffer: seq<byte>

    /** Once the client has flushed, nothing is buffered any more. */
    ghost predicate Valid()
      reads this
    {
      rawTransSent ==> hasSentHeader && hasRecvHeader && sendBuffer == []
    }

    constructor(methodName: string)
      ensures this.methodName == methodName && Valid()
      ensures !hasSentHeader && !hasRecvHeader && !rawTransSent && sendBuffer == []
    {
      this.methodName := methodName;
      hasSentHeader := false;
      hasRecvHeader := false;
      rawTransSent := false;
      sendBuffer := [];
    }

    /** `client_encode`: the first call sends the ClientHello and keeps the
        payload; until the server's answer has been decoded further payloads
        are only kept; the first call after it sends everything kept, in order,
        and from then on payloads go out unchanged. */
    method ClientEncode(buf: seq<byte>, random32: seq<byte>) returns (r: seq<byte>)
      requires Valid() && |random32| == 32
      modifies this`hasSentHeader, this`sendBuffer, this`rawTransSent
      ensures Valid() && hasSentHeader
      ensures old(rawTransSent) ==> r == buf && unchanged(this)
      ensures !old(rawTransSent) && !old(hasSentHeader) ==>
        r == ClientHello(random32) && sendBuffer == old(sendBuffer) + buf && !rawTransSent
      ensures !old(rawTransSent) && old(hasSentHeader) && hasRecvHeader ==>
        r == old(sendBuffer) + buf && sendBuffer == [] && rawTransSent
      ensures !old(rawTransSent) && old(hasSentHeader) && !hasRecvHeader ==>
        r == [] && sendBuffer == old(sendBuffer) + buf && !rawTransSent
    {
      if rawTransSent {
        return buf;
      }
      sendBuffer := sendBuffer + buf;
      if !hasSentHeader {
        hasSentHeader := true;
        return ClientHello(random32);
      }
      if hasRecvHeader {
        r := sendBuffer;
        sendBuffer := [];
        rawTransSent := true;
        return;
      }
      r := [];
    }

    /** `client_decode`: the first inbound bytes are the server's answer and
        are swallowed, asking the caller to encode again; later bytes pass. */
    method ClientDecode(buf: seq<byte>) returns (r: ClientDecoded)
      requires Valid()
      modifies this`hasRecvHeader
      ensures Valid() && hasRecvHeader
      ensures old(hasRecvHeader) ==> r == ClientDecoded(buf, false)
      ensures !old(hasRecvHeader) ==> r == ClientDecoded([], true)
    {
      if hasRecvHeader {
        return ClientDecoded(buf, false);
      }
      hasRecvHeader := true;
      r := ClientDecoded([], true);
    }

    /** `server_encode`: the first call answers with the ServerHello (the
        payload is not sent); later calls pass payloads unchanged. */
    method ServerEncode(buf: seq<byte>, random32: seq<byte>) returns (r: seq<byte>)
      requires Valid() && |random32| == 32
      modifies this`hasSentHeader
      ensures Valid() && hasSentHeader
      ensures old(hasSentHeader) ==> r == buf
      ensures !old(hasSentHeader) ==> r == ServerHello(random32)
    {
      if hasSentHeader {
        return buf;
      }
      hasSentHeader := true;
      r := ServerHello(random32);
    }

    /** `decode_error_return`: marks the header as sent, so that from now on
        `ServerEncode` passes payloads unchanged. */
    method DecodeErrorReturn(buf: seq<byte>) returns (r: ServerDecoded)
      requires Valid()
      modifies this`hasSentHeader
      ensures Valid() && hasSentHeader
      ensures r == Fallback(methodName == StrictMethod, buf)
    {
      hasSentHeader := true;
      if methodName == StrictMethod {
        r := ServerDecoded(ErrorSentinel, false, false);
      } else {
        r := ServerDecoded(buf, true, false);
      }
    }

    /** `server_decode`: the first inbound bytes must be a ClientHello header
        of the right shape; a mismatch falls back with the buffer as sliced at
        the failing check, and a buffer too short to hold a length field
        raises. Later bytes pass unchanged. */
    method ServerDecode(buf: seq<byte>) returns (r: Result<ServerDecoded>)
      requires Valid()
      modifies this`hasRecvHeader, this`hasSentHeader
      ensures Valid() && hasRecvHeader
      ensures old(hasRecvHeader) ==> r == Ok(ServerDecoded(buf, true, false)) && unchanged(this)
      ensures !old(hasRecvHeader) ==>
        (r == Ok(ServerDecoded([], false, true)) <==> HelloShape(buf, Tls10))
      ensures !old(hasRecvHeader) ==> match UnwrapHello(buf, Tls10)
        case Framed(_) => hasSentHeader == old(hasSentHeader)
        case Mismatch(at) => r == Ok(Fallback(methodName == StrictMethod, at)) && hasSentHeader
        case Crash(e) => r == Err(e) && hasSentHeader == old(hasSentHeader)
    {
      if hasRecvHeader {
        return Ok(ServerDecoded(buf, true, false));
      }
      hasRecvHeader := true;
      UnwrapHelloExactly(buf, Tls10);
      match UnwrapHello(buf, Tls10)
      case Crash(e) =>
        r := Err(e);
      case Mismatch(at) =>
        var fallback := DecodeErrorReturn(at);
        r := Ok(fallback);
      case Framed(_) =>
        r := Ok(ServerDecoded([], false, true));
    }
  }

  /** A client session: two payloads are kept behind the ClientHello, the
      server's answer is swallowed, the next call sends all three payloads in
      order, and a fourth goes out unchanged. */
  method ClientSession(methodName: string, random32: seq<byte>, answer: seq<byte>,
                       p1: seq<byte>, p2: seq<byte>, p3: seq<byte>, p4: seq<byte>)
    returns (out1: seq<byte>, out2: seq<byte>, decoded: ClientDecoded, out3: seq<byte>, out4: seq<byte>)
    requires |random32| == 32
    ensures out1 == ClientHello(random32) && out2 == []
    ensures decoded == ClientDecoded([], true)
    ensures out3 == p1 + p2 + p3 && out4 == p4
  {
    var client := new TlsSimple(methodName);
    out1 := client.ClientEncode(p1, random32);
    out2 := client.ClientEncode(p2, random32);
    decoded := client.ClientDecode(answer);
    out3 := client.ClientEncode(p3, random32);
    out4 := client.ClientEncode(p4, random32);
  }

  /** A server session: a fresh server accepts any client's ClientHello and
      asks for a reply, answers with its ServerHello, and after that passes
      bytes unchanged in both directions. */
  method ServerSession(methodName: string, clientRandom: seq<byte>, serverRandom: seq<byte>,
                       inbound: seq<byte>, outbound: seq<byte>)
    returns (accepted: Result<ServerDecoded>, hello: seq<byte>, later: Result<ServerDecoded>, sent: seq<byte>)
    requires |clientRandom| == 32 && |serverRandom| == 32
    ensures accepted == Ok(ServerDecoded([], false, true))
    ensures hello == ServerHello(serverRandom)
    ensures later == Ok(ServerDecoded(inbound, true, false)) && sent == outbound
  {
    var server := new TlsSimple(methodName);
    ClientHelloAccepted(clientRandom);
    accepted := server.ServerDecode(ClientHello(clientRandom));
    hello := server.ServerEncode([], serverRandom);
    later := server.ServerDecode(inbound);
    sent := server.ServerEncode(outbound, serverRandom);
  }

  /** After a mismatch the server passes everything unchanged, whatever the
      method: the compatible answer drops 0, 3, 5 or 7 leading bytes. */
  method MismatchSession(methodName: string, first: seq<byte>, inbound: seq<byte>, outbound: seq<byte>, random32: seq<byte>)
    returns (fallback: Result<ServerDecoded>, later: Result<ServerDecoded>, sent: seq<byte>)
    requires |random32| == 32 && UnwrapHello(first, Tls10).Mismatch?
    ensures fallback.Ok? && !fallback.value.sendBack
    ensures methodName == StrictMethod ==> fallback.value == ServerDecoded(ErrorSentinel, false, false)
    ensures methodName != StrictMethod ==>
      && fallback.value.needDecrypt
      && |first| - |fallback.value.data| in {0, 3, 5, 7}
      && fallback.value.data == first[|first| - |fallback.value.data|..]
    ensures later == Ok(ServerDecoded(inbound, true, false)) && sent == outbound
  {
    var server := new TlsSimple(methodName);
    fallback := server.ServerDecode(first);
    later := server.ServerDecode(inbound);
    sent := server.ServerEncode(outbound, random32);
  }
}
