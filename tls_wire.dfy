/** Pieces shared by the TLS-shaped obfuscators: the handshake record framing,
    the server's ClientHello header checks, the 32-byte auth tag, the
    ChangeCipherSpec + Finished flight and the server's answer. Layouts follow
    the record layer of section 6.2.1 of RFC 5246 and the handshake header of
    section 7.4 of RFC 5246 only as far as a passive observer sees them. */
module TlsWire {
  import opened Wire

  const Tls10: seq<byte> := [0x03, 0x01]
  const Tls12: seq<byte> := [0x03, 0x03]

  const ClientHelloType: byte := 0x01
  const ServerHelloType: byte := 0x02

  /** Largest accepted clock difference in seconds (`max_time_dif`). */
  const MaxTimeDif: int := 60 * 60

  /** Cipher suites and extensions that follow the session id in the
      `tls_auth` ClientHello and ServerHello; opaque to every check. */
  const AuthHelloTail: seq<byte> := [
    0x00, 0x16, 0xc0, 0x2b, 0xc0, 0x2f, 0xc0, 0x0a, 0xc0, 0x09, 0xc0, 0x13, 0xc0, 0x14, 0x00, 0x33,
    0x00, 0x39, 0x00, 0x2f, 0x00, 0x35, 0x00, 0x0a, 0x01, 0x00, 0x00, 0x6f, 0xff, 0x01, 0x00, 0x01,
    0x00, 0x00, 0x0a, 0x00, 0x08, 0x00, 0x06, 0x00, 0x17, 0x00, 0x18, 0x00, 0x19, 0x00, 0x0b, 0x00,
    0x02, 0x01, 0x00, 0x00, 0x23, 0x00, 0x00, 0x33, 0x74, 0x00, 0x00, 0x00, 0x10, 0x00, 0x29, 0x00,
    0x27, 0x05, 0x68, 0x32, 0x2d, 0x31, 0x36, 0x05, 0x68, 0x32, 0x2d, 0x31, 0x35, 0x05, 0x68, 0x32,
    0x2d, 0x31, 0x34, 0x02, 0x68, 0x32, 0x08, 0x73, 0x70, 0x64, 0x79, 0x2f, 0x33, 0x2e, 0x31, 0x08,
    0x68, 0x74, 0x74, 0x70, 0x2f, 0x31, 0x2e, 0x31, 0x00, 0x05, 0x00, 0x05, 0x01, 0x00, 0x00, 0x00,
    0x00, 0x00, 0x0d, 0x00, 0x16, 0x00, 0x14, 0x04, 0x01, 0x05, 0x01, 0x06, 0x01, 0x02, 0x01, 0x04,
    0x03, 0x05, 0x03, 0x06, 0x03, 0x02, 0x03, 0x04, 0x02, 0x02, 0x02]

  /** A handshake message in a handshake record:
      `16 ‖ version ‖ BE16(n + 4) ‖ type ‖ 00 ‖ BE16(n) ‖ body` with n = |body|. */
  function Handshake(recordVersion: seq<byte>, msgType: byte, body: seq<byte>): (r: seq<byte>)
    requires |recordVersion| == 2 && |body| + 4 < 0x1_0000
    ensures |r| == |body| + 9 && r[9..] == body
    ensures r[..3] == [0x16] + recordVersion && Be16At(r, 3) == |r| - 5
    ensures r[5..7] == [msgType, 0x00] && Be16At(r, 7) == |r| - 9
  {
    var message := [msgType, 0x00] + Be16(|body|) + body;
    [0x16] + recordVersion + Be16(|message|) + message
  }

  /** Outcome of the header checks every `server_decode` starts with. */
  datatype Unwrapped =
    | Framed(body: seq<byte>)   // all four checks passed; what follows the handshake header
    | Mismatch(at: seq<byte>)   // a check failed; the buffer as sliced when it failed
    | Crash(error: Error)       // `struct.unpack` on fewer than 2 bytes

  /** The server's ClientHello header checks, slicing as it goes: record type
      and version, record length, handshake type `01 00`, handshake length. */
  function UnwrapHello(buf: seq<byte>, recordVersion: seq<byte>): (r: Unwrapped)
    requires |recordVersion| == 2
    ensures r.Mismatch? ==> |buf| - |r.at| in {0, 3, 5, 7} && r.at == buf[|buf| - |r.at|..]
    ensures r.Framed? ==> |buf| >= 9 && r.body == buf[9..]
    ensures r.Crash? ==> r.error == StructError && |buf| < 9
    // which check fails, and what it hands on
    ensures !MatchBegin(buf, [0x16] + recordVersion) ==> r == Mismatch(buf)
    ensures (MatchBegin(buf, [0x16] + recordVersion) && |buf| >= 5 && Be16At(buf, 3) != |buf| - 5)
            ==> r == Mismatch(buf[3..])
    ensures (MatchBegin(buf, [0x16] + recordVersion) && |buf| >= 5 && Be16At(buf, 3) == |buf| - 5
             && !MatchBegin(buf[5..], [ClientHelloType, 0x00]))
            ==> r == Mismatch(buf[5..])
    ensures (MatchBegin(buf, [0x16] + recordVersion) && |buf| >= 9 && Be16At(buf, 3) == |buf| - 5
             && buf[5..7] == [ClientHelloType, 0x00] && Be16At(buf, 7) != |buf| - 9)
            ==> r == Mismatch(buf[7..])
    // a length field cut short raises
    ensures r.Crash? <==>
      (MatchBegin(buf, [0x16] + recordVersion)
       && (|buf| < 5 || (7 <= |buf| < 9 && Be16At(buf, 3) == |buf| - 5 && buf[5..7] == [ClientHelloType, 0x00])))
  {
    if !MatchBegin(buf, [0x16] + recordVersion) then Mismatch(buf)
    else
      var afterType := buf[3..];
      if |afterType| < 2 then Crash(StructError)
      else if Be16At(afterType, 0) != |afterType| - 2 then Mismatch(afterType)
      else
        var message := afterType[2..];
        if !MatchBegin(message, [ClientHelloType, 0x00]) then Mismatch(message)
        else
          var afterMsgType := message[2..];
          if |afterMsgType| < 2 then Crash(StructError)
          else if Be16At(afterMsgType, 0) != |afterMsgType| - 2 then Mismatch(afterMsgType)
          else Framed(afterMsgType[2..])
  }

  /** The acceptable ClientHello header, read off the whole buffer: it starts
      with `16 ‖ version`, the BE16 at offset 3 is `|buf| - 5`, `01 00` sits at
      offset 5 and the BE16 at offset 7 is `|buf| - 9`. */
  predicate HelloShape(buf: seq<byte>, recordVersion: seq<byte>)
    requires |recordVersion| == 2
  {
    |buf| >= 9 && buf[..3] == [0x16] + recordVersion && Be16At(buf, 3) == |buf| - 5
    && buf[5..7] == [ClientHelloType, 0x00] && Be16At(buf, 7) == |buf| - 9
  }

  /** The sliced checks accept exactly the buffers of the right shape. */
  lemma UnwrapHelloExactly(buf: seq<byte>, recordVersion: seq<byte>)
    requires |recordVersion| == 2
    ensures UnwrapHello(buf, recordVersion).Framed? <==> HelloShape(buf, recordVersion)
  {
    if HelloShape(buf, recordVersion) {
      assert buf[3..][..2] == buf[3..5];
      assert Be16At(buf[3..], 0) == Be16At(buf, 3);
      assert buf[5..][..2] == buf[5..7];
      assert Be16At(buf[7..], 0) == Be16At(buf, 7);
    }
    if UnwrapHello(buf, recordVersion).Framed? {
      assert Be16At(buf[3..], 0) == Be16At(buf, 3);
      assert buf[5..][..2] == buf[5..7];
      assert Be16At(buf[7..], 0) == Be16At(buf, 7);
    }
  }

  /** A ClientHello built with `Handshake` passes the header checks with its
      body intact. */
  lemma HandshakeUnwraps(recordVersion: seq<byte>, body: seq<byte>)
    requires |recordVersion| == 2 && |body| + 4 < 0x1_0000
    ensures UnwrapHello(Handshake(recordVersion, ClientHelloType, body), recordVersion) == Framed(body)
  {
    var h := Handshake(recordVersion, ClientHelloType, body);
    UnwrapHelloExactly(h, recordVersion);
  }

  /** `pack_auth_data`: BE32 of the time, 18 random bytes, then the truncated
      HMAC of those 22 bytes under `key ‖ clientId`. */
  function PackAuthData(mac: Mac, key: seq<byte>, clientId: seq<byte>, now: nat, random18: seq<byte>): (r: seq<byte>)
    requires |random18| == 18
    ensures |r| == 32 && Be32At(r, 0) == now % 0x1_0000_0000 && r[4..22] == random18
    ensures r[22..] == mac(key + clientId, r[..22])
  {
    var stamped := Be32(now % 0x1_0000_0000) + random18;
    stamped + mac(key + clientId, stamped)
  }

  /** The ClientHello body of the authenticated variants: version, auth tag,
      session-id length 32, the client id, then opaque bytes. */
  function AuthHelloBody(helloVersion: seq<byte>, tag: seq<byte>, clientId: seq<byte>, tail: seq<byte>): (r: seq<byte>)
    requires |helloVersion| == 2 && |tag| == 32
    ensures |r| == 35 + |clientId| + |tail| && r[..2] == helloVersion && r[2..34] == tag
    ensures r[34] == 0x20 && r[35..35 + |clientId|] == clientId && r[35 + |clientId|..] == tail
  {
    helloVersion + tag + [0x20] + clientId + tail
  }

  /** What the authenticated variants read out of a ClientHello. */
  datatype AuthHello =
    | Parsed(verifyId: seq<byte>, sessionId: seq<byte>)
    | Malformed                 // a check failed: soft mismatch
    | Crashed(error: Error)     // `struct.error` or `IndexError` escapes

  /** The ClientHello parsing of `tls_auth` / `tls_ticket_auth`
      `server_decode`: the header checks, the hello version, the 32-byte
      verify id and a session id announced as at least 32 bytes long. */
  function ParseAuthHello(buf: seq<byte>, helloVersion: seq<byte>): (r: AuthHello)
    requires |helloVersion| == 2
    ensures r.Parsed? ==> |r.verifyId| == 32 && |r.sessionId| < 0x100
    ensures r.Parsed? ==> |buf| > 43 && HelloShape(buf, Tls10) && buf[9..11] == helloVersion && buf[11..43] == r.verifyId
    ensures r.Parsed? <==> HelloShape(buf, Tls10) && |buf| > 43 && buf[9..11] == helloVersion && buf[43] >= 32
    ensures r.Parsed? ==> r.sessionId == buf[44..if 44 + buf[43] <= |buf| then 44 + buf[43] else |buf|]
    // a session-id length below 32 falls back
    ensures HelloShape(buf, Tls10) && |buf| > 43 && buf[9..11] == helloVersion && buf[43] < 32 ==> r == Malformed
    // nothing after the verify id: reading the session-id length raises
    ensures r == Crashed(IndexError) <==> HelloShape(buf, Tls10) && 11 <= |buf| <= 43 && buf[9..11] == helloVersion
    ensures r == Crashed(StructError) <==> UnwrapHello(buf, Tls10).Crash?
  {
    match UnwrapHello(buf, Tls10)
    case Crash(e) => Crashed(e)
    case Mismatch(_) => Malformed
    case Framed(body) =>
      UnwrapHelloExactly(buf, Tls10);
      if !MatchBegin(body, helloVersion) then Malformed
      else
        var afterVersion := body[2..];
        if |afterVersion| <= 32 then Crashed(IndexError)
        else
          var verifyId := afterVersion[..32];
          var session := afterVersion[32..];
          var sessionIdLen := session[0] as int;
          if sessionIdLen < 32 then Malformed
          else
            var last := if sessionIdLen + 1 <= |session| then sessionIdLen + 1 else |session|;
            Parsed(verifyId, session[1..last])
  }

  /** The hello of a client built from `AuthHelloBody` is read back as its
      own tag and client id. */
  lemma AuthHelloParses(helloVersion: seq<byte>, tag: seq<byte>, clientId: Bytes32, tail: seq<byte>)
    requires |helloVersion| == 2 && |tag| == 32 && 71 + |tail| < 0x1_0000
    ensures var hello := Handshake(Tls10, ClientHelloType, AuthHelloBody(helloVersion, tag, clientId, tail));
      ParseAuthHello(hello, helloVersion) == Parsed(tag, clientId)
  {
    var body := AuthHelloBody(helloVersion, tag, clientId, tail);
    HandshakeUnwraps(Tls10, body);
    assert body[..2] == helloVersion;
    assert body[2..][..32] == tag;
    assert body[2..][32..] == [0x20] + clientId + tail;
    assert ([0x20] + clientId + tail)[1..33] == clientId;
  }

  /** The time rule: the difference between the server's clock and the tag's
      time, as a signed 32-bit value, is within an hour either way, and the
      tag's time is not more than half an hour before the server's recorded
      startup time (itself backdated half an hour). */
  predicate TimeOk(now: nat, utc: nat, startupTime: int)
  {
    var timeDif := Int32(now % 0x1_0000_0000 - utc);
    -MaxTimeDif <= timeDif <= MaxTimeDif && Int32(utc - startupTime) >= -(MaxTimeDif / 2)
  }

  /** Without 32-bit wrap-around the time rule is a plain window. */
  lemma TimeWindow(now: nat, utc: nat, startupTime: int)
    requires now < 0x1_0000_0000 && utc < 0x1_0000_0000
    requires -0x8000_0000 <= now - utc < 0x8000_0000 && -0x8000_0000 <= utc - startupTime < 0x8000_0000
    ensures TimeOk(now, utc, startupTime) <==>
      utc - MaxTimeDif <= now <= utc + MaxTimeDif && utc >= startupTime - 1800
  {
    Int32InRange(now - utc);
    Int32InRange(utc - startupTime);
  }

  /** The tag's HMAC matches under `key ‖ sessionId`. */
  predicate TagOk(mac: Mac, key: seq<byte>, sessionId: seq<byte>, verifyId: seq<byte>)
    requires |verifyId| == 32
  {
    mac(key + sessionId, verifyId[..22]) == verifyId[22..]
  }

  /** The replay test: an entry for the first 22 tag bytes whose stored
      session id is non-empty (the source tests the value's truthiness). */
  predicate Replayed(clientData: map<seq<byte>, seq<byte>>, verifyKey: seq<byte>)
  {
    verifyKey in clientData && clientData[verifyKey] != []
  }

  /** A ClientHello the server admits: it parses, and then the time rule, the
      HMAC and the replay test pass, in that order. */
  predicate Admissible(buf: seq<byte>, helloVersion: seq<byte>, mac: Mac, key: seq<byte>, now: nat,
                       startupTime: int, clientData: map<seq<byte>, seq<byte>>)
    requires |helloVersion| == 2
  {
    var hello := ParseAuthHello(buf, helloVersion);
    hello.Parsed?
    && TimeOk(now, Be32At(hello.verifyId, 0), startupTime)
    && TagOk(mac, key, hello.sessionId, hello.verifyId)
    && !Replayed(clientData, hello.verifyId[..22])
  }

  /** A client's fresh hello is admitted by a server holding the same key when
      the clocks agree and its tag prefix has not been seen. */
  lemma FreshHelloAdmitted(mac: Mac, key: seq<byte>, clientId: Bytes32, clientNow: nat, random18: seq<byte>,
                           helloVersion: seq<byte>, tail: seq<byte>, serverNow: nat, startupTime: int,
                           clientData: map<seq<byte>, seq<byte>>)
    requires |random18| == 18 && |helloVersion| == 2 && 71 + |tail| < 0x1_0000
    requires TimeOk(serverNow, clientNow % 0x1_0000_0000, startupTime)
    requires !Replayed(clientData, PackAuthData(mac, key, clientId, clientNow, random18)[..22])
    ensures Admissible(Handshake(Tls10, ClientHelloType,
                                 AuthHelloBody(helloVersion, PackAuthData(mac, key, clientId, clientNow, random18), clientId, tail)),
                       helloVersion, mac, key, serverNow, startupTime, clientData)
  {
    var tag := PackAuthData(mac, key, clientId, clientNow, random18);
    AuthHelloParses(helloVersion, tag, clientId, tail);
  }

  /** A hello whose tag prefix is remembered with a non-empty session id is
      refused, whatever the clock says. */
  lemma ReplayRefused(buf: seq<byte>, helloVersion: seq<byte>, mac: Mac, key: seq<byte>, now: nat,
                      startupTime: int, clientData: map<seq<byte>, seq<byte>>)
    requires |helloVersion| == 2
    requires ParseAuthHello(buf, helloVersion).Parsed?
    requires ParseAuthHello(buf, helloVersion).verifyId[..22] in clientData
    requires clientData[ParseAuthHello(buf, helloVersion).verifyId[..22]] != []
    ensures !Admissible(buf, helloVersion, mac, key, now, startupTime, clientData)
  {
  }

  function ChangeCipherSpec(version: seq<byte>): seq<byte>
  {
    [0x14] + version + [0x00, 0x01, 0x01]
  }

  function FinishedHeader(version: seq<byte>): seq<byte>
  {
    [0x16] + version + [0x00, 0x20]
  }

  /** The 43-byte ChangeCipherSpec + Finished flight: 6 bytes of
      ChangeCipherSpec, a 5-byte Finished header, 22 random bytes, then the
      truncated HMAC of those 33 bytes under `key ‖ id`. */
  function FinishedFlight(mac: Mac, key: seq<byte>, id: seq<byte>, version: seq<byte>, random22: seq<byte>): (r: seq<byte>)
    requires |version| == 2 && |random22| == 22
    ensures |r| == 43 && r[..6] == ChangeCipherSpec(version) && r[6..11] == FinishedHeader(version)
    ensures r[11..33] == random22 && r[33..] == mac(key + id, r[..33])
  {
    var flight := ChangeCipherSpec(version) + FinishedHeader(version) + random22;
    flight + mac(key + id, flight)
  }

  /** The server's check of the client's ChangeCipherSpec + Finished flight;
      every failure is the hard "data error", never a fallback. */
  function CheckFinished(buf: seq<byte>, mac: Mac, key: seq<byte>, id: seq<byte>, version: seq<byte>): (r: Result<seq<byte>>)
    requires |version| == 2
    ensures r.Ok? <==> (|buf| >= 43 && buf[..6] == ChangeCipherSpec(version)
                         && buf[6..11] == FinishedHeader(version) && buf[33..43] == mac(key + id, buf[..33]))
    ensures r.Ok? ==> r.value == buf[43..]
    ensures r.Err? ==> r.error == DataError
  {
    if |buf| < 43 then Err(DataError)
    else if !MatchBegin(buf, ChangeCipherSpec(version)) then Err(DataError)
    else
      var afterCcs := buf[6..];
      if !MatchBegin(afterCcs, FinishedHeader(version)) then Err(DataError)
      else if mac(key + id, buf[..33]) != buf[33..43] then Err(DataError)
      else if |afterCcs| < 37 then Err(DataError)
      else Ok(afterCcs[37..])
  }

  /** The Finished flight with equal key and id passes the check, and
      everything after it is handed on. */
  lemma FinishedRoundTrip(mac: Mac, key: seq<byte>, id: seq<byte>, version: seq<byte>, random22: seq<byte>, rest: seq<byte>)
    requires |version| == 2 && |random22| == 22
    ensures CheckFinished(FinishedFlight(mac, key, id, version, random22) + rest, mac, key, id, version) == Ok(rest)
  {
    var flight := FinishedFlight(mac, key, id, version, random22);
    var buf := flight + rest;
    assert buf[..43] == flight;
    assert buf[..6] == flight[..6] && buf[6..11] == flight[6..11] && buf[..33] == flight[..33];
    assert buf[33..43] == flight[33..];
    assert buf[43..] == rest;
  }

  /** The server's first flight: a ServerHello carrying the auth tag and the
      echoed client id, then ChangeCipherSpec, a Finished header and 22 random
      bytes, closed by the truncated HMAC of all of it. */
  function ServerFlight(mac: Mac, key: seq<byte>, clientId: seq<byte>, version: seq<byte>, tag: seq<byte>,
                        tail: seq<byte>, random22: seq<byte>): (r: seq<byte>)
    requires |version| == 2 && |tag| == 32 && |clientId| < 0x100 && |tail| < 0x100 && |random22| == 22
    ensures |r| == 87 + |clientId| + |tail| && r[11..43] == tag
    ensures r[43] == 0x20 && r[44..44 + |clientId|] == clientId
    ensures r[|r| - 10..] == mac(key + clientId, r[..|r| - 10])
  {
    var hello := Handshake(version, ServerHelloType, AuthHelloBody(version, tag, clientId, tail));
    var flight := hello + ChangeCipherSpec(version) + FinishedHeader(version) + random22;
    assert hello[9..][2..34] == tag;
    assert (flight + mac(key + clientId, flight))[11..43] == hello[9..][2..34];
    flight + mac(key + clientId, flight)
  }

  /** The client's check of the server's first flight: at least 76 bytes, and
      the tag at bytes 33..43 is the HMAC of bytes 11..33 under the client's
      own id. Its failure is a hard error. */
  predicate ServerHelloAuthentic(buf: seq<byte>, mac: Mac, key: seq<byte>, id: seq<byte>)
  {
    |buf| >= 11 + 32 + 1 + 32 && mac(key + id, buf[11..33]) == buf[33..43]
  }

  /** The server's flight, built with the tag the client would build for its
      own id, passes the client's check. */
  lemma ServerFlightAuthentic(mac: Mac, key: seq<byte>, clientId: seq<byte>, version: seq<byte>, now: nat,
                              random18: seq<byte>, tail: seq<byte>, random22: seq<byte>)
    requires |version| == 2 && |clientId| < 0x100 && |tail| < 0x100 && |random18| == 18 && |random22| == 22
    ensures var tag := PackAuthData(mac, key, clientId, now, random18);
      ServerHelloAuthentic(ServerFlight(mac, key, clientId, version, tag, tail, random22), mac, key, clientId)
  {
    var tag := PackAuthData(mac, key, clientId, now, random18);
    var r := ServerFlight(mac, key, clientId, version, tag, tail, random22);
    assert r[11..33] == tag[..22];
    assert r[33..43] == tag[22..];
  }
}
