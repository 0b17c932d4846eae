/** `obfs_auth_data`: the per-server authentication context shared by every
    connection of the authenticated TLS variants. */
module AuthState {
  import opened Wire
  import opened TlsWire

  /** What the server makes of a connection's first bytes. */
  datatype HelloVerdict =
    | Admitted(sessionId: seq<byte>)  // parsed, and time, tag and replay checks passed
    | Refused(sessionId: seq<byte>)   // parsed, but a check failed: fall back
    | Unparsed                        // the ClientHello checks failed: fall back
    | Raised(error: Error)            // parsing raised

  /** The ClientHello checks of `server_decode` in both authenticated
      variants, in the source's order: parse, time rule, HMAC, replay. */
  function Verdict(buf: seq<byte>, helloVersion: seq<byte>, mac: Mac, key: seq<byte>, now: nat,
                   startupTime: int, clientData: map<seq<byte>, seq<byte>>): (v: HelloVerdict)
    requires |helloVersion| == 2
    ensures v.Admitted? <==> Admissible(buf, helloVersion, mac, key, now, startupTime, clientData)
    ensures v.Raised? ==> ParseAuthHello(buf, helloVersion) == Crashed(v.error)
    ensures v.Unparsed? <==> ParseAuthHello(buf, helloVersion).Malformed?
    ensures v.Admitted? || v.Refused? ==>
      && ParseAuthHello(buf, helloVersion).Parsed?
      && v.sessionId == ParseAuthHello(buf, helloVersion).sessionId
  {
    match ParseAuthHello(buf, helloVersion)
    case Crashed(e) => Raised(e)
    case Malformed => Unparsed
    case Parsed(verifyId, sessionId) =>
      if TimeOk(now, Be32At(verifyId, 0), startupTime) && TagOk(mac, key, sessionId, verifyId)
         && !Replayed(clientData, verifyId[..22])
      then Admitted(sessionId)
      else Refused(sessionId)
  }

  /** How far the recorded startup time is backdated, in seconds. */
  const StartupBackdate: nat := 60 * 30

  /** A hello stamped with the server's own clock, no earlier than the
      server's start, passes the time rule while the clock fits in 31 bits. */
  lemma ClocksInStep(startedAt: nat, now: nat)
    requires StartupBackdate <= startedAt <= now < 0x8000_0000
    ensures TimeOk(now, now % 0x1_0000_0000, (startedAt - StartupBackdate) % 0x1_0000_0000)
  {
    assert now % 0x1_0000_0000 == now;
    assert (startedAt - StartupBackdate) % 0x1_0000_0000 == startedAt - StartupBackdate;
    TimeWindow(now, now, startedAt - StartupBackdate);
  }

  class AuthData {
    /** The server's random 32-byte identifier, used as the client id of
        outgoing ClientHellos. */
    const clientId: Bytes32
    /** Startup time minus half an hour, masked to 32 bits. */
    const startupTime: nat
    /** The replay cache: first 22 bytes of an accepted auth tag to the
        session id that came with it. Expiry is decided outside this model. */
    var clientData: map<seq<byte>, seq<byte>>

    constructor(random32: Bytes32, now: nat)
      ensures clientId == random32
      ensures startupTime == (now - StartupBackdate) % 0x1_0000_0000 && startupTime < 0x1_0000_0000
      ensures clientData == map[]
    {
      clientId := random32;
      startupTime := (now - StartupBackdate) % 0x1_0000_0000;
      clientData := map[];
    }

    /** The cache's `sweep`: drop the entries whose time-to-live has run out
        (the set `expired`, decided by the cache's own clock). Only removes. */
    method Sweep(expired: set<seq<byte>>)
      modifies this`clientData
      ensures clientData.Keys <= old(clientData).Keys
      ensures forall k :: k in clientData ==> clientData[k] == old(clientData)[k]
      ensures forall k :: k in old(clientData) && k !in expired ==> k in clientData
      ensures clientData.Keys !! expired
    {
      clientData := clientData - expired;
    }

    /** The ClientHello checks against this context; an admitted hello's tag
        prefix is remembered with its session id after the sweep. */
    method CheckHello(buf: seq<byte>, helloVersion: seq<byte>, mac: Mac, key: seq<byte>, now: nat,
                      expired: set<seq<byte>>) returns (v: HelloVerdict)
      requires |helloVersion| == 2
      modifies this`clientData
      ensures v == Verdict(buf, helloVersion, mac, key, now, startupTime, old(clientData))
      ensures v.Admitted? ==>
        clientData == (old(clientData) - expired)[ParseAuthHello(buf, helloVersion).verifyId[..22] := v.sessionId]
      ensures !v.Admitted? ==> clientData == old(clientData)
    {
      v := Verdict(buf, helloVersion, mac, key, now, startupTime, clientData);
      if v.Admitted? {
        var verifyKey := ParseAuthHello(buf, helloVersion).verifyId[..22];
        Sweep(expired);
        Remember(verifyKey, v.sessionId);
      }
    }

    /** `client_data[verifyKey] = sessionId`. */
    method Remember(verifyKey: seq<byte>, sessionId: seq<byte>)
      modifies this`clientData
      ensures verifyKey in clientData && clientData[verifyKey] == sessionId
      ensures forall k :: k in old(clientData) && k != verifyKey ==> k in clientData && clientData[k] == old(clientData)[k]
      ensures clientData.Keys == old(clientData).Keys + {verifyKey}
    {
      clientData := clientData[verifyKey := sessionId];
    }
  }
}
