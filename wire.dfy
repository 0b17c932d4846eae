/** Byte-level building blocks shared by every obfuscator: the byte type, the
    errors the program lets escape, big-endian fields, the prefix test and
    the signed 32-bit reinterpretation used for time differences. */
module Wire {

  type byte = x: int | 0 <= x < 0x100

  /** A byte string of exactly 32 bytes (random identifiers, auth tags). */
  type Bytes32 = s: seq<byte> | |s| == 32
    witness [0, 0, 0, 0, 0, 0, 0, 0, 0, 0, 0, 0, 0, 0, 0, 0,
             0, 0, 0, 0, 0, 0, 0, 0, 0, 0, 0, 0, 0, 0, 0, 0]

  /** The first 10 bytes of an HMAC-SHA1 digest. */
  type Tag10 = s: seq<byte> | |s| == 10 witness [0, 0, 0, 0, 0, 0, 0, 0, 0, 0]

  /** Truncated HMAC-SHA1 as a black box: (key, message) to a 10-byte tag.
      The digest itself is not modelled; only its length and determinism matter. */
  type Mac = (seq<byte>, seq<byte>) -> Tag10

  /** What escapes an encode/decode call as an exception: `struct.error` on a
      short or oversized field, `IndexError` on an empty buffer, and the
      explicit "data error" raises of the handshake checks. */
  datatype Error = StructError | IndexError | DataError

  datatype Result<T> = Ok(value: T) | Err(error: Error)

  /** Result of a server-side decode: (buffer_to_recv, is_need_decrypt,
      is_need_to_encode_and_send_back). */
  datatype ServerDecoded = ServerDecoded(data: seq<byte>, needDecrypt: bool, sendBack: bool)

  /** Result of a client-side decode: the bytes for the caller and whether the
      caller must now call the encoder to answer the peer's handshake. */
  datatype ClientDecoded = ClientDecoded(data: seq<byte>, sendBack: bool)

  /** The sentinel a strict method returns when it falls back. */
  const ErrorSentinel: seq<byte> := [0x45]  // 'E'

  /** `decode_error_return` of every variant after it has switched the
      connection to raw pass-through: a strict method answers with the sentinel
      and nothing to decrypt, a compatible one hands `buf` on for decryption. */
  function Fallback(strict: bool, buf: seq<byte>): (r: ServerDecoded)
    ensures !r.sendBack
    ensures r.needDecrypt <==> !strict
    ensures r.data == if strict then ErrorSentinel else buf
  {
    if strict then ServerDecoded(ErrorSentinel, false, false) else ServerDecoded(buf, true, false)
  }

  /** `match_begin`: `prefix` is a prefix of `s`. */
  function MatchBegin(s: seq<byte>, prefix: seq<byte>): (r: bool)
    ensures r <==> |prefix| <= |s| && forall i :: 0 <= i < |prefix| ==> s[i] == prefix[i]
  {
    |s| >= |prefix| && s[..|prefix|] == prefix
  }

  /** The big-endian 16-bit value stored at `s[i..i+2]` (`struct.unpack('>H', ...)`). */
  function Be16At(s: seq<byte>, i: nat): (n: nat)
    requires i + 2 <= |s|
    ensures n < 0x1_0000
  {
    (s[i] as int) * 0x100 + s[i + 1] as int
  }

  /** `struct.pack('>H', n)` for an `n` that fits. */
  function Be16(n: nat): (r: seq<byte>)
    requires n < 0x1_0000
    ensures |r| == 2 && Be16At(r, 0) == n
  {
    [n / 0x100, n % 0x100]
  }

  /** The big-endian 32-bit value stored at `s[i..i+4]` (`struct.unpack('>I', ...)`). */
  function Be32At(s: seq<byte>, i: nat): (n: nat)
    requires i + 4 <= |s|
    ensures n < 0x1_0000_0000
  {
    (((s[i] as int) * 0x100 + s[i + 1] as int) * 0x100 + s[i + 2] as int) * 0x100 + s[i + 3] as int
  }

  /** `struct.pack('>I', n)` for an `n` that fits. */
  function Be32(n: nat): (r: seq<byte>)
    requires n < 0x1_0000_0000
    ensures |r| == 4 && Be32At(r, 0) == n
  {
    Be32Digits(n);
    [n / 0x100_0000, n / 0x1_0000 % 0x100, n / 0x100 % 0x100, n % 0x100]
  }

  /** The four base-256 digits of a 32-bit value put it back together. */
  lemma Be32Digits(n: nat)
    requires n < 0x1_0000_0000
    ensures n / 0x100_0000 < 0x100
    ensures ((n / 0x100_0000 * 0x100 + n / 0x1_0000 % 0x100) * 0x100 + n / 0x100 % 0x100) * 0x100 + n % 0x100 == n
  {
    var q1 := n / 0x100;
    var q2 := q1 / 0x100;
    var q3 := q2 / 0x100;
    assert n == q1 * 0x100 + n % 0x100;
    assert q1 == q2 * 0x100 + q1 % 0x100;
    assert q2 == q3 * 0x100 + q2 % 0x100;
    assert q2 == n / 0x1_0000;
    assert q3 == n / 0x100_0000;
  }

  /** `common.int32`: `x` reinterpreted modulo 2^32 as a signed 32-bit value. */
  function Int32(x: int): (r: int)
    ensures -0x8000_0000 <= r < 0x8000_0000
    ensures (x - r) % 0x1_0000_0000 == 0
  {
    var m := x % 0x1_0000_0000;
    if m < 0x8000_0000 then m else m - 0x1_0000_0000
  }

  /** A value already in the signed 32-bit range is left as it is. */
  lemma Int32InRange(x: int)
    requires -0x8000_0000 <= x < 0x8000_0000
    ensures Int32(x) == x
  {
  }

  /** Concatenation of a sequence of byte strings, in order. */
  function Concat(ss: seq<seq<byte>>): seq<byte>
  {
    if ss == [] then [] else ss[0] + Concat(ss[1..])
  }

  lemma {:induction false} ConcatAppend(a: seq<seq<byte>>, b: seq<seq<byte>>)
    ensures Concat(a + b) == Concat(a) + Concat(b)
  {
    if a == [] {
      assert a + b == b;
    } else {
      assert (a + b)[1..] == a[1..] + b;
      ConcatAppend(a[1..], b);
    }
  }
}
