/**
 * `generateRandomToken(length = 128)`: asks the random source for
 * `length / 2` bytes and returns them as lower-case hexadecimal. The random
 * source itself is an input: either the bytes it produced or its error.
 */
module RandomToken {
  import opened Wrappers
  import opened Errors

  newtype byte = x: int | 0 <= x < 256

  /** What `crypto.randomBytes` delivered to its callback. */
  datatype RandomBytes = Drawn(bytes: seq<byte>) | RandomError

  const DefaultLength: nat := 128

  /**
   * The number of bytes requested for a token of `length` characters. In
   * JavaScript `length / 2` is a float division, so an odd length asks for
   * a fractional size; every caller passes the default 128, so the model
   * takes the integer quotient and leaves what Node does with a fractional
   * size unmodelled.
   */
  function ByteCount(length: nat): (n: nat)
    ensures 2 * n <= length <= 2 * n + 1
  {
    length / 2
  }

  predicate IsHexChar(c: char) {
    '0' <= c <= '9' || 'a' <= c <= 'f'
  }

  function HexDigit(v: nat): (c: char)
    requires v < 16
    ensures IsHexChar(c)
  {
    if v < 10 then ('0' as int + v) as char else ('a' as int + v - 10) as char
  }

  function HexValue(c: char): (v: Option<nat>)
    ensures v.Some? <==> IsHexChar(c)
    ensures v.Some? ==> v.value < 16 && HexDigit(v.value) == c
  {
    if '0' <= c <= '9' then Some(c as int - '0' as int)
    else if 'a' <= c <= 'f' then Some(c as int - 'a' as int + 10)
    else None
  }

  /** `Buffer.toString('hex')`: two lower-case hex digits per byte, high nibble first. */
  function HexEncode(bytes: seq<byte>): (s: string)
    ensures |s| == 2 * |bytes|
    ensures forall i :: 0 <= i < |s| ==> IsHexChar(s[i])
  {
    if bytes == [] then ""
    else [HexDigit(bytes[0] as int / 16), HexDigit(bytes[0] as int % 16)] + HexEncode(bytes[1..])
  }

  /** The inverse of `HexEncode`: fails on odd length or a character outside [0-9a-f]. */
  function HexDecode(s: string): (r: Option<seq<byte>>)
    ensures r.Some? ==> 2 * |r.value| == |s|
  {
    if s == [] then Some([])
    else if |s| == 1 then None
    else
      match (HexValue(s[0]), HexValue(s[1]), HexDecode(s[2..]))
      case (Some(hi), Some(lo), Some(rest)) => Some([(hi * 16 + lo) as byte] + rest)
      case _ => None
  }

  /** The encoding loses nothing: decoding recovers the bytes. */
  lemma {:induction false} HexDecodeEncode(bytes: seq<byte>)
    ensures HexDecode(HexEncode(bytes)) == Some(bytes)
  {
    if bytes != [] {
      var b := bytes[0] as int;
      var s := HexEncode(bytes);
      assert s[2..] == HexEncode(bytes[1..]);
      HexDecodeEncode(bytes[1..]);
      assert HexValue(s[0]) == Some(b / 16);
      assert HexValue(s[1]) == Some(b % 16);
      assert [(b / 16 * 16 + b % 16) as byte] + bytes[1..] == bytes;
    }
  }

  /** Distinct byte strings give distinct tokens. */
  lemma HexEncodeInjective(a: seq<byte>, b: seq<byte>)
    requires HexEncode(a) == HexEncode(b)
    ensures a == b
  {
    HexDecodeEncode(a);
    HexDecodeEncode(b);
  }

  /**
   * `generateRandomToken(length)` once the random source has answered the
   * request for `ByteCount(length)` bytes.
   */
  function GenerateRandomToken(length: nat, random: RandomBytes): (r: Result<string, ApiError>)
    requires random.Drawn? ==> |random.bytes| == ByteCount(length)
    ensures r.Failure? <==> random.RandomError?
    ensures r.Failure? ==> r.error == RandomSourceFailed
    ensures r.Success? ==>
      && |r.value| == 2 * ByteCount(length)
      && (length % 2 == 0 ==> |r.value| == length)
      && (forall i :: 0 <= i < |r.value| ==> IsHexChar(r.value[i]))
      && HexDecode(r.value) == Some(random.bytes)
  {
    match random
    case RandomError => Failure(RandomSourceFailed)
    case Drawn(bytes) =>
      HexDecodeEncode(bytes);
      Success(HexEncode(bytes))
  }

  /** With the default length the source is asked for 64 bytes and the token has 128 characters. */
  lemma DefaultTokenShape(random: RandomBytes)
    requires random.Drawn? ==> |random.bytes| == ByteCount(DefaultLength)
    ensures ByteCount(DefaultLength) == 64
    ensures GenerateRandomToken(DefaultLength, random).Success? ==>
      |GenerateRandomToken(DefaultLength, random).value| == 128
  {
  }
}
