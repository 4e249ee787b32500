/**
 * The wire format the server reads: every frame is a 4-byte big-endian
 * unsigned length followed by that many payload bytes, received into
 * fixed-capacity buffers.
 */
module Wire {
  /** An unsigned 8-bit value, as Rust's `u8`. */
  type byte = x: int | 0 <= x < 0x100

  /** HEADER_SIZE: the number of bytes in a frame's length prefix. */
  const HeaderSize: nat := 4
  /** MAX_MSG_SIZE: the receive size used when polling in the payload phase. */
  const MaxMsgSize: nat := 4096
  /** Capacity of every receive buffer: 4 + MAX_MSG_SIZE + 1 bytes. */
  const BufferCapacity: nat := 4 + MaxMsgSize + 1
  /** One more than the largest `u32`. */
  const U32Bound: nat := 0x1_0000_0000

  /** `u32::from_be_bytes` on the four header bytes. */
  function DecodeHeader(b: seq<byte>): (n: nat)
    requires |b| == HeaderSize
    ensures n < U32Bound
  {
    b[0] as int * 0x100_0000 + b[1] as int * 0x1_0000 + b[2] as int * 0x100 + b[3] as int
  }

  /** `u32::to_be_bytes`: how a peer writes the length prefix of a frame. */
  function EncodeHeader(n: nat): (b: seq<byte>)
    requires n < U32Bound
    ensures |b| == HeaderSize
  {
    var m1 := n / 0x100;
    var m2 := m1 / 0x100;
    [m2 / 0x100, m2 % 0x100, m1 % 0x100, n % 0x100]
  }

  /** Decoding the big-endian encoding of any `u32` gives it back. */
  lemma DecodeEncode(n: nat)
    requires n < U32Bound
    ensures DecodeHeader(EncodeHeader(n)) == n
  {
  }

  /** Every four header bytes are the encoding of the length they decode to. */
  lemma EncodeDecode(b: seq<byte>)
    requires |b| == HeaderSize
    ensures EncodeHeader(DecodeHeader(b)) == b
  {
    var n := DecodeHeader(b);
    var m1 := (b[0] as int * 0x100 + b[1] as int) * 0x100 + b[2] as int;
    var m2 := b[0] as int * 0x100 + b[1] as int;
    DivModByte(n, m1, b[3]);
    DivModByte(m1, m2, b[2]);
    DivModByte(m2, b[0], b[1]);
  }

  /** Division by 256 recovers the quotient and the byte of `q * 256 + r`. */
  lemma DivModByte(n: int, q: int, r: byte)
    requires n == q * 0x100 + r
    ensures n / 0x100 == q && n % 0x100 == r
  {
  }

  /** A continuation byte of a multi-byte UTF-8 sequence. */
  predicate Continuation(x: byte) {
    0x80 <= x <= 0xBF
  }

  /**
   * The length of the well-formed UTF-8 sequence that starts `s`, or 0 when
   * `s` does not start with one (Table 3-7 of the Unicode Standard: no
   * overlong forms, no surrogates, nothing above U+10FFFF).
   */
  function LeadingScalarWidth(s: seq<byte>): (w: nat)
    ensures w <= |s| && w <= 4
  {
    if |s| == 0 then 0
    else if s[0] <= 0x7F then 1
    else if 0xC2 <= s[0] <= 0xDF then
      if |s| >= 2 && Continuation(s[1]) then 2 else 0
    else if s[0] == 0xE0 then
      if |s| >= 3 && 0xA0 <= s[1] <= 0xBF && Continuation(s[2]) then 3 else 0
    else if 0xE1 <= s[0] <= 0xEC || 0xEE <= s[0] <= 0xEF then
      if |s| >= 3 && Continuation(s[1]) && Continuation(s[2]) then 3 else 0
    else if s[0] == 0xED then
      if |s| >= 3 && 0x80 <= s[1] <= 0x9F && Continuation(s[2]) then 3 else 0
    else if s[0] == 0xF0 then
      if |s| >= 4 && 0x90 <= s[1] <= 0xBF && Continuation(s[2]) && Continuation(s[3]) then 4 else 0
    else if 0xF1 <= s[0] <= 0xF3 then
      if |s| >= 4 && Continuation(s[1]) && Continuation(s[2]) && Continuation(s[3]) then 4 else 0
    else if s[0] == 0xF4 then
      if |s| >= 4 && 0x80 <= s[1] <= 0x8F && Continuation(s[2]) && Continuation(s[3]) then 4 else 0
    else 0
  }

  /** What `std::str::from_utf8` accepts: a concatenation of well-formed sequences. */
  predicate ValidUtf8(s: seq<byte>)
    decreases |s|
  {
    s == [] || (LeadingScalarWidth(s) > 0 && ValidUtf8(s[LeadingScalarWidth(s)..]))
  }

  /** Every ASCII byte string is valid UTF-8 (so the command names are). */
  lemma {:induction false} AsciiIsUtf8(s: seq<byte>)
    requires forall i :: 0 <= i < |s| ==> s[i] <= 0x7F
    ensures ValidUtf8(s)
  {
    if s != [] {
      AsciiIsUtf8(s[1..]);
    }
  }

  /** A freshly allocated buffer: `vec![0u8; n]`. */
  function Zeroes(n: nat): (r: seq<byte>)
    ensures |r| == n && forall i :: 0 <= i < n ==> r[i] == 0
  {
    seq(n, _ => 0)
  }

  /**
   * A buffer after a receive has copied `data` to its start. The bytes past
   * `data` keep whatever an earlier use left there; bytes that would not fit
   * are dropped (the overrun itself is not modelled).
   */
  function Overwrite(buf: seq<byte>, data: seq<byte>): (r: seq<byte>)
    ensures |r| == |buf|
    ensures forall i :: 0 <= i < |r| ==> r[i] == if i < |data| then data[i] else buf[i]
  {
    if |data| >= |buf| then data[..|buf|] else data + buf[|data|..]
  }
}
