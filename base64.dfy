/** Base 64 encoding with the standard alphabet and `=` padding (section 4 of RFC 4648),
    used to keep the encryption key at rest as text. */
module Base64 {
  import opened Exceptions

  type byte = x: int | 0 <= x < 256

  /** A 6-bit group: an index into the alphabet. */
  type sextet = x: int | 0 <= x < 64

  const Pad: char := '='

  /** The alphabet character for a 6-bit group; it is never the pad character, and it maps
      back to its group. */
  function Char(i: sextet): (c: char)
    ensures c != Pad && c != ';' && c != '\\'
    ensures Index(c) == Some(i)
  {
    if i < 26 then ('A' as int + i) as char
    else if i < 52 then ('a' as int + (i - 26)) as char
    else if i < 62 then ('0' as int + (i - 52)) as char
    else if i == 62 then '+'
    else '/'
  }

  /** The 6-bit group of an alphabet character; None for any other character. */
  function Index(c: char): Option<sextet>
  {
    if 'A' <= c <= 'Z' then Some(c as int - 'A' as int)
    else if 'a' <= c <= 'z' then Some(c as int - 'a' as int + 26)
    else if '0' <= c <= '9' then Some(c as int - '0' as int + 52)
    else if c == '+' then Some(62)
    else if c == '/' then Some(63)
    else None
  }

  /** Three bytes as four characters. */
  function EncodeTriple(b0: byte, b1: byte, b2: byte): string
  {
    [Char(b0 / 4), Char((b0 % 4) * 16 + b1 / 16), Char((b1 % 16) * 4 + b2 / 64), Char(b2 % 64)]
  }

  /** Base 64 text of `bs`: four characters per three bytes, the last group padded. */
  function Encode(bs: seq<byte>): (s: string)
    ensures |s| % 4 == 0
    ensures |s| == 0 <==> |bs| == 0
    decreases |bs|
  {
    if |bs| == 0 then ""
    else if |bs| == 1 then [Char(bs[0] / 4), Char((bs[0] % 4) * 16), Pad, Pad]
    else if |bs| == 2 then
      [Char(bs[0] / 4), Char((bs[0] % 4) * 16 + bs[1] / 16), Char((bs[1] % 16) * 4), Pad]
    else EncodeTriple(bs[0], bs[1], bs[2]) + Encode(bs[3..])
  }

  /** The first byte of a group: six bits of the first character, two of the second. */
  function High(i0: sextet, i1: sextet): byte
  {
    (i0 as int) * 4 + (i1 as int) / 16
  }

  /** The second byte: four bits of the second character, four of the third. */
  function Middle(i1: sextet, i2: sextet): byte
  {
    ((i1 as int) % 16) * 16 + (i2 as int) / 4
  }

  /** The third byte: two bits of the third character, six of the fourth. */
  function Low(i2: sextet, i3: sextet): byte
  {
    ((i2 as int) % 4) * 64 + (i3 as int)
  }

  /** Four alphabet characters as three bytes. */
  function DecodeQuad(q: string): Option<seq<byte>>
    requires |q| == 4
  {
    match (Index(q[0]), Index(q[1]), Index(q[2]), Index(q[3]))
    case (Some(i0), Some(i1), Some(i2), Some(i3)) =>
      Some([High(i0, i1), Middle(i1, i2), Low(i2, i3)])
    case _ => None
  }

  /** The last group of four: it may end in one or two pad characters. */
  function DecodeLastQuad(q: string): Option<seq<byte>>
    requires |q| == 4
  {
    if q[2] == Pad && q[3] == Pad then
      match (Index(q[0]), Index(q[1]))
      case (Some(i0), Some(i1)) => Some([High(i0, i1)])
      case _ => None
    else if q[3] == Pad then
      match (Index(q[0]), Index(q[1]), Index(q[2]))
      case (Some(i0), Some(i1), Some(i2)) => Some([High(i0, i1), Middle(i1, i2)])
      case _ => None
    else DecodeQuad(q)
  }

  /** The bytes of base 64 text; None when the text is not a whole number of groups of
      alphabet characters with padding only at the end. */
  function Decode(s: string): Option<seq<byte>>
    decreases |s|
  {
    if s == [] then Some([])
    else if |s| < 4 then None
    else if |s| == 4 then DecodeLastQuad(s)
    else
      match (DecodeQuad(s[..4]), Decode(s[4..]))
      case (Some(head), Some(tail)) => Some(head + tail)
      case _ => None
  }

  lemma {:induction false} HighRoundTrip(b0: int, b1: int)
    requires 0 <= b0 < 256 && 0 <= b1 < 256
    ensures High(b0 / 4, (b0 % 4) * 16 + b1 / 16) == b0
  {
    var i1 := (b0 % 4) * 16 + b1 / 16;
    assert i1 / 16 == b0 % 4;
  }

  lemma {:induction false} MiddleRoundTrip(b0: int, b1: int, b2: int)
    requires 0 <= b0 < 256 && 0 <= b1 < 256 && 0 <= b2 < 256
    ensures Middle((b0 % 4) * 16 + b1 / 16, (b1 % 16) * 4 + b2 / 64) == b1
  {
    var i1 := (b0 % 4) * 16 + b1 / 16;
    var i2 := (b1 % 16) * 4 + b2 / 64;
    assert i1 % 16 == b1 / 16;
    assert i2 / 4 == b1 % 16;
  }

  lemma {:induction false} LowRoundTrip(b1: int, b2: int)
    requires 0 <= b1 < 256 && 0 <= b2 < 256
    ensures Low((b1 % 16) * 4 + b2 / 64, b2 % 64) == b2
  {
    var i2 := (b1 % 16) * 4 + b2 / 64;
    assert i2 % 4 == b2 / 64;
  }

  lemma {:induction false} TripleRoundTrip(b0: byte, b1: byte, b2: byte)
    ensures DecodeQuad(EncodeTriple(b0, b1, b2)) == Some([b0, b1, b2])
  {
    var i0: sextet, i1: sextet := b0 / 4, (b0 % 4) * 16 + b1 / 16;
    var i2: sextet, i3: sextet := (b1 % 16) * 4 + b2 / 64, b2 % 64;
    var t := EncodeTriple(b0, b1, b2);
    assert Index(t[0]) == Some(i0) && Index(t[1]) == Some(i1);
    assert Index(t[2]) == Some(i2) && Index(t[3]) == Some(i3);
    HighRoundTrip(b0, b1);
    MiddleRoundTrip(b0, b1, b2);
    LowRoundTrip(b1, b2);
    assert DecodeQuad(t) == Some([High(i0, i1), Middle(i1, i2), Low(i2, i3)]);
  }

  lemma {:induction false} SingleRoundTrip(bs: seq<byte>)
    requires |bs| == 1
    ensures Decode(Encode(bs)) == Some(bs)
  {
    var s := Encode(bs);
    var i0: sextet, i1: sextet := bs[0] / 4, (bs[0] % 4) * 16;
    assert s == [Char(i0), Char(i1), Pad, Pad];
    assert Index(s[0]) == Some(i0) && Index(s[1]) == Some(i1);
    HighRoundTrip(bs[0], 0);
    assert DecodeLastQuad(s) == Some([High(i0, i1)]);
    assert [bs[0]] == bs;
  }

  lemma {:induction false} PairRoundTrip(bs: seq<byte>)
    requires |bs| == 2
    ensures Decode(Encode(bs)) == Some(bs)
  {
    var s := Encode(bs);
    var i0: sextet, i1: sextet, i2: sextet := bs[0] / 4, (bs[0] % 4) * 16 + bs[1] / 16, (bs[1] % 16) * 4;
    assert s == [Char(i0), Char(i1), Char(i2), Pad];
    assert Index(s[0]) == Some(i0) && Index(s[1]) == Some(i1) && Index(s[2]) == Some(i2);
    HighRoundTrip(bs[0], bs[1]);
    MiddleRoundTrip(bs[0], bs[1], 0);
    assert DecodeLastQuad(s) == Some([High(i0, i1), Middle(i1, i2)]);
    assert [bs[0], bs[1]] == bs;
  }

  lemma {:induction false} LastTripleRoundTrip(bs: seq<byte>)
    requires |bs| == 3
    ensures Decode(Encode(bs)) == Some(bs)
  {
    var s := Encode(bs);
    var t := EncodeTriple(bs[0], bs[1], bs[2]);
    TripleRoundTrip(bs[0], bs[1], bs[2]);
    assert s == t + "";
    assert s == t && t[3] != Pad;
    assert Decode(s) == DecodeQuad(t);
    assert [bs[0], bs[1], bs[2]] == bs;
  }

  /** Decoding undoes encoding, for every byte string. */
  lemma {:induction false} DecodeEncode(bs: seq<byte>)
    ensures Decode(Encode(bs)) == Some(bs)
    decreases |bs|
  {
    if |bs| <= 3 {
      ShortRoundTrip(bs);
    } else {
      DecodeEncode(bs[3..]);
      Regroup(bs);
      GroupRoundTrip(bs[0], bs[1], bs[2], bs[3..]);
    }
  }

  /** The last, possibly padded, group on its own. */
  lemma {:induction false} ShortRoundTrip(bs: seq<byte>)
    requires |bs| <= 3
    ensures Decode(Encode(bs)) == Some(bs)
  {
    if |bs| == 1 {
      SingleRoundTrip(bs);
    } else if |bs| == 2 {
      PairRoundTrip(bs);
    } else if |bs| == 3 {
      LastTripleRoundTrip(bs);
    }
  }

  lemma {:induction false} Regroup(bs: seq<byte>)
    requires |bs| >= 3
    ensures bs == [bs[0], bs[1], bs[2]] + bs[3..]
  {
  }

  /** A full group in front of text that decodes back keeps decoding back. */
  lemma {:induction false} GroupRoundTrip(b0: byte, b1: byte, b2: byte, tail: seq<byte>)
    requires |tail| > 0 && Decode(Encode(tail)) == Some(tail)
    ensures Decode(Encode([b0, b1, b2] + tail)) == Some([b0, b1, b2] + tail)
  {
    var bs := [b0, b1, b2] + tail;
    assert bs[0] == b0 && bs[1] == b1 && bs[2] == b2 && bs[3..] == tail;
    var t := EncodeTriple(b0, b1, b2);
    var s := Encode(bs);
    assert s == t + Encode(tail);
    assert s[..4] == t && s[4..] == Encode(tail);
    TripleRoundTrip(b0, b1, b2);
  }
}
