/**
 * The standard Base64 encoding of section 4 of RFC 4648 (alphabet A-Z a-z 0-9 + /,
 * padding with '='), as Go's base64.StdEncoding.EncodeToString produces it.
 * The decoder is a reference inverse: the program itself only encodes, and what it
 * relies on is that the encoding is injective.
 */
module Base64 {
  import opened Outcomes

  newtype byte = x: int | 0 <= x < 0x100

  /** The 6-bit value 0..63 written as the alphabet's character. */
  function IndexChar(i: int): (c: char)
    requires 0 <= i < 64
    ensures c != '='
  {
    if i < 26 then ('A' as int + i) as char
    else if i < 52 then ('a' as int + (i - 26)) as char
    else if i < 62 then ('0' as int + (i - 52)) as char
    else if i == 62 then '+'
    else '/'
  }

  /** The 6-bit value of an alphabet character; None for anything else, padding included. */
  function CharIndex(c: char): (r: Option<int>)
    ensures r.Some? ==> 0 <= r.value < 64 && IndexChar(r.value) == c
  {
    if 'A' <= c <= 'Z' then Some(c as int - 'A' as int)
    else if 'a' <= c <= 'z' then Some(c as int - 'a' as int + 26)
    else if '0' <= c <= '9' then Some(c as int - '0' as int + 52)
    else if c == '+' then Some(62)
    else if c == '/' then Some(63)
    else None
  }

  lemma CharIndexInverse(i: int)
    requires 0 <= i < 64
    ensures CharIndex(IndexChar(i)) == Some(i)
  {
  }

  /** The characters the encoder may emit. */
  predicate IsEncodingChar(c: char)
  {
    CharIndex(c).Some? || c == '='
  }

  /** The four 6-bit digits of three bytes, most significant bits first. */
  function Sextets(b0: byte, b1: byte, b2: byte): (r: seq<int>)
    ensures |r| == 4 && forall i | 0 <= i < 4 :: 0 <= r[i] < 64
  {
    [b0 as int / 4, b0 as int % 4 * 16 + b1 as int / 16, b1 as int % 16 * 4 + b2 as int / 64, b2 as int % 64]
  }

  /** Three bytes as four characters. */
  function EncodeGroup(b0: byte, b1: byte, b2: byte): (r: string)
    ensures |r| == 4
  {
    var d := Sextets(b0, b1, b2);
    [IndexChar(d[0]), IndexChar(d[1]), IndexChar(d[2]), IndexChar(d[3])]
  }

  /** A final group of one byte: two characters and two padding characters. */
  function EncodeOne(b0: byte): (r: string)
    ensures |r| == 4
  {
    var d := Sextets(b0, 0, 0);
    [IndexChar(d[0]), IndexChar(d[1]), '=', '=']
  }

  /** A final group of two bytes: three characters and one padding character. */
  function EncodeTwo(b0: byte, b1: byte): (r: string)
    ensures |r| == 4
  {
    var d := Sextets(b0, b1, 0);
    [IndexChar(d[0]), IndexChar(d[1]), IndexChar(d[2]), '=']
  }

  /** The padded encoding: every three input bytes become four characters. */
  function Encode(s: seq<byte>): (r: string)
    ensures |r| == (|s| + 2) / 3 * 4
    decreases |s|
  {
    if |s| == 0 then ""
    else if |s| == 1 then EncodeOne(s[0])
    else if |s| == 2 then EncodeTwo(s[0], s[1])
    else EncodeGroup(s[0], s[1], s[2]) + Encode(s[3..])
  }

  /** The three bytes that four 6-bit digits spell. */
  function Octets(c0: int, c1: int, c2: int, c3: int): seq<int>
  {
    [c0 * 4 + c1 / 16, c1 % 16 * 16 + c2 / 4, c2 % 4 * 64 + c3]
  }

  /** The bytes of the first n of three decoded bytes, when all four characters are digits. */
  function GroupBytes(c0: char, c1: char, c2: char, c3: char, n: nat): Option<seq<byte>>
    requires 1 <= n <= 3
  {
    match (CharIndex(c0), CharIndex(c1), CharIndex(c2), CharIndex(c3))
    case (Some(d0), Some(d1), Some(d2), Some(d3)) =>
      var o := Octets(d0, d1, d2, d3);
      if o[0] < 0x100 && o[1] < 0x100 && o[2] < 0x100 then
        Some([o[0] as byte, o[1] as byte, o[2] as byte][..n])
      else None
    case _ => None
  }

  /** The bytes of one group of four characters, reading the padding of a final group. */
  function DecodeGroup(s: string, last: bool): Option<seq<byte>>
    requires |s| == 4
  {
    if last && s[2] == '=' && s[3] == '=' then GroupBytes(s[0], s[1], 'A', 'A', 1)
    else if last && s[3] == '=' then GroupBytes(s[0], s[1], s[2], 'A', 2)
    else GroupBytes(s[0], s[1], s[2], s[3], 3)
  }

  /** Splitting a byte into its 6-bit digits and joining them again gives it back. */
  lemma SextetsOctets(b0: byte, b1: byte, b2: byte)
    ensures var d := Sextets(b0, b1, b2); Octets(d[0], d[1], d[2], d[3]) == [b0 as int, b1 as int, b2 as int]
  {
    var x0, x1, x2 := b0 as int, b1 as int, b2 as int;
    assert (x0 % 4 * 16 + x1 / 16) / 16 == x0 % 4;
    assert (x0 % 4 * 16 + x1 / 16) % 16 == x1 / 16;
    assert (x1 % 16 * 4 + x2 / 64) / 4 == x1 % 16;
    assert (x1 % 16 * 4 + x2 / 64) % 4 == x2 / 64;
  }

  /** Reference decoder: the inverse of Encode on its image. */
  function Decode(s: string): Option<seq<byte>>
    decreases |s|
  {
    if |s| == 0 then Some([])
    else if |s| < 4 then None
    else
      match DecodeGroup(s[..4], |s| == 4)
      case None => None
      case Some(head) =>
        match Decode(s[4..])
        case None => None
        case Some(tail) => Some(head + tail)
  }

  /** Four digits that spell three bytes decode to the first n of them. */
  lemma GroupBytesOf(b0: byte, b1: byte, b2: byte, c: seq<int>, n: nat)
    requires 1 <= n <= 3 && |c| == 4 && forall i | 0 <= i < 4 :: 0 <= c[i] < 64
    requires Octets(c[0], c[1], c[2], c[3]) == [b0 as int, b1 as int, b2 as int]
    ensures GroupBytes(IndexChar(c[0]), IndexChar(c[1]), IndexChar(c[2]), IndexChar(c[3]), n)
         == Some([b0, b1, b2][..n])
  {
    CharIndexInverse(c[0]);
    CharIndexInverse(c[1]);
    CharIndexInverse(c[2]);
    CharIndexInverse(c[3]);
  }

  lemma GroupRoundTrip(b0: byte, b1: byte, b2: byte, last: bool)
    ensures DecodeGroup(EncodeGroup(b0, b1, b2), last) == Some([b0, b1, b2])
  {
    var d := Sextets(b0, b1, b2);
    SextetsOctets(b0, b1, b2);
    GroupBytesOf(b0, b1, b2, d, 3);
    assert [b0, b1, b2][..3] == [b0, b1, b2];
  }

  lemma OneRoundTrip(b0: byte)
    ensures DecodeGroup(EncodeOne(b0), true) == Some([b0])
  {
    var d := Sextets(b0, 0, 0);
    var s := EncodeOne(b0);
    assert s[0] == IndexChar(d[0]) && s[1] == IndexChar(d[1]);
    assert d[2] == 0 && d[3] == 0 && IndexChar(0) == 'A';
    assert DecodeGroup(s, true) == GroupBytes(s[0], s[1], 'A', 'A', 1);
    SextetsOctets(b0, 0, 0);
    GroupBytesOf(b0, 0, 0, d, 1);
    assert [b0, 0 as byte, 0 as byte][..1] == [b0];
  }

  lemma TwoRoundTrip(b0: byte, b1: byte)
    ensures DecodeGroup(EncodeTwo(b0, b1), true) == Some([b0, b1])
  {
    var d := Sextets(b0, b1, 0);
    var s := EncodeTwo(b0, b1);
    assert s[0] == IndexChar(d[0]) && s[1] == IndexChar(d[1]) && s[2] == IndexChar(d[2]);
    assert d[3] == 0 && IndexChar(0) == 'A';
    assert s[2] != '=';
    assert DecodeGroup(s, true) == GroupBytes(s[0], s[1], s[2], 'A', 2);
    SextetsOctets(b0, b1, 0);
    GroupBytesOf(b0, b1, 0, d, 2);
    assert [b0, b1, 0 as byte][..2] == [b0, b1];
  }

  /** A group followed by a rest decodes to the group's bytes followed by the rest's. */
  lemma DecodeFront(g: string, rest: string, head: seq<byte>, tail: seq<byte>)
    requires |g| == 4 && DecodeGroup(g, |rest| == 0) == Some(head) && Decode(rest) == Some(tail)
    ensures Decode(g + rest) == Some(head + tail)
  {
    var s := g + rest;
    assert s[..4] == g && s[4..] == rest;
  }

  /** The encoding of a single byte decodes back to it. */
  lemma SingleRoundTrip(b0: byte)
    ensures Decode(Encode([b0])) == Some([b0])
  {
    assert [b0] + [] == [b0];
    OneRoundTrip(b0);
    DecodeFront(EncodeOne(b0), "", [b0], []);
    assert EncodeOne(b0) + "" == Encode([b0]);
  }

  /** The encoding of two bytes decodes back to them. */
  lemma PairRoundTrip(b0: byte, b1: byte)
    ensures Decode(Encode([b0, b1])) == Some([b0, b1])
  {
    assert [b0, b1] + [] == [b0, b1];
    TwoRoundTrip(b0, b1);
    DecodeFront(EncodeTwo(b0, b1), "", [b0, b1], []);
    assert EncodeTwo(b0, b1) + "" == Encode([b0, b1]);
  }

  /** A full leading group decodes back, given that the rest does. */
  lemma GroupThenRest(b0: byte, b1: byte, b2: byte, rest: seq<byte>)
    requires Decode(Encode(rest)) == Some(rest)
    ensures Decode(EncodeGroup(b0, b1, b2) + Encode(rest)) == Some([b0, b1, b2] + rest)
  {
    GroupRoundTrip(b0, b1, b2, |Encode(rest)| == 0);
    DecodeFront(EncodeGroup(b0, b1, b2), Encode(rest), [b0, b1, b2], rest);
  }

  /** Decoding undoes encoding, for every byte string. */
  lemma {:induction false} RoundTrip(s: seq<byte>)
    ensures Decode(Encode(s)) == Some(s)
    decreases |s|
  {
    if |s| == 0 {
    } else if |s| == 1 {
      SingleRoundTrip(s[0]);
      assert s == [s[0]];
    } else if |s| == 2 {
      PairRoundTrip(s[0], s[1]);
      assert s == [s[0], s[1]];
    } else {
      assert s == [s[0], s[1], s[2]] + s[3..];
      RoundTrip(s[3..]);
      GroupThenRest(s[0], s[1], s[2], s[3..]);
    }
  }

  /** Distinct byte strings have distinct encodings. */
  lemma Injective(a: seq<byte>, b: seq<byte>)
    ensures Encode(a) == Encode(b) <==> a == b
  {
    RoundTrip(a);
    RoundTrip(b);
  }

  /** The encoding uses only the alphabet and the padding character. */
  lemma {:induction false} EncodeAlphabet(s: seq<byte>)
    ensures forall c | c in Encode(s) :: IsEncodingChar(c)
    decreases |s|
  {
    if |s| == 0 {
    } else if |s| <= 2 {
      var d := Sextets(s[0], if |s| == 2 then s[1] else 0, 0);
      CharIndexInverse(d[0]);
      CharIndexInverse(d[1]);
      CharIndexInverse(d[2]);
    } else {
      var d := Sextets(s[0], s[1], s[2]);
      CharIndexInverse(d[0]);
      CharIndexInverse(d[1]);
      CharIndexInverse(d[2]);
      CharIndexInverse(d[3]);
      EncodeAlphabet(s[3..]);
      assert Encode(s) == EncodeGroup(s[0], s[1], s[2]) + Encode(s[3..]);
    }
  }

  /** Known encodings: "ABC" is one full group, "ABCD" ends with a padded group. */
  lemma Examples()
    ensures Encode([0x41, 0x42, 0x43]) == "QUJD"
    ensures Encode([0x41, 0x42, 0x43, 0x44]) == "QUJDRA=="
  {
    assert [0x41 as byte, 0x42, 0x43, 0x44][3..] == [0x44];
  }
}
