/**
 * The pieces of Go's strings and strconv packages that the trust list relies on:
 * strings.Split with a one-character separator, strconv.ParseUint(s, 16, 16) and the
 * "%x" verb of fmt for a 16-bit value. A Go string is a sequence of bytes; here it is a
 * string with one character per byte.
 */
module GoText {
  import opened Outcomes

  newtype uint16 = x: int | 0 <= x < 0x1_0000

  /** Number of occurrences of c in s. */
  function Count(s: string, c: char): nat
  {
    if |s| == 0 then 0 else (if s[0] == c then 1 else 0) + Count(s[1..], c)
  }

  /** strings.Split(s, [sep]): the pieces between separators, always one more than separators. */
  function Split(s: string, sep: char): (r: seq<string>)
    ensures |r| == Count(s, sep) + 1
    ensures forall i | 0 <= i < |r| :: sep !in r[i]
    decreases |s|
  {
    if |s| == 0 then [""]
    else if s[0] == sep then [""] + Split(s[1..], sep)
    else
      var rest := Split(s[1..], sep);
      [[s[0]] + rest[0]] + rest[1..]
  }

  /** strings.Join(pieces, [sep]). */
  function Join(pieces: seq<string>, sep: char): string
  {
    if |pieces| == 0 then ""
    else if |pieces| == 1 then pieces[0]
    else pieces[0] + [sep] + Join(pieces[1..], sep)
  }

  /** Joining the pieces of a split gives back the input. */
  lemma {:induction false} JoinSplit(s: string, sep: char)
    ensures Join(Split(s, sep), sep) == s
    decreases |s|
  {
    if |s| == 0 {
    } else if s[0] == sep {
      JoinSplit(s[1..], sep);
      assert s == "" + [sep] + s[1..];
    } else {
      var rest := Split(s[1..], sep);
      JoinSplit(s[1..], sep);
      if |rest| == 1 {
        assert s == [s[0]] + rest[0];
      } else {
        assert rest == [rest[0]] + rest[1..];
        assert Join(rest, sep) == rest[0] + [sep] + Join(rest[1..], sep);
        assert ([[s[0]] + rest[0]] + rest[1..])[1..] == rest[1..];
        assert s == [s[0]] + (rest[0] + [sep] + Join(rest[1..], sep));
      }
    }
  }

  /** A text without the separator is one piece. */
  lemma {:induction false} SplitNone(s: string, sep: char)
    requires sep !in s
    ensures Split(s, sep) == [s]
    decreases |s|
  {
    if |s| > 0 {
      assert sep !in s[1..];
      SplitNone(s[1..], sep);
      assert s == [s[0]] + s[1..];
    }
  }

  /** Splitting a text that starts with a separator-free piece and a separator. */
  lemma {:induction false} SplitCons(a: string, sep: char, b: string)
    requires sep !in a
    ensures Split(a + [sep] + b, sep) == [a] + Split(b, sep)
    decreases |a|
  {
    if |a| == 0 {
      assert a + [sep] + b == [sep] + b;
      assert ([sep] + b)[1..] == b;
    } else {
      var s := a + [sep] + b;
      assert s[0] == a[0] && s[1..] == a[1..] + [sep] + b;
      SplitCons(a[1..], sep, b);
      assert [a[0]] + a[1..] == a;
    }
  }

  /** Three separator-free pieces joined by the separator split back into those pieces. */
  lemma SplitThree(a: string, b: string, c: string, sep: char)
    requires sep !in a && sep !in b && sep !in c
    ensures Split(a + [sep] + b + [sep] + c, sep) == [a, b, c]
  {
    SplitNone(c, sep);
    SplitCons(b, sep, c);
    assert a + [sep] + b + [sep] + c == a + [sep] + (b + [sep] + c);
    SplitCons(a, sep, b + [sep] + c);
  }

  /** The value of a hexadecimal digit of either case; None for anything else. */
  function HexDigit(c: char): (r: Option<int>)
    ensures r.Some? ==> 0 <= r.value < 16
  {
    if '0' <= c <= '9' then Some(c as int - '0' as int)
    else if 'a' <= c <= 'f' then Some(c as int - 'a' as int + 10)
    else if 'A' <= c <= 'F' then Some(c as int - 'A' as int + 10)
    else None
  }

  predicate IsHex(s: string)
  {
    forall i | 0 <= i < |s| :: HexDigit(s[i]).Some?
  }

  /** The number a string of hexadecimal digits spells, most significant digit first. */
  function HexValue(s: string): nat
    requires IsHex(s)
    decreases |s|
  {
    if |s| == 0 then 0 else HexValue(s[..|s| - 1]) * 16 + HexDigit(s[|s| - 1]).value
  }

  /**
   * strconv.ParseUint(s, 16, 16): the value of a non-empty string of hexadecimal digits
   * (no sign, no "0x" prefix, no underscores) that fits in 16 bits, and an error otherwise.
   */
  function ParseHex16(s: string): (r: Option<uint16>)
    ensures |s| == 0 ==> r.None?                                    // the empty text is a syntax error
    ensures r.Some? ==> IsHex(s) && HexValue(s) == r.value as nat     // accepted text spells the value
    ensures IsHex(s) && HexValue(s) > 0xFFFF ==> r.None?            // out of range for 16 bits
    ensures 0 < |s| && IsHex(s) && HexValue(s) <= 0xFFFF ==> r.Some?
  {
    if |s| > 0 && IsHex(s) && HexValue(s) <= 0xFFFF then Some(HexValue(s) as uint16) else None
  }

  /** The lower-case digit of a value below 16. */
  function LowerHexDigit(d: int): (c: char)
    requires 0 <= d < 16
    ensures HexDigit(c) == Some(d) && c != ':' && c != '#' && c != '\n'
    ensures '0' <= c <= '9' || 'a' <= c <= 'f'
  {
    if d < 10 then ('0' as int + d) as char else ('a' as int + d - 10) as char
  }

  /** fmt's "%x" of an unsigned value: lower-case digits without leading zeros, "0" for zero. */
  function FormatHex(v: nat): (r: string)
    ensures |r| > 0 && IsHex(r)
    ensures forall c | c in r :: c != ':' && c != '#' && c != '\n'
    ensures forall c | c in r :: '0' <= c <= '9' || 'a' <= c <= 'f'  // lower case only
    ensures r[0] == '0' <==> v == 0  // no leading zero
    ensures v == 0 ==> r == "0"
    decreases v
  {
    if v < 16 then [LowerHexDigit(v)] else FormatHex(v / 16) + [LowerHexDigit(v % 16)]
  }

  /** Parsing what "%x" printed gives back the 16-bit value. */
  lemma {:induction false} ParseFormatHex(v: uint16)
    ensures ParseHex16(FormatHex(v as nat)) == Some(v)
  {
    HexValueFormat(v as nat);
  }

  lemma {:induction false} HexValueFormat(v: nat)
    ensures HexValue(FormatHex(v)) == v
    decreases v
  {
    var r := FormatHex(v);
    if v < 16 {
      assert r[..0] == [];
    } else {
      HexValueFormat(v / 16);
      assert r[..|r| - 1] == FormatHex(v / 16);
    }
  }

  /** Leading zeros are accepted and do not change the value. */
  lemma {:induction false} LeadingZero(s: string)
    requires |s| > 0
    ensures ParseHex16("0" + s) == ParseHex16(s)
  {
    if IsHex(s) {
      LeadingZeroValue(s);
    } else {
      var i :| 0 <= i < |s| && HexDigit(s[i]).None?;
      assert ("0" + s)[i + 1] == s[i];
    }
  }

  lemma {:induction false} LeadingZeroValue(s: string)
    requires IsHex(s)
    ensures IsHex("0" + s) && HexValue("0" + s) == HexValue(s)
    decreases |s|
  {
    var t := "0" + s;
    assert forall i | 0 < i < |t| :: t[i] == s[i - 1];
    if |s| > 0 {
      LeadingZeroValue(s[..|s| - 1]);
      assert t[..|t| - 1] == "0" + s[..|s| - 1];
    }
  }

  /** A prefix, a sign, an underscore or a blank makes the text unparseable. */
  lemma RejectsNonDigit(s: string, i: nat)
    requires i < |s| && s[i] in "xX+-_ \t\r"
    ensures ParseHex16(s) == None
  {
    assert HexDigit(s[i]).None?;
  }
}
