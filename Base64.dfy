/**
 * The base64 encoding of RFC 4648 section 4 (standard alphabet, `=`
 * padding), as Node's `Buffer.toString('base64')` writes it. The decoder is
 * strict: it accepts exactly the texts the encoder produces.
 */
module Base64 {
  import opened Wrappers

  type byte = b: int | 0 <= b < 256

  /** A 6-bit value, the unit one base64 character carries. */
  type sextet = v: int | 0 <= v < 64

  const Padding: char := '='

  /** The character of the base64 alphabet for `v` (table 1 of RFC 4648). */
  function CharOf(v: sextet): (c: char)
    ensures c != Padding
  {
    if v < 26 then ('A' as int + v) as char
    else if v < 52 then ('a' as int + (v - 26)) as char
    else if v < 62 then ('0' as int + (v - 52)) as char
    else if v == 62 then '+'
    else '/'
  }

  /** The value of an alphabet character; `None` for any other character. */
  function ValueOf(c: char): (r: Option<sextet>)
    ensures r.Some? ==> CharOf(r.value) == c
  {
    if 'A' <= c <= 'Z' then Some(c as int - 'A' as int)
    else if 'a' <= c <= 'z' then Some(c as int - 'a' as int + 26)
    else if '0' <= c <= '9' then Some(c as int - '0' as int + 52)
    else if c == '+' then Some(62)
    else if c == '/' then Some(63)
    else None
  }

  lemma ValueOfCharOf(v: sextet)
    ensures ValueOf(CharOf(v)) == Some(v)
  {
  }

  /* How three bytes split into four sextets, and how the sextets join again. */
  function Sextet0(b0: byte): sextet { b0 / 4 }
  function Sextet1(b0: byte, b1: byte): sextet { (b0 % 4) * 16 + b1 / 16 }
  function Sextet2(b1: byte, b2: byte): sextet { (b1 % 16) * 4 + b2 / 64 }
  function Sextet3(b2: byte): sextet { b2 % 64 }

  function Byte0(c0: sextet, c1: sextet): byte { (c0 as int) * 4 + (c1 as int) / 16 }
  function Byte1(c1: sextet, c2: sextet): byte { ((c1 as int) % 16) * 16 + (c2 as int) / 4 }
  function Byte2(c2: sextet, c3: sextet): byte { ((c2 as int) % 4) * 64 + c3 as int }

  lemma JoinSplit(b0: byte, b1: byte, b2: byte)
    ensures Byte0(Sextet0(b0), Sextet1(b0, b1)) == b0
    ensures Byte1(Sextet1(b0, b1), Sextet2(b1, b2)) == b1
    ensures Byte2(Sextet2(b1, b2), Sextet3(b2)) == b2
  {
  }

  lemma SplitJoin(c0: sextet, c1: sextet, c2: sextet, c3: sextet)
    ensures Sextet0(Byte0(c0, c1)) == c0
    ensures Sextet1(Byte0(c0, c1), Byte1(c1, c2)) == c1
    ensures Sextet2(Byte1(c1, c2), Byte2(c2, c3)) == c2
    ensures Sextet3(Byte2(c2, c3)) == c3
  {
  }

  /** Three bytes as four characters. */
  function EncodeGroup(b0: byte, b1: byte, b2: byte): string {
    [CharOf(Sextet0(b0)), CharOf(Sextet1(b0, b1)), CharOf(Sextet2(b1, b2)), CharOf(Sextet3(b2))]
  }

  /** A final single byte: two characters and two padding characters. */
  function EncodeOne(b0: byte): string {
    [CharOf(Sextet0(b0)), CharOf(Sextet1(b0, 0)), Padding, Padding]
  }

  /** A final pair of bytes: three characters and one padding character. */
  function EncodeTwo(b0: byte, b1: byte): string {
    [CharOf(Sextet0(b0)), CharOf(Sextet1(b0, b1)), CharOf(Sextet2(b1, 0)), Padding]
  }

  function Encode(data: seq<byte>): (s: string)
    ensures |s| == 4 * ((|data| + 2) / 3)
    decreases |data|
  {
    if |data| == 0 then ""
    else if |data| == 1 then EncodeOne(data[0])
    else if |data| == 2 then EncodeTwo(data[0], data[1])
    else EncodeGroup(data[0], data[1], data[2]) + Encode(data[3..])
  }

  /** Four alphabet characters as three bytes. */
  function DecodeGroup(q: string): (r: Option<seq<byte>>)
    requires |q| == 4
    ensures r.Some? ==> |r.value| == 3
  {
    match (ValueOf(q[0]), ValueOf(q[1]), ValueOf(q[2]), ValueOf(q[3]))
    case (Some(c0), Some(c1), Some(c2), Some(c3)) =>
      Some([Byte0(c0, c1), Byte1(c1, c2), Byte2(c2, c3)])
    case _ => None
  }

  /**
   * The last four characters, which may end in padding. The bits that the
   * padding leaves unused must be zero, as the encoder writes them.
   */
  function DecodeLast(q: string): (r: Option<seq<byte>>)
    requires |q| == 4
    ensures r.Some? ==> 1 <= |r.value| <= 3
  {
    if q[2] == Padding && q[3] == Padding then
      match (ValueOf(q[0]), ValueOf(q[1]))
      case (Some(c0), Some(c1)) =>
        if c1 % 16 == 0 then Some([Byte0(c0, c1)]) else None
      case _ => None
    else if q[3] == Padding then
      match (ValueOf(q[0]), ValueOf(q[1]), ValueOf(q[2]))
      case (Some(c0), Some(c1), Some(c2)) =>
        if c2 % 4 == 0 then Some([Byte0(c0, c1), Byte1(c1, c2)]) else None
      case _ => None
    else
      DecodeGroup(q)
  }

  /** Only text of the padded length for some number of bytes decodes. */
  function Decode(s: string): (r: Option<seq<byte>>)
    ensures r.Some? ==> |s| % 4 == 0 && 4 * |r.value| <= 3 * |s| < 4 * |r.value| + 12
    decreases |s|
  {
    if s == [] then Some([])
    else if |s| < 4 then None
    else if |s| == 4 then DecodeLast(s)
    else match DecodeGroup(s[..4])
      case None => None
      case Some(group) =>
        match Decode(s[4..])
        case None => None
        case Some(rest) => AddFour(|s| - 4); Some(group + rest)
  }

  /** Kept apart from `Decode`: stated inline, this step exhausts the solver. */
  lemma AddFour(n: nat)
    ensures (n + 4) % 4 == n % 4
  {
  }

  lemma GroupRoundTrip(b0: byte, b1: byte, b2: byte)
    ensures DecodeGroup(EncodeGroup(b0, b1, b2)) == Some([b0, b1, b2])
    ensures DecodeLast(EncodeGroup(b0, b1, b2)) == Some([b0, b1, b2])
  {
    ValueOfCharOf(Sextet0(b0));
    ValueOfCharOf(Sextet1(b0, b1));
    ValueOfCharOf(Sextet2(b1, b2));
    ValueOfCharOf(Sextet3(b2));
    JoinSplit(b0, b1, b2);
  }

  lemma OneRoundTrip(b0: byte)
    ensures DecodeLast(EncodeOne(b0)) == Some([b0])
  {
    var q := EncodeOne(b0);
    ValueOfCharOf(Sextet0(b0));
    ValueOfCharOf(Sextet1(b0, 0));
    assert ValueOf(q[0]) == Some(Sextet0(b0)) && ValueOf(q[1]) == Some(Sextet1(b0, 0));
    assert q[2] == Padding && q[3] == Padding;
    assert Sextet1(b0, 0) % 16 == 0;
    assert DecodeLast(q) == Some([Byte0(Sextet0(b0), Sextet1(b0, 0))]);
    JoinSplit(b0, 0, 0);
  }

  lemma TwoRoundTrip(b0: byte, b1: byte)
    ensures DecodeLast(EncodeTwo(b0, b1)) == Some([b0, b1])
  {
    var q := EncodeTwo(b0, b1);
    ValueOfCharOf(Sextet0(b0));
    ValueOfCharOf(Sextet1(b0, b1));
    ValueOfCharOf(Sextet2(b1, 0));
    assert ValueOf(q[0]) == Some(Sextet0(b0)) && ValueOf(q[1]) == Some(Sextet1(b0, b1));
    assert ValueOf(q[2]) == Some(Sextet2(b1, 0));
    assert q[2] != Padding && Sextet2(b1, 0) % 4 == 0;
    JoinSplit(b0, b1, 0);
  }

  /** One to three bytes encode to a single final group of four characters. */
  lemma DecodeEncodeFinal(data: seq<byte>)
    requires 1 <= |data| <= 3
    ensures |Encode(data)| == 4 && DecodeLast(Encode(data)) == Some(data)
  {
    if |data| == 1 {
      OneRoundTrip(data[0]);
      assert data == [data[0]];
    } else if |data| == 2 {
      TwoRoundTrip(data[0], data[1]);
      assert data == [data[0], data[1]];
    } else {
      GroupRoundTrip(data[0], data[1], data[2]);
      assert Encode(data) == EncodeGroup(data[0], data[1], data[2]) + "";
      assert EncodeGroup(data[0], data[1], data[2]) + "" == EncodeGroup(data[0], data[1], data[2]);
      assert data == [data[0], data[1], data[2]];
    }
  }

  /** A full group followed by more text decodes group by group. */
  lemma DecodeAfterGroup(g: string, t: string, head: seq<byte>, rest: seq<byte>)
    requires |g| == 4 && DecodeGroup(g) == Some(head)
    requires |t| >= 4 && Decode(t) == Some(rest)
    ensures Decode(g + t) == Some(head + rest)
  {
    assert (g + t)[..4] == g && (g + t)[4..] == t;
  }

  /** The first three bytes of a longer sequence encode to its first group. */
  lemma EncodeSplit(data: seq<byte>)
    requires |data| > 3
    ensures Encode(data) == EncodeGroup(data[0], data[1], data[2]) + Encode(data[3..])
    ensures |Encode(data[3..])| >= 4
  {
  }

  lemma HeadAndTail(data: seq<byte>)
    requires |data| > 3
    ensures [data[0], data[1], data[2]] + data[3..] == data
  {
    assert [data[0], data[1], data[2]] == data[..3];
  }

  lemma DecodeEncodeStep(data: seq<byte>)
    requires |data| > 3 && Decode(Encode(data[3..])) == Some(data[3..])
    ensures Decode(Encode(data)) == Some(data)
  {
    EncodeSplit(data);
    GroupRoundTrip(data[0], data[1], data[2]);
    HeadAndTail(data);
    DecodeAfterGroup(EncodeGroup(data[0], data[1], data[2]), Encode(data[3..]), [data[0], data[1], data[2]], data[3..]);
  }

  /** Decoding restores exactly the bytes that were encoded. */
  lemma {:induction false} DecodeEncode(data: seq<byte>)
    ensures Decode(Encode(data)) == Some(data)
    decreases |data|
  {
    if 1 <= |data| <= 3 {
      DecodeEncodeFinal(data);
    } else if |data| > 3 {
      DecodeEncode(data[3..]);
      DecodeEncodeStep(data);
    }
  }

  lemma EncodeDecodeGroup(q: string)
    requires |q| == 4 && DecodeGroup(q).Some?
    ensures var g := DecodeGroup(q).value; |g| == 3 && EncodeGroup(g[0], g[1], g[2]) == q
  {
    var c0, c1, c2, c3 := ValueOf(q[0]).value, ValueOf(q[1]).value, ValueOf(q[2]).value, ValueOf(q[3]).value;
    SplitJoin(c0, c1, c2, c3);
  }

  lemma SameFour(a: string, b: string)
    requires |a| == 4 && |b| == 4
    requires a[0] == b[0] && a[1] == b[1] && a[2] == b[2] && a[3] == b[3]
    ensures a == b
  {
  }

  lemma EncodeOneOfSextets(c0: sextet, c1: sextet)
    requires c1 % 16 == 0
    ensures EncodeOne(Byte0(c0, c1)) == [CharOf(c0), CharOf(c1), Padding, Padding]
  {
    SplitJoin(c0, c1, 0, 0);
    assert Byte1(c1, 0) == 0;
  }

  lemma EncodeTwoOfSextets(c0: sextet, c1: sextet, c2: sextet)
    requires c2 % 4 == 0
    ensures EncodeTwo(Byte0(c0, c1), Byte1(c1, c2)) == [CharOf(c0), CharOf(c1), CharOf(c2), Padding]
  {
    SplitJoin(c0, c1, c2, 0);
    assert Byte2(c2, 0) == 0;
  }

  lemma EncodeDecodeOne(q: string)
    requires |q| == 4 && q[2] == Padding && q[3] == Padding && DecodeLast(q).Some?
    ensures var g := DecodeLast(q).value; |g| == 1 && EncodeOne(g[0]) == q
  {
    var c0, c1 := ValueOf(q[0]).value, ValueOf(q[1]).value;
    assert DecodeLast(q).value == [Byte0(c0, c1)];
    EncodeOneOfSextets(c0, c1);
    SameFour([CharOf(c0), CharOf(c1), Padding, Padding], q);
  }

  lemma EncodeDecodeTwo(q: string)
    requires |q| == 4 && q[2] != Padding && q[3] == Padding && DecodeLast(q).Some?
    ensures var g := DecodeLast(q).value; |g| == 2 && EncodeTwo(g[0], g[1]) == q
  {
    var c0, c1, c2 := ValueOf(q[0]).value, ValueOf(q[1]).value, ValueOf(q[2]).value;
    assert DecodeLast(q).value == [Byte0(c0, c1), Byte1(c1, c2)];
    EncodeTwoOfSextets(c0, c1, c2);
    SameFour([CharOf(c0), CharOf(c1), CharOf(c2), Padding], q);
  }

  lemma EncodeDecodeLast(q: string)
    requires |q| == 4 && DecodeLast(q).Some?
    ensures var g := DecodeLast(q).value; 1 <= |g| <= 3 && Encode(g) == q
  {
    var g := DecodeLast(q).value;
    if q[2] == Padding && q[3] == Padding {
      EncodeDecodeOne(q);
    } else if q[3] == Padding {
      EncodeDecodeTwo(q);
    } else {
      EncodeDecodeGroup(q);
      assert Encode(g) == EncodeGroup(g[0], g[1], g[2]) + Encode(g[3..]);
    }
  }

  /** The decoder accepts only what the encoder writes: the decoded bytes re-encode to the same text. */
  lemma {:induction false} EncodeDecode(s: string)
    requires Decode(s).Some?
    ensures Encode(Decode(s).value) == s
    decreases |s|
  {
    if |s| == 4 {
      EncodeDecodeLast(s);
    } else if |s| > 4 {
      var g := DecodeGroup(s[..4]).value;
      EncodeDecodeGroup(s[..4]);
      EncodeDecode(s[4..]);
      var data := Decode(s).value;
      assert data == g + Decode(s[4..]).value;
      assert data[..3] == g && data[3..] == Decode(s[4..]).value;
      assert s == s[..4] + s[4..];
    }
  }

  /** Base64 text and byte sequences correspond one to one. */
  lemma DecodeIffEncode(s: string, data: seq<byte>)
    ensures Decode(s) == Some(data) <==> Encode(data) == s
  {
    if Decode(s) == Some(data) {
      EncodeDecode(s);
    }
    if Encode(data) == s {
      DecodeEncode(data);
    }
  }

  lemma EncodeExample()
    ensures Encode([1, 2, 3]) == "AQID"
  {
  }
}
