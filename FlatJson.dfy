/**
 * The JSON text of a flat object whose members all have string values: the
 * shape `stringify` writes once byte fields have become strings, and the
 * shape `parse` reads. Writing follows JSON.stringify (no whitespace, the
 * ECMAScript escaping of strings); reading accepts what JSON.parse accepts
 * for this shape (whitespace between tokens, the string escapes other than
 * surrogate code units) and keeps members in text order, a repeated key
 * keeping its first position and taking its last value.
 */
module FlatJson {
  import opened Wrappers
  import opened Text

  /** One member of an object: its key and its string value, in text order. */
  type Member = (string, string)

  datatype JsonError =
    | UnexpectedEnd
    | UnexpectedCharacter(found: char)
    | InvalidEscape
    | UnsupportedValue   // a member value that is not a string
    | TrailingText

  const Quote: char := '"'
  const Backslash: char := '\\'
  const Backspace: char := 0x08 as char
  const FormFeed: char := 0x0C as char

  /** A hexadecimal digit, in lower or upper case. */
  function HexDigit(v: int, upper: bool): (c: char)
    requires 0 <= v < 16
  {
    if v < 10 then ('0' as int + v) as char
    else if upper then ('A' as int + (v - 10)) as char
    else ('a' as int + (v - 10)) as char
  }

  /** The four hexadecimal digits of a UTF-16 code unit, most significant first. */
  function Hex4(v: int, upper: bool): (r: string)
    requires 0 <= v < 0x10000
    ensures |r| == 4
  {
    var q1 := v / 16;
    var q2 := q1 / 16;
    var q3 := q2 / 16;
    [HexDigit(q3, upper), HexDigit(q2 % 16, upper), HexDigit(q1 % 16, upper), HexDigit(v % 16, upper)]
  }

  function HexValue(c: char): (r: Option<int>)
    ensures r.Some? ==> 0 <= r.value < 16
  {
    if '0' <= c <= '9' then Some(c as int - '0' as int)
    else if 'a' <= c <= 'f' then Some(c as int - 'a' as int + 10)
    else if 'A' <= c <= 'F' then Some(c as int - 'A' as int + 10)
    else None
  }

  /** How JSON.stringify writes one character inside a string literal. */
  function EscapeChar(c: char): (r: string)
    ensures r != [] && (r[0] == Backslash || (r == [c] && c != Quote && c >= ' '))
    ensures r == [c] <==> c >= ' ' && c != Quote && c != Backslash
  {
    if c == Quote then [Backslash, Quote]
    else if c == Backslash then [Backslash, Backslash]
    else if c == Backspace then "\\b"
    else if c == FormFeed then "\\f"
    else if c == '\n' then "\\n"
    else if c == '\r' then "\\r"
    else if c == '\t' then "\\t"
    else if c < ' ' then "\\u" + Hex4(c as int, false)
    else [c]
  }

  function Escape(s: string): string {
    if s == [] then [] else EscapeChar(s[0]) + Escape(s[1..])
  }

  function QuoteString(s: string): string {
    [Quote] + Escape(s) + [Quote]
  }

  function WritePair(m: Member): string {
    QuoteString(m.0) + ":" + QuoteString(m.1)
  }

  function WriteMembers(ms: seq<Member>): string {
    if ms == [] then ""
    else if |ms| == 1 then WritePair(ms[0])
    else WritePair(ms[0]) + "," + WriteMembers(ms[1..])
  }

  /** The object text JSON.stringify produces for these members, in order. */
  function Write(ms: seq<Member>): string {
    "{" + WriteMembers(ms) + "}"
  }

  /** The character after a backslash, and the text after the escape. */
  function ReadEscape(s: string): (r: Result<(char, string), JsonError>)
    ensures r.Ok? ==> |r.value.1| < |s|
  {
    if s == [] then Err(UnexpectedEnd)
    else if s[0] == Quote || s[0] == Backslash || s[0] == '/' then Ok((s[0], s[1..]))
    else if s[0] == 'b' then Ok((Backspace, s[1..]))
    else if s[0] == 'f' then Ok((FormFeed, s[1..]))
    else if s[0] == 'n' then Ok(('\n', s[1..]))
    else if s[0] == 'r' then Ok(('\r', s[1..]))
    else if s[0] == 't' then Ok(('\t', s[1..]))
    else if s[0] == 'u' && |s| >= 5 then
      match (HexValue(s[1]), HexValue(s[2]), HexValue(s[3]), HexValue(s[4]))
      case (Some(h0), Some(h1), Some(h2), Some(h3)) =>
        var code := ((h0 * 16 + h1) * 16 + h2) * 16 + h3;
        if 0xD800 <= code < 0xE000 then Err(InvalidEscape) else Ok((code as char, s[5..]))
      case _ => Err(InvalidEscape)
    else Err(InvalidEscape)
  }

  /**
   * The characters of a string literal up to its closing quote (the opening
   * quote already consumed), and the text after the closing quote.
   */
  function ReadStringBody(s: string): (r: Result<(string, string), JsonError>)
    ensures r.Ok? ==> |r.value.1| < |s|
    decreases |s|
  {
    if s == [] then Err(UnexpectedEnd)
    else if s[0] == Quote then Ok(([], s[1..]))
    else if s[0] < ' ' then Err(UnexpectedCharacter(s[0]))
    else
      var head :- if s[0] == Backslash then ReadEscape(s[1..]) else Ok((s[0], s[1..]));
      var (c, after) := head;
      var body :- ReadStringBody(after);
      var (t, rest) := body;
      Ok(([c] + t, rest))
  }

  /** A string literal at the start of `s`. */
  function ReadString(s: string): (r: Result<(string, string), JsonError>)
    ensures r.Ok? ==> |r.value.1| < |s|
  {
    if s == [] then Err(UnexpectedEnd)
    else if s[0] != Quote then Err(UnexpectedCharacter(s[0]))
    else ReadStringBody(s[1..])
  }

  /**
   * Adds a member at the end of those read so far; a known key keeps its
   * place and takes the new value, as for a JavaScript object whose keys are
   * not array indices.
   */
  function Insert(ms: seq<Member>, key: string, value: string): (r: seq<Member>)
    ensures !HasKey(ms, key) ==> r == ms + [(key, value)]
    ensures forall i :: 0 <= i < |r| ==> r[i].0 == key || HasKey(ms, r[i].0)
    ensures DistinctKeys(ms) ==> DistinctKeys(r)
  {
    if ms == [] then [(key, value)]
    else if ms[0].0 == key then [(key, value)] + ms[1..]
    else [ms[0]] + Insert(ms[1..], key, value)
  }

  predicate HasKey(ms: seq<Member>, key: string) {
    exists i :: 0 <= i < |ms| && ms[i].0 == key
  }

  /** A repeated key keeps the place of its first occurrence and takes the new value. */
  lemma {:induction false} InsertExisting(ms: seq<Member>, key: string, value: string, k: nat)
    requires k < |ms| && ms[k].0 == key
    requires forall j :: 0 <= j < k ==> ms[j].0 != key
    ensures Insert(ms, key, value) == ms[k := (key, value)]
    decreases k
  {
    if k > 0 {
      InsertExisting(ms[1..], key, value, k - 1);
      assert [ms[0]] + ms[1..][k - 1 := (key, value)] == ms[k := (key, value)];
    }
  }

  /** No key occurs twice. */
  predicate DistinctKeys(ms: seq<Member>) {
    forall i, j :: 0 <= i < j < |ms| ==> ms[i].0 != ms[j].0
  }

  /**
   * The members from a key onwards up to the closing brace, added to `acc`;
   * also the text after the brace.
   */
  function ReadMembers(s: string, acc: seq<Member>): (r: Result<(seq<Member>, string), JsonError>)
    ensures r.Ok? ==> |r.value.1| < |s|
    ensures r.Ok? && DistinctKeys(acc) ==> DistinctKeys(r.value.0)
    decreases |s|
  {
    var key :- ReadString(s);
    var afterKey := TrimStart(key.1);
    if afterKey == [] then Err(UnexpectedEnd)
    else if afterKey[0] != ':' then Err(UnexpectedCharacter(afterKey[0]))
    else
      var atValue := TrimStart(afterKey[1..]);
      if atValue == [] then Err(UnexpectedEnd)
      else if atValue[0] != Quote then Err(UnsupportedValue)
      else
        var value :- ReadString(atValue);
        var acc' := Insert(acc, key.0, value.0);
        var next := TrimStart(value.1);
        if next == [] then Err(UnexpectedEnd)
        else if next[0] == ',' then ReadMembers(TrimStart(next[1..]), acc')
        else if next[0] == '}' then Ok((acc', next[1..]))
        else Err(UnexpectedCharacter(next[0]))
  }

  /** Reads a flat object of strings, members in text order; no key is read twice. */
  function Read(text: string): (r: Result<seq<Member>, JsonError>)
    ensures r.Ok? ==> DistinctKeys(r.value)
  {
    var t := TrimStart(text);
    if t == [] then Err(UnexpectedEnd)
    else if t[0] != '{' then Err(UnexpectedCharacter(t[0]))
    else ReadObjectBody(TrimStart(t[1..]))
  }

  /** An object after its opening brace, up to the end of the text. */
  function ReadObjectBody(body: string): (r: Result<seq<Member>, JsonError>)
    ensures r.Ok? ==> DistinctKeys(r.value)
  {
    if body != [] && body[0] == '}' then
      if TrimStart(body[1..]) == [] then Ok([]) else Err(TrailingText)
    else
      var members :- ReadMembers(body, []);
      if TrimStart(members.1) == [] then Ok(members.0) else Err(TrailingText)
  }

  lemma HexRoundTrip(v: int, upper: bool)
    requires 0 <= v < 16
    ensures HexValue(HexDigit(v, upper)) == Some(v)
  {
  }

  lemma TrimStartAtNonBlank(s: string)
    requires s != [] && !IsBlank(s[0])
    ensures TrimStart(s) == s
  {
  }

  /** Every single-character escape stands for the character JSON gives it, `\/` included. */
  lemma ReadShortEscape(tail: string)
    ensures ReadEscape([Quote] + tail) == Ok((Quote, tail))
    ensures ReadEscape([Backslash] + tail) == Ok((Backslash, tail))
    ensures ReadEscape("/" + tail) == Ok(('/', tail))
    ensures ReadEscape("b" + tail) == Ok((Backspace, tail))
    ensures ReadEscape("f" + tail) == Ok((FormFeed, tail))
    ensures ReadEscape("n" + tail) == Ok(('\n', tail))
    ensures ReadEscape("r" + tail) == Ok(('\r', tail))
    ensures ReadEscape("t" + tail) == Ok(('\t', tail))
  {
  }

  /**
   * Any character below U+10000, written as `\u` and four hexadecimal digits
   * in either case, reads back as itself.
   */
  lemma ReadUnicodeEscape(c: char, upper: bool, tail: string)
    requires c as int < 0x10000
    ensures ReadEscape("u" + Hex4(c as int, upper) + tail) == Ok((c, tail))
  {
    var v := c as int;
    var s := "u" + Hex4(v, upper) + tail;
    var q1 := v / 16;
    var q2 := q1 / 16;
    var q3 := q2 / 16;
    HexRoundTrip(q3, upper);
    HexRoundTrip(q2 % 16, upper);
    HexRoundTrip(q1 % 16, upper);
    HexRoundTrip(v % 16, upper);
    assert s[1] == HexDigit(q3, upper) && s[2] == HexDigit(q2 % 16, upper);
    assert s[3] == HexDigit(q1 % 16, upper) && s[4] == HexDigit(v % 16, upper);
    assert ((q3 * 16 + q2 % 16) * 16 + q1 % 16) * 16 + v % 16 == v;
    assert s[5..] == tail;
  }

  /** Each written character reads back as itself, whatever follows it. */
  lemma ReadEscapedChar(c: char, tail: string)
    requires ReadStringBody(tail).Ok?
    ensures ReadStringBody(EscapeChar(c) + tail)
         == Ok(([c] + ReadStringBody(tail).value.0, ReadStringBody(tail).value.1))
  {
    var e := EscapeChar(c);
    var s := e + tail;
    if e[0] == Backslash {
      assert s[0] == Backslash;
      if c < ' ' && c != Backspace && c != FormFeed && c != '\n' && c != '\r' && c != '\t' {
        assert s[1..] == "u" + Hex4(c as int, false) + tail;
        ReadUnicodeEscape(c, false, tail);
      } else {
        assert |e| == 2 && s[1] == e[1] && s[2..] == tail;
        assert s[1..] == [e[1]] + tail;
        ReadShortEscape(tail);
      }
    } else {
      assert s[0] == c && s[1..] == tail;
    }
  }

  /** The escaped text of a string, then the closing quote, reads back as that string. */
  lemma {:induction false} ReadEscaped(s: string, rest: string)
    ensures ReadStringBody(Escape(s) + [Quote] + rest) == Ok((s, rest))
    decreases |s|
  {
    if s == [] {
      assert Escape(s) + [Quote] + rest == [Quote] + rest;
    } else {
      assert Escape(s) + [Quote] + rest == EscapeChar(s[0]) + (Escape(s[1..]) + [Quote] + rest);
      ReadEscaped(s[1..], rest);
      ReadEscapedChar(s[0], Escape(s[1..]) + [Quote] + rest);
      assert [s[0]] + s[1..] == s;
    }
  }

  /** A written string literal reads back as the string, leaving what follows it. */
  lemma ReadQuoted(s: string, rest: string)
    ensures ReadString(QuoteString(s) + rest) == Ok((s, rest))
  {
    var t := QuoteString(s) + rest;
    assert t[0] == Quote && t[1..] == Escape(s) + [Quote] + rest;
    ReadEscaped(s, rest);
  }

  /** None of the keys of `ms` is already in `acc`. */
  predicate FreshKeys(ms: seq<Member>, acc: seq<Member>) {
    forall i :: 0 <= i < |ms| ==> !HasKey(acc, ms[i].0)
  }

  /** Reading one written member, followed by a separator or the closing brace. */
  lemma ReadWrittenPair(k: string, v: string, x: string, acc: seq<Member>)
    requires x != [] && (x[0] == ',' || x[0] == '}') && !HasKey(acc, k)
    ensures ReadMembers(WritePair((k, v)) + x, acc)
         == if x[0] == ',' then ReadMembers(TrimStart(x[1..]), acc + [(k, v)]) else Ok((acc + [(k, v)], x[1..]))
  {
    var afterKey := ":" + QuoteString(v) + x;
    assert WritePair((k, v)) + x == QuoteString(k) + afterKey;
    ReadQuoted(k, afterKey);
    TrimStartAtNonBlank(afterKey);
    assert afterKey[1..] == QuoteString(v) + x;
    TrimStartAtNonBlank(QuoteString(v) + x);
    ReadQuoted(v, x);
    TrimStartAtNonBlank(x);
  }

  lemma FreshKeysOfRest(ms: seq<Member>, acc: seq<Member>)
    requires ms != [] && DistinctKeys(ms) && FreshKeys(ms, acc)
    ensures DistinctKeys(ms[1..]) && FreshKeys(ms[1..], acc + [ms[0]])
  {
    var rest, acc' := ms[1..], acc + [ms[0]];
    forall i | 0 <= i < |rest| ensures !HasKey(acc', rest[i].0) {
      assert rest[i] == ms[i + 1];
    }
  }

  lemma ReadWrittenLastMember(m: Member, tail: string, acc: seq<Member>)
    requires !HasKey(acc, m.0)
    ensures ReadMembers(WriteMembers([m]) + "}" + tail, acc) == Ok((acc + [m], tail))
  {
    assert WriteMembers([m]) + "}" + tail == WritePair(m) + ("}" + tail);
    ReadWrittenPair(m.0, m.1, "}" + tail, acc);
    assert ("}" + tail)[1..] == tail;
  }

  lemma ReadWrittenMemberThenMore(ms: seq<Member>, tail: string, acc: seq<Member>)
    requires |ms| > 1 && !HasKey(acc, ms[0].0)
    ensures ReadMembers(WriteMembers(ms) + "}" + tail, acc)
         == ReadMembers(WriteMembers(ms[1..]) + "}" + tail, acc + [ms[0]])
  {
    var y := WriteMembers(ms[1..]) + "}" + tail;
    assert WriteMembers(ms) + "}" + tail == WritePair(ms[0]) + ("," + y);
    ReadWrittenPair(ms[0].0, ms[0].1, "," + y, acc);
    assert ("," + y)[1..] == y;
    TrimStartAtNonBlank(y);
  }

  lemma {:induction false} ReadWrittenMembers(ms: seq<Member>, tail: string, acc: seq<Member>)
    requires ms != [] && DistinctKeys(ms) && FreshKeys(ms, acc)
    ensures ReadMembers(WriteMembers(ms) + "}" + tail, acc) == Ok((acc + ms, tail))
    decreases |ms|
  {
    if |ms| == 1 {
      ReadWrittenLastMember(ms[0], tail, acc);
      assert [ms[0]] == ms;
    } else {
      ReadWrittenMemberThenMore(ms, tail, acc);
      FreshKeysOfRest(ms, acc);
      ReadWrittenMembers(ms[1..], tail, acc + [ms[0]]);
      assert acc + [ms[0]] + ms[1..] == acc + ms;
    }
  }

  lemma ReadOpenBrace(body: string)
    requires body != [] && !IsBlank(body[0])
    ensures Read("{" + body) == ReadObjectBody(body)
  {
    TrimStartAtNonBlank("{" + body);
    assert ("{" + body)[1..] == body;
    TrimStartAtNonBlank(body);
  }

  lemma ReadWrittenObjectBody(ms: seq<Member>)
    requires ms != [] && DistinctKeys(ms)
    ensures ReadObjectBody(WriteMembers(ms) + "}") == Ok(ms)
  {
    assert WriteMembers(ms) + "}" == WriteMembers(ms) + "}" + "";
    ReadWrittenMembers(ms, "", []);
    assert [] + ms == ms;
  }

  /** What `Write` writes for members with distinct keys, `Read` reads back unchanged and in order. */
  lemma ReadWrite(ms: seq<Member>)
    requires DistinctKeys(ms)
    ensures Read(Write(ms)) == Ok(ms)
  {
    assert Write(ms) == "{" + (WriteMembers(ms) + "}");
    ReadOpenBrace(WriteMembers(ms) + "}");
    if ms != [] {
      ReadWrittenObjectBody(ms);
    }
  }

  /** Text without quotes, backslashes or control characters is written as it is. */
  predicate Plain(s: string) {
    forall i :: 0 <= i < |s| ==> s[i] >= ' ' && s[i] != Quote && s[i] != Backslash
  }

  lemma {:induction false} EscapePlain(s: string)
    requires Plain(s)
    ensures Escape(s) == s
    decreases |s|
  {
    if s != [] {
      assert Plain(s[1..]) by {
        forall i | 0 <= i < |s[1..]| ensures s[1..][i] >= ' ' && s[1..][i] != Quote && s[1..][i] != Backslash {
          assert s[1..][i] == s[i + 1];
        }
      }
      EscapePlain(s[1..]);
      assert [s[0]] + s[1..] == s;
    }
  }

  /** A single member whose key and value need no escaping is written verbatim between quotes. */
  lemma WriteSinglePlain(key: string, value: string)
    requires Plain(key) && Plain(value)
    ensures Write([(key, value)]) == "{\"" + key + "\":\"" + value + "\"}"
  {
    EscapePlain(key);
    EscapePlain(value);
  }
}
