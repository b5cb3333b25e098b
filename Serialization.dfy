/**
 * The byte-aware `stringify` and `parse` of the extension's shared code, on
 * a flat record of keys mapped to text or bytes. `stringify` writes bytes as
 * base64 text, except under the cell-output key `text/html`, whose bytes are
 * written as the text they hold; `parse` turns the base64 text under
 * `rawData` back into bytes and leaves every other value as text.
 */
module Serialization {
  import opened Wrappers
  import Base64
  import FlatJson

  const HtmlKey: string := "text/html"
  const RawDataKey: string := "rawData"

  datatype Field = Text(text: string) | Bytes(data: seq<Base64.byte>)

  /** The members of a flat object, in the order they are written and read. */
  type Record = seq<(string, Field)>

  datatype ParseError = Json(error: FlatJson.JsonError) | InvalidBase64(key: string)

  predicate DistinctKeys(r: Record) {
    forall i, j :: 0 <= i < j < |r| ==> r[i].0 != r[j].0
  }

  /** Bytes read as text, one character per byte. */
  function BytesAsText(data: seq<Base64.byte>): (t: string)
    ensures |t| == |data| && forall i :: 0 <= i < |data| ==> t[i] as int == data[i]
  {
    seq(|data|, i requires 0 <= i < |data| => data[i] as char)
  }

  /** The string `stringify` writes for a field under `key`. */
  function WriteField(key: string, f: Field): string {
    match f
    case Text(t) => t
    case Bytes(b) => if key == HtmlKey then BytesAsText(b) else Base64.Encode(b)
  }

  /** The record with every value in its written form. */
  function ToMembers(r: Record): (ms: seq<FlatJson.Member>)
    ensures |ms| == |r|
    ensures forall i :: 0 <= i < |r| ==> ms[i] == (r[i].0, WriteField(r[i].0, r[i].1))
  {
    seq(|r|, i requires 0 <= i < |r| => (r[i].0, WriteField(r[i].0, r[i].1)))
  }

  function Stringify(r: Record): string {
    FlatJson.Write(ToMembers(r))
  }

  /** The field `parse` makes of the string under `key`. */
  function ReadField(key: string, text: string): (r: Result<Field, ParseError>)
    ensures key != RawDataKey ==> r == Ok(Text(text))
  {
    if key == RawDataKey then
      match Base64.Decode(text)
      case Some(b) => Ok(Bytes(b))
      case None => Err(InvalidBase64(key))
    else Ok(Text(text))
  }

  function FromMembers(ms: seq<FlatJson.Member>): (r: Result<Record, ParseError>)
    ensures r.Ok? ==> |r.value| == |ms|
    ensures r.Ok? ==> forall i :: 0 <= i < |ms| ==> r.value[i].0 == ms[i].0
  {
    if ms == [] then Ok([])
    else
      var f :- ReadField(ms[0].0, ms[0].1);
      var rest :- FromMembers(ms[1..]);
      Ok([(ms[0].0, f)] + rest)
  }

  /** A parsed record never holds a key twice, as a JavaScript object does not. */
  function Parse(text: string): (r: Result<Record, ParseError>)
    ensures r.Ok? ==> DistinctKeys(r.value)
  {
    match FlatJson.Read(text)
    case Err(e) => Err(Json(e))
    case Ok(ms) => FromMembers(ms)
  }

  /** What a field reads back as after being written: bytes outside `rawData` come back as their text. */
  function SettledField(key: string, f: Field): Field {
    if key == RawDataKey then f else Text(WriteField(key, f))
  }

  function Settled(r: Record): (s: Record)
    ensures |s| == |r|
  {
    seq(|r|, i requires 0 <= i < |r| => (r[i].0, SettledField(r[i].0, r[i].1)))
  }

  /** Every `rawData` field holds bytes. */
  predicate RawDataIsBytes(r: Record) {
    forall i :: 0 <= i < |r| && r[i].0 == RawDataKey ==> r[i].1.Bytes?
  }

  /** One written field reads back as its settled form. */
  lemma ReadWrittenField(key: string, f: Field)
    requires key == RawDataKey ==> f.Bytes?
    ensures ReadField(key, WriteField(key, f)) == Ok(SettledField(key, f))
  {
    if key == RawDataKey {
      Base64.DecodeEncode(f.data);
    }
  }

  lemma SplitFirst(r: Record)
    requires r != []
    ensures ToMembers(r)[0] == (r[0].0, WriteField(r[0].0, r[0].1))
    ensures ToMembers(r)[1..] == ToMembers(r[1..])
    ensures Settled(r) == [(r[0].0, SettledField(r[0].0, r[0].1))] + Settled(r[1..])
  {
  }

  lemma {:induction false} ReadWrittenFields(r: Record)
    requires RawDataIsBytes(r)
    ensures FromMembers(ToMembers(r)) == Ok(Settled(r))
    decreases |r|
  {
    if r != [] {
      SplitFirst(r);
      ReadWrittenField(r[0].0, r[0].1);
      assert RawDataIsBytes(r[1..]) by {
        forall i | 0 <= i < |r[1..]| && r[1..][i].0 == RawDataKey ensures r[1..][i].1.Bytes? {
          assert r[1..][i] == r[i + 1];
        }
      }
      ReadWrittenFields(r[1..]);
    }
  }

  /**
   * `parse` after `stringify` gives back every `rawData` field's exact
   * bytes and every text field's text; other byte fields come back as the
   * text that was written for them.
   */
  lemma ParseStringify(r: Record)
    requires DistinctKeys(r) && RawDataIsBytes(r)
    ensures Parse(Stringify(r)) == Ok(Settled(r))
  {
    var ms := ToMembers(r);
    assert FlatJson.DistinctKeys(ms);
    FlatJson.ReadWrite(ms);
    ReadWrittenFields(r);
  }

  /** Records that keep bytes exactly under `rawData` survive the round trip unchanged. */
  lemma ParseStringifyRoundTrip(r: Record)
    requires DistinctKeys(r)
    requires forall i :: 0 <= i < |r| ==> (r[i].0 == RawDataKey <==> r[i].1.Bytes?)
    ensures Parse(Stringify(r)) == Ok(r)
  {
    ParseStringify(r);
    assert Settled(r) == r;
  }

  /** A one-field record whose key and written value need no escaping. */
  lemma StringifySingle(key: string, f: Field)
    requires FlatJson.Plain(key) && FlatJson.Plain(WriteField(key, f))
    ensures Stringify([(key, f)]) == "{\"" + key + "\":\"" + WriteField(key, f) + "\"}"
  {
    assert ToMembers([(key, f)]) == [(key, WriteField(key, f))];
    FlatJson.WriteSinglePlain(key, WriteField(key, f));
  }

  // Literal values arrive through `requires` so the verifier does not unfold
  // the functions applied to them eagerly; the example lemmas call this one.
  lemma PlainExampleTexts()
    ensures FlatJson.Plain(RawDataKey) && FlatJson.Plain("AQID")
    ensures FlatJson.Plain(HtmlKey) && FlatJson.Plain("abc")
  {
  }

  // Literal values arrive through `requires` so the verifier does not unfold
  // the functions applied to them eagerly; the example lemmas call this one.
  lemma WriteFieldExamples(bytes: seq<Base64.byte>, html: seq<Base64.byte>)
    requires bytes == [1, 2, 3] && html == [97, 98, 99]
    ensures WriteField(RawDataKey, Bytes(bytes)) == "AQID"
    ensures WriteField(HtmlKey, Bytes(html)) == "abc"
  {
    Base64.EncodeExample();
  }

  // Literal values arrive through `requires` so the verifier does not unfold
  // the functions applied to them eagerly; the example lemmas call this one.
  lemma ExampleObjectTexts(base64: string, html: string)
    requires base64 == "AQID" && html == "abc"
    ensures "{\"" + RawDataKey + "\":\"" + base64 + "\"}" == "{\"rawData\":\"AQID\"}"
    ensures "{\"" + HtmlKey + "\":\"" + html + "\"}" == "{\"text/html\":\"abc\"}"
  {
  }

  // The example bytes are a parameter fixed by `requires`, which keeps the
  // verifier from unfolding the encoder on a literal.
  lemma StringifyBytesExample(numbers: seq<Base64.byte>)
    requires numbers == [1, 2, 3]
    ensures Stringify([(RawDataKey, Bytes(numbers))]) == "{\"rawData\":\"AQID\"}"
  {
    WriteFieldExamples(numbers, [97, 98, 99]);
    PlainExampleTexts();
    StringifySingle(RawDataKey, Bytes(numbers));
    ExampleObjectTexts(WriteField(RawDataKey, Bytes(numbers)), "abc");
  }

  // The example bytes are a parameter fixed by `requires`, which keeps the
  // verifier from unfolding the encoder on a literal.
  /** Bytes under `text/html` are written as the text they hold. */
  lemma StringifyHtmlExample(numbers: seq<Base64.byte>)
    requires numbers == [97, 98, 99]
    ensures Stringify([(HtmlKey, Bytes(numbers))]) == "{\"text/html\":\"abc\"}"
  {
    WriteFieldExamples([1, 2, 3], numbers);
    PlainExampleTexts();
    StringifySingle(HtmlKey, Bytes(numbers));
    ExampleObjectTexts("AQID", WriteField(HtmlKey, Bytes(numbers)));
  }

  // The example bytes are a parameter fixed by `requires`, which keeps the
  // verifier from unfolding the encoder on a literal.
  lemma ParseBytesExample(numbers: seq<Base64.byte>)
    requires numbers == [1, 2, 3]
    ensures Parse("{\"rawData\":\"AQID\"}") == Ok([(RawDataKey, Bytes(numbers))])
  {
    StringifyBytesExample(numbers);
    ParseStringifyRoundTrip([(RawDataKey, Bytes(numbers))]);
  }
}
