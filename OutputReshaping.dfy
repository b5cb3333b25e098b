/**
 * Reshaping of a string output value for the notebook UI
 * (reshapeOutputValueForVsCode): under the error mime type the message is
 * wrapped in the error object the UI expects; under any other mime type the
 * string is passed on as it is.
 */
module OutputReshaping {
  import opened Wrappers
  import FlatJson

  const ErrorOutputMimeType: string := "application/vnd.code.notebook.error"

  /** The JSON text before and after the message in a wrapped error. */
  const ErrorPrefix: string := "{\"ename\":\"Error\",\"evalue\":"
  const ErrorSuffix: string := ",\"traceback\":[]}"

  /** The error object the UI reads: its name, its message and its stack trace lines. */
  datatype ErrorOutput = ErrorOutput(ename: string, evalue: string, traceback: seq<string>)

  /** The text of the reshaped value, before it is encoded as bytes. */
  function ReshapeOutputValue(value: string, mime: string): (text: string)
    ensures mime != ErrorOutputMimeType ==> text == value
  {
    if mime == ErrorOutputMimeType then ErrorPrefix + FlatJson.QuoteString(value) + ErrorSuffix
    else value
  }

  /** Reads a wrapped error back, for texts laid out as the wrapper writes them. */
  function ReadErrorOutput(text: string): (r: Option<ErrorOutput>)
    ensures r.Some? ==> r.value.ename == "Error" && r.value.traceback == []
  {
    if ErrorPrefix <= text then
      match FlatJson.ReadString(text[|ErrorPrefix|..])
      case Ok((message, rest)) =>
        if rest == ErrorSuffix then Some(ErrorOutput("Error", message, [])) else None
      case Err(_) => None
    else None
  }

  /** A wrapped error message reads back as an `Error` with that message and an empty trace. */
  lemma ReshapedErrorReadsBack(message: string)
    ensures ReadErrorOutput(ReshapeOutputValue(message, ErrorOutputMimeType))
         == Some(ErrorOutput("Error", message, []))
  {
    var text := ReshapeOutputValue(message, ErrorOutputMimeType);
    assert text == ErrorPrefix + (FlatJson.QuoteString(message) + ErrorSuffix);
    assert text[|ErrorPrefix|..] == FlatJson.QuoteString(message) + ErrorSuffix;
    FlatJson.ReadQuoted(message, ErrorSuffix);
  }

  lemma ReshapeExamples()
    ensures ReadErrorOutput(ReshapeOutputValue("some error message", ErrorOutputMimeType))
         == Some(ErrorOutput("Error", "some error message", []))
    ensures ReshapeOutputValue("some error message", "text/plain") == "some error message"
  {
    ReshapedErrorReadsBack("some error message");
  }
}
