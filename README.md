# Polyglot Notebooks extension helpers, modelled in Dafny

This project models the pure helper functions of the Polyglot Notebooks
VS Code extension's shared code (`src/vscode-common/utilities` and
`src/vscode-common/interfaces/utilities`). It proves the behaviour that the
extension's miscellaneous tests rely on. The implementation file is not
part of this model. The helpers are modelled from what their tests assert:

- **Launch** (`processArguments`): expands a kernel launch template. The
  placeholders `{dotnet_path}`, `{working_dir}` and `{global_storage_path}`
  are replaced in every argument and in the working directory (in this
  model, every occurrence in one left-to-right pass). The first
  expanded argument becomes the command and the rest its arguments, with an
  empty environment.
- **Workspace** (`getWorkingDirectoryForNotebook`, `createUri`): chooses the
  kernel's working directory in tiers:
  - a local (`file`) notebook uses its own directory;
  - an `untitled` notebook uses the first local workspace folder;
  - everything else uses the caller's fallback.
- **DotnetVersion** (`getVersionNumber`): the SDK version is the last line
  of the trimmed `dotnet --version` output, trimmed again. A first-run
  banner and `\n` or `\r\n` line endings are tolerated, and empty output
  gives an empty version.
- **Base64**: padded base64 as in section 4 of RFC 4648. The decoder is
  strict, so encoding and decoding are exact inverses.
- **FlatJson**: the JSON text of a flat object with string values, written
  with `JSON.stringify`'s escaping and read back by a small reader. The
  reader accepts whitespace, the standard escapes other than surrogate code
  units, and repeated keys. Members keep their text order; a repeated key
  keeps its first position and takes its last value.
- **Serialization** (`stringify` and `parse`): byte fields are written as
  base64. Under the cell-output key `text/html`, bytes are written as the
  text they hold instead. `parse` turns the base64 string under `rawData`
  back into bytes.
- **OutputReshaping** (`reshapeOutputValueForVsCode`): under the notebook
  error mime type, a string is wrapped as
  `{"ename":"Error","evalue":…,"traceback":[]}`. Under any other mime type
  it is passed through unchanged.

`Wrappers` holds `Option` and `Result`. `Text` holds the trimming and
searching helpers that the modules above share.

## Model

| member | source | states |
|---|---|---|
| Launch.ProcessArguments | src/polyglot-notebooks-vscode-common/tests/misc.test.ts:14-43 | there is no process start exactly when the template has no arguments; otherwise the command is the expanded first argument, the arguments are the remaining ones expanded one for one in order, the working directory is the expanded template directory, and the environment is empty |
| Launch.Expand | src/polyglot-notebooks-vscode-common/tests/misc.test.ts:17-26 | text without an opening brace (such as `tool` or `--working-dir`) comes through substitution unchanged; what each placeholder becomes is stated by Launch.ExpandPlaceholder |
| Launch.ExpandLiteral | src/polyglot-notebooks-vscode-common/tests/misc.test.ts:17-23 | text in which no placeholder begins comes through substitution unchanged |
| Launch.ExpandAfterLiteral | src/polyglot-notebooks-vscode-common/tests/misc.test.ts:14-28 | substitution distributes over a brace-free prefix: expanding `a + b` gives `a` followed by the expansion of `b` |
| Launch.ExpandPlaceholder | src/polyglot-notebooks-vscode-common/tests/misc.test.ts:17-28 | each of the three placeholders standing alone becomes the value supplied for it |
| Launch.ProcessArgumentsKeepsLiteralArguments | src/polyglot-notebooks-vscode-common/tests/misc.test.ts:29-39 | a placeholder-free argument at position i becomes argument i-1 of the process, unchanged |
| Launch.ProcessArgumentsSubstitutesWorkingDir | src/polyglot-notebooks-vscode-common/tests/misc.test.ts:24-38 | an argument that is exactly `{working_dir}` becomes the working directory passed in |
| Launch.ProcessArgumentsOfDefaultShape | src/polyglot-notebooks-vscode-common/tests/misc.test.ts:14-43 | for any brace-free middle arguments, the template `{dotnet_path} … {working_dir}` with directory `{global_storage_path}` launches the dotnet path with the middle arguments followed by the working directory, in the global storage path, with no environment |
| Launch.ProcessArgumentsExample | src/polyglot-notebooks-vscode-common/tests/misc.test.ts:14-43 | the test's template expands, for any three values, to the command, argument list, working directory and empty environment the test expects |
| Workspace.CreateUri | src/polyglot-notebooks-vscode-common/tests/misc.test.ts:46-48 | the URI carries the given path, and its scheme defaults to `file` |
| Workspace.DirName | src/polyglot-notebooks-vscode-common/tests/misc.test.ts:45-53 | a path without `/` has directory `.`; a path whose only `/` is the leading one has directory `/`; any other path's directory is the non-empty prefix that ends just before its last `/` |
| Workspace.FirstLocal | src/polyglot-notebooks-vscode-common/tests/misc.test.ts:55-63 | there is no result exactly when no folder is local; otherwise it is the index of a local folder with no local folder before it |
| Workspace.DirNameOfChild | src/polyglot-notebooks-vscode-common/tests/misc.test.ts:45-53 | the directory of `dir/name` is `dir` when the name holds no separator |
| Workspace.LocalNotebookUsesItsDirectory | src/polyglot-notebooks-vscode-common/tests/misc.test.ts:45-53 | a local notebook's working directory is its own directory, whatever the workspace folders and fallback |
| Workspace.UntitledNotebookUsesFirstLocalFolder | src/polyglot-notebooks-vscode-common/tests/misc.test.ts:55-63 | an untitled notebook uses the first local workspace folder and skips remote folders before it |
| Workspace.UntitledNotebookWithoutLocalFolderFallsBack | src/polyglot-notebooks-vscode-common/tests/misc.test.ts:55-63 | an untitled notebook with no local workspace folder uses the fallback |
| Workspace.OtherNotebookUsesFallback | src/polyglot-notebooks-vscode-common/tests/misc.test.ts:65-73 | a notebook that is neither local nor untitled uses the fallback, even when local folders exist |
| Workspace.WorkingDirectoryForNotebook | src/polyglot-notebooks-vscode-common/tests/misc.test.ts:45-73 | the working directory is always the fallback, the notebook's own directory when it is local, or, for an untitled notebook, the path of a local workspace folder; which one each tier picks is stated by the tier lemmas above (two of them for the untitled tier) |
| Workspace.LocalNotebookExample | src/polyglot-notebooks-vscode-common/tests/misc.test.ts:45-53 | `path/to/notebook.dib` runs in `path/to` |
| Workspace.UntitledNotebookExample | src/polyglot-notebooks-vscode-common/tests/misc.test.ts:55-63 | the untitled notebook runs in `this/is/local/and/used`, not in the remote folder listed first |
| Workspace.RemoteNotebookExample | src/polyglot-notebooks-vscode-common/tests/misc.test.ts:65-73 | the remote notebook runs in the fallback |
| Text.LastIndexOf | src/polyglot-notebooks-vscode-common/tests/misc.test.ts:45-53 | there is no index exactly when the character is absent; otherwise the index holds the character and no later position does |
| Text.TrimStart | src/polyglot-notebooks-vscode-common/tests/misc.test.ts:204-208 | the result is a suffix of the input that is empty or starts with a non-blank |
| Text.TrimStartDropsBlanks | src/polyglot-notebooks-vscode-common/tests/misc.test.ts:204-208 | everything that trimming the start removes is blank |
| Text.TrimEnd | src/polyglot-notebooks-vscode-common/tests/misc.test.ts:204-208 | the result is a prefix of the input that is empty or ends with a non-blank |
| Text.TrimEndDropsBlanks | src/polyglot-notebooks-vscode-common/tests/misc.test.ts:204-208 | everything that trimming the end removes is blank |
| Text.Trim | src/polyglot-notebooks-vscode-common/tests/misc.test.ts:204-208 | the result neither starts nor ends with a blank |
| Text.TrimOfTrimmed | src/polyglot-notebooks-vscode-common/tests/misc.test.ts:194-197 | trimming text that is already trimmed changes nothing |
| Text.TrimStartSkipsBlanks | src/polyglot-notebooks-vscode-common/tests/misc.test.ts:204-208 | leading blanks are skipped: trimming the start of `w + s` equals trimming the start of `s` |
| Text.TrimEndSkipsBlanks | src/polyglot-notebooks-vscode-common/tests/misc.test.ts:204-208 | trailing blanks are skipped: trimming the end of `s + w` equals trimming the end of `s` |
| Text.AllBlankAfterBlank | src/polyglot-notebooks-vscode-common/tests/misc.test.ts:204-208 | a non-empty all-blank text stays all blank after its first character is dropped |
| Text.TrimStartAppend | src/polyglot-notebooks-vscode-common/tests/misc.test.ts:204-208 | blanks appended after a text survive trimming its start, unless the text is all blank, in which case nothing remains |
| Text.TrimIgnoresPadding | src/polyglot-notebooks-vscode-common/tests/misc.test.ts:204-208 | blanks on either side do not change the trimmed text |
| DotnetVersion.LastLine | src/polyglot-notebooks-vscode-common/tests/misc.test.ts:210-213 | the result is a suffix without a line feed, and a line feed precedes it whenever it is not the whole text |
| DotnetVersion.VersionNumber | src/polyglot-notebooks-vscode-common/tests/misc.test.ts:193-214 | the version is trimmed and spans one line |
| DotnetVersion.EmptyOutputHasEmptyVersion | src/polyglot-notebooks-vscode-common/tests/misc.test.ts:199-202 | empty output gives the empty version and no failure |
| DotnetVersion.VersionIgnoresPadding | src/polyglot-notebooks-vscode-common/tests/misc.test.ts:204-208 | blanks and line breaks around the output do not change the version |
| DotnetVersion.VersionOfVersionLine | src/polyglot-notebooks-vscode-common/tests/misc.test.ts:194-197 | a trimmed single line is its own version |
| DotnetVersion.VersionIsIdempotent | src/polyglot-notebooks-vscode-common/tests/misc.test.ts:193-214 | extracting the version from a version gives it back |
| DotnetVersion.LastLineAfterBreak | src/polyglot-notebooks-vscode-common/tests/misc.test.ts:210-213 | after a line feed, a line without one is the last line |
| DotnetVersion.VersionIsLastLine | src/polyglot-notebooks-vscode-common/tests/misc.test.ts:210-213 | for any banner, a non-empty trimmed version line after a line feed is the version extracted |
| DotnetVersion.VersionOfSimpleValue | src/polyglot-notebooks-vscode-common/tests/misc.test.ts:194-197 | the output `5.0` gives `5.0` |
| DotnetVersion.VersionWithSurroundingNewlines | src/polyglot-notebooks-vscode-common/tests/misc.test.ts:204-208 | `5.0` between `\n` or `\r\n` line breaks gives `5.0` |
| DotnetVersion.VersionAfterFirstRunBanner | src/polyglot-notebooks-vscode-common/tests/misc.test.ts:210-213 | with `\n` or `\r\n` line breaks, the first-run banner followed by `5.0.101` gives `5.0.101` |
| Base64.CharOf | src/polyglot-notebooks-vscode-common/tests/misc.test.ts:140-147 | an alphabet character is never the padding character |
| Base64.ValueOf | src/polyglot-notebooks-vscode-common/tests/misc.test.ts:131-138 | a character that is read as a value is the alphabet character of that value |
| Base64.ValueOfCharOf | src/polyglot-notebooks-vscode-common/tests/misc.test.ts:131-147 | reading back the alphabet character of a value gives that value |
| Base64.JoinSplit | src/polyglot-notebooks-vscode-common/tests/misc.test.ts:131-147 | joining the four sextets of three bytes gives the three bytes back |
| Base64.SplitJoin | src/polyglot-notebooks-vscode-common/tests/misc.test.ts:131-147 | splitting the three bytes joined from four sextets gives the sextets back |
| Base64.Encode | src/polyglot-notebooks-vscode-common/tests/misc.test.ts:140-147 | the padded encoding has four characters for every started group of three bytes |
| Base64.GroupRoundTrip | src/polyglot-notebooks-vscode-common/tests/misc.test.ts:131-147 | a full group of three bytes decodes back to itself, inside the text or at its end |
| Base64.OneRoundTrip | src/polyglot-notebooks-vscode-common/tests/misc.test.ts:131-147 | a final single byte written with `==` padding decodes back to itself |
| Base64.TwoRoundTrip | src/polyglot-notebooks-vscode-common/tests/misc.test.ts:131-147 | two final bytes written with `=` padding decode back to themselves |
| Base64.Decode | src/polyglot-notebooks-vscode-common/tests/misc.test.ts:131-138 | only text of the padded length decodes: a multiple of four characters, four for every started group of three bytes; which bytes it yields is stated by Base64.DecodeIffEncode |
| Base64.DecodeEncode | src/polyglot-notebooks-vscode-common/tests/misc.test.ts:131-147 | decoding the encoding of any bytes gives exactly those bytes |
| Base64.EncodeDecode | src/polyglot-notebooks-vscode-common/tests/misc.test.ts:131-147 | any text that decodes is exactly the encoding of what it decodes to |
| Base64.DecodeIffEncode | src/polyglot-notebooks-vscode-common/tests/misc.test.ts:131-147 | a text decodes to given bytes if and only if it is their encoding |
| Base64.EncodeExample | src/polyglot-notebooks-vscode-common/tests/misc.test.ts:145-146 | the bytes 1, 2, 3 encode as `AQID` |
| FlatJson.HexValue | src/polyglot-notebooks-vscode-common/tests/misc.test.ts:131-138 | a character read as a hexadecimal digit has a value below 16 |
| FlatJson.HexRoundTrip | src/polyglot-notebooks-vscode-common/tests/misc.test.ts:131-147 | a hexadecimal digit written in either case reads back as its value |
| FlatJson.EscapeChar | src/polyglot-notebooks-vscode-common/tests/misc.test.ts:140-147 | a character is written as itself exactly when it is neither a quote, a backslash nor a control character; any other is written as a backslash escape |
| FlatJson.ReadEscape | src/polyglot-notebooks-vscode-common/tests/misc.test.ts:131-138 | a successful escape consumes at least one character; which character each escape stands for is stated by FlatJson.ReadShortEscape and FlatJson.ReadUnicodeEscape |
| FlatJson.ReadShortEscape | src/polyglot-notebooks-vscode-common/tests/misc.test.ts:131-138 | each of the eight single-character escapes (`\"`, `\\`, `\/`, `\b`, `\f`, `\n`, `\r`, `\t`) stands for the character JSON assigns it, and the text after it is left |
| FlatJson.ReadUnicodeEscape | src/polyglot-notebooks-vscode-common/tests/misc.test.ts:131-138 | `\u` followed by the four hexadecimal digits of any character below U+10000, in lower or upper case, stands for that character |
| FlatJson.ReadEscaped | src/polyglot-notebooks-vscode-common/tests/misc.test.ts:131-147 | the reader takes back any escaped text up to the closing quote, and leaves what follows |
| FlatJson.ReadQuoted | src/polyglot-notebooks-vscode-common/tests/misc.test.ts:131-147 | reading a quoted, escaped string gives back the string and the text after it |
| FlatJson.Insert | src/polyglot-notebooks-vscode-common/tests/misc.test.ts:131-138 | a key not yet present is appended as the last member; no key other than the inserted one appears, and distinct keys stay distinct |
| FlatJson.InsertExisting | src/polyglot-notebooks-vscode-common/tests/misc.test.ts:131-138 | a repeated key keeps the position of its first occurrence and takes the new value; no other member changes |
| FlatJson.ReadWrittenMembers | src/polyglot-notebooks-vscode-common/tests/misc.test.ts:131-147 | the written members, read after earlier distinct members, come back after them in order |
| FlatJson.Write | src/polyglot-notebooks-vscode-common/tests/misc.test.ts:140-164 | the object text of the members, in order, as `JSON.stringify` writes it; that it reads back is stated by FlatJson.ReadWrite |
| FlatJson.Read | src/polyglot-notebooks-vscode-common/tests/misc.test.ts:131-138 | a successfully read object never holds a key twice |
| FlatJson.ReadWrite | src/polyglot-notebooks-vscode-common/tests/misc.test.ts:131-147 | an object with distinct keys reads back as exactly the members written |
| FlatJson.EscapePlain | src/polyglot-notebooks-vscode-common/tests/misc.test.ts:140-164 | text without quotes, backslashes or control characters is written unescaped |
| FlatJson.WriteSinglePlain | src/polyglot-notebooks-vscode-common/tests/misc.test.ts:140-164 | a single plain member is written as `{"key":"value"}` |
| Serialization.BytesAsText | src/polyglot-notebooks-vscode-common/tests/misc.test.ts:158-164 | the text has one character per byte, each with the byte's code |
| Serialization.ToMembers | src/polyglot-notebooks-vscode-common/tests/misc.test.ts:140-164 | each field becomes a member with the same key, in the same order, holding its written form |
| Serialization.WriteField | src/polyglot-notebooks-vscode-common/tests/misc.test.ts:140-164 | a text field is written as itself, bytes under `text/html` as their characters, other bytes as base64; that the result reads back is stated by Serialization.ReadWrittenField |
| Serialization.Stringify | src/polyglot-notebooks-vscode-common/tests/misc.test.ts:140-164 | the JSON object text of the record's written members; its meaning is stated by Serialization.ParseStringify and the stringify examples |
| Serialization.Parse | src/polyglot-notebooks-vscode-common/tests/misc.test.ts:131-138 | a parsed record never holds a key twice; what it holds is stated by Serialization.ParseStringify and Serialization.ParseBytesExample |
| Serialization.ReadField | src/polyglot-notebooks-vscode-common/tests/misc.test.ts:131-138 | a value under any key other than `rawData` is read as text |
| Serialization.FromMembers | src/polyglot-notebooks-vscode-common/tests/misc.test.ts:131-138 | a successful parse keeps the number, order and keys of the members |
| Serialization.ReadWrittenField | src/polyglot-notebooks-vscode-common/tests/misc.test.ts:131-147 | a written field reads back as its settled form: `rawData` bytes exactly, any other field as the text written for it |
| Serialization.ReadWrittenFields | src/polyglot-notebooks-vscode-common/tests/misc.test.ts:131-164 | the written members of a record whose `rawData` fields hold bytes read back as the settled record |
| Serialization.ParseStringify | src/polyglot-notebooks-vscode-common/tests/misc.test.ts:131-164 | `parse` after `stringify` gives every `rawData` field's exact bytes and every text field's text; other byte fields come back as the text written for them |
| Serialization.ParseStringifyRoundTrip | src/polyglot-notebooks-vscode-common/tests/misc.test.ts:131-147 | a record that holds bytes exactly under `rawData` survives `stringify` then `parse` unchanged |
| Serialization.StringifySingle | src/polyglot-notebooks-vscode-common/tests/misc.test.ts:140-164 | a one-field record with plain key and written value is `{"key":"value"}` |
| Serialization.StringifyBytesExample | src/polyglot-notebooks-vscode-common/tests/misc.test.ts:140-156 | the bytes 1, 2, 3 under `rawData` are written as `{"rawData":"AQID"}` |
| Serialization.StringifyHtmlExample | src/polyglot-notebooks-vscode-common/tests/misc.test.ts:158-164 | the bytes 97, 98, 99 under `text/html` are written as `{"text/html":"abc"}` |
| Serialization.ParseBytesExample | src/polyglot-notebooks-vscode-common/tests/misc.test.ts:131-138 | `{"rawData":"AQID"}` parses to the bytes 1, 2, 3 under `rawData` |
| OutputReshaping.ReshapeOutputValue | src/polyglot-notebooks-vscode-common/tests/misc.test.ts:177-181 | under any mime type other than the error type, the value is passed on unchanged |
| OutputReshaping.ReadErrorOutput | src/polyglot-notebooks-vscode-common/tests/misc.test.ts:167-175 | an error object read back always has name `Error` and an empty trace |
| OutputReshaping.ReshapedErrorReadsBack | src/polyglot-notebooks-vscode-common/tests/misc.test.ts:167-175 | any message reshaped under the error mime type reads back as an `Error` with that message and an empty trace |
| OutputReshaping.ReshapeExamples | src/polyglot-notebooks-vscode-common/tests/misc.test.ts:166-182 | `some error message` is wrapped under the error type and left as it is under `text/plain` |

## Left out

- The implementation file (`src/vscode-common/utilities.ts`) is not part of this model. The helpers are modelled from the behaviour their tests assert.
- `debounce` and `executeSafe`: timers and process spawning, which are I/O rather than pure logic.
- `isErrorOutput`, `isDisplayOutput` and `isTextOutput`: runtime shape checks on untyped JavaScript objects, which have no counterpart over Dafny's typed values.
- `MsSqlFactAttribute.cs`, the kernel scheduler and the message router: their code is not part of this model.
- Launch.ProcessArguments: with an empty argument list the model returns no process start. JavaScript would produce an undefined command.
- Launch.ProcessArguments: the model recognises exactly the three placeholders the test uses (`{dotnet_path}`, `{working_dir}`, `{global_storage_path}`).
- Launch.Expand: the test only has placeholders that stand alone as a whole argument or directory. Replacing every occurrence in one left-to-right pass, without rescanning substituted values, is a modelling choice. An implementation built on JavaScript's `replace` with a string pattern would replace only the first occurrence of each placeholder.
- Workspace.WorkingDirectoryForNotebook: workspace folders are consulted only for an `untitled` notebook, as the remote-notebook test at misc.test.ts:65-73 requires: that notebook falls back although both workspace folders are local.
- Workspace.DirName: Node's `path.dirname` handling of trailing separators, repeated separators and Windows paths is not modelled. The model takes the text before the last `/`.
- Text.Trim: only space, tab, line feed and carriage return count as blanks, not every Unicode space that JavaScript's `trim` removes.
- Serialization.BytesAsText: each byte becomes the character with that code. This agrees with the UTF-8 decoding the extension uses only for ASCII bytes; multi-byte UTF-8 sequences are not modelled.
- Serialization.Parse: only the `rawData` key is decoded back to bytes, which is the one key the tests exercise. Nested objects, arrays, numbers and other JSON values are outside the flat object model.
- Base64.Decode: the decoder is strict and canonical, and it rejects text that Node's lenient `Buffer.from(…, 'base64')` would accept (missing padding, stray characters, non-zero unused bits). Strictness is what makes encoding and decoding exact inverses.
- FlatJson.ReadEscape: every `\u` escape in the surrogate range is rejected, paired or not, because Dafny characters are Unicode scalar values. JavaScript combines a valid pair such as `\ud83d\ude00` into one character and keeps unpaired surrogates. The writer never produces such escapes, so the round trip is unaffected. A `\u` escape whose four digits mix lower and upper case is read digit by digit, but no lemma states its meaning; the lemmas cover all-lower and all-upper digits.
- FlatJson.Insert: members keep the order of the text. A JavaScript object enumerates integer-like keys (such as `"1"`) first, in ascending order, so for such keys the model's order differs from the order `JSON.parse` gives.
- OutputReshaping.ReshapeOutputValue: the result is the text before UTF-8 encoding into bytes, so the byte encoding is not modelled.
