# DoorScopeETL core in Dafny

DoorScopeETL moves requirements documents into DoorScope's document stream format. It has three parts, and this project models each of them as pure functions over immutable data, with proofs of their properties.

**IpcProtocol** is the byte-at-a-time decoder for the wire format `code|[len|]value|...` that the DOORS export script sends.
- It has four states: Idle, ReadCode, ReadNum and ReadVal.
- The command table has 24 entries, and each parameter kind has its own coercion.
- Every decoded command becomes one call on the stream agent.

**StreamAgent** is a stack of writer slots.
- Slot 0 writes the output file.
- `startEmbed` pushes a slot, and `endEmbed` turns the top slot's whole stream into one blob cell of its parent.
- `close` always leaves one slot.
- Each slot's writer is an append-only event log (frame start, frame end, cell) with a count of open frames.

**HtmlImporter** turns an HTML file that a parser has already read into a module stream.
- The string functions are simplify, findNumber and coded.
- The rich-text walk carries a scoped set of seven character formats.
- Lists and tables are regenerated as HTML with an attribute block list.
- The heading trace keeps Object frames nested by heading level.
- parse adds the module header and closes the frames left open.

Files and modules, in dependency order:
- `base.dfy` (Base): options, results, bytes and dates.
- `decimal.dfy` (Decimal): toUInt and toInt in base 10, and the sender's spelling of numbers.
- `protocol.dfy` (IpcProtocol): the command table, the step function and Feed.
- `protocol_codec.dfy` (IpcCodec): the encoder and the round trip.
- `protocol_edges.dfy` (IpcEdges): the table's shape and each error path.
- `stream_agent.dfy` (StreamAgent): the slot stack and its operations.
- `nesting.dfy` (Nesting): the frame and embed discipline of an operation sequence.
- `agent_laws.dfy` (AgentLaws): laws that relate several agent calls.
- `dispatch.dfy` (Dispatch): execute, and a session that joins the decoder to the agent.
- `html_text.dfy` (HtmlText): simplify, QString::simplified, findNumber and coded.
- `html_doc.dfy` (HtmlDoc): the node array, f2i, h2i, writeFormat, rich-text runs and well-formed pieces of output.
- `qt_arg.dfy` (QtArg): Qt 4's `QString::arg` with one string argument, as generateHtml uses it.
- `html_regen.dfy` (HtmlRegen): collectText and generateHtml.
- `html_frag.dfy` (HtmlFrag): readImg, readFrag, consumeFollowers, readFrags and readParagraph.
- `html_import.dfy` (HtmlImport): readHtmlNode and the heading trace.
- `html_parse.dfy` (HtmlParse): findName and HtmlImporter::parse.
- `findings.dfy` (IpcFindings): the two 32-bit defects described under Findings.

Some functions are given as parameters, and the model does not interpret them:
- UTF-8 decoding, `toDouble`, and the three QDateTime formats (records `Parsers` and `Env`);
- whether a file can be created or an image loaded, and the clipboard (`Host`);
- image path resolution (`HtmlFrag.Env`).

The current time is the date value `Now`. The module UUID and the file's base name are given.

Where the code does something other than its obvious reading, the model follows the code:
- simplify keeps one leading space for leading whitespace. `"  hello   world  \n"` therefore gives `" hello world "`, not `"hello world "` (`HtmlText.SimplifiedExample`, `HtmlText.ExampleHello`).
- findNumber also splits where a digit run meets a letter. For example, `"12Scope"` splits at 2 (`HtmlText.NumberExamples`).
- consumeFollowers clears an element's format bit at the first trailing text node whose parent differs, not after all the trailing text (`HtmlFrag.Followers`).

## Model

| member | source | states |
|---|---|---|
| IpcEdges.TableShape | IpcProtocol.cpp:45-73 | the table has exactly 24 commands, codes 0..23, each with three kinds, and no real kind follows a None |
| IpcEdges.NoParamCommands | IpcProtocol.cpp:45-72 | the commands without parameters are exactly CloseStream, StartFrame, EndFrame, StartEmbed, EndEmbed and PasteString |
| IpcProtocol.Arity | IpcProtocol.cpp:216-226 | a command's parameter count is the number of kinds before the first None, at most s_maxParam |
| IpcProtocol.FirstDate | IpcProtocol.cpp:361-378 | a date is tried as "yyyy-MM-dd h:m:s", then "yyyy-MM-dd", then "h:m:s", and the first format that accepts it wins |
| IpcProtocol.Coerce | IpcProtocol.cpp:323-384 | consume: a string is taken as is; a bool only from "0" or "1"; a char only from exactly one byte; an int or real only when it parses; a date only when one of the three formats accepts it; any other kind is an error |
| IpcProtocol.BeginParam | IpcProtocol.cpp:131-137 | a string or date parameter starts by reading its length; any other kind starts reading its value |
| IpcProtocol.Evaluate | IpcProtocol.cpp:216-234 | a parameter that coerces is appended; the command fires when it was the last one, and otherwise the next parameter starts; a coercion error stops the decoder in Idle |
| IpcProtocol.StepIdle | IpcProtocol.cpp:107-114 | in Idle a space is skipped, and any other byte starts a code token holding exactly that byte |
| IpcProtocol.StepCode | IpcProtocol.cpp:115-140 | a code token grows until the bar; an unparsable code or one above 23 is an InvalidCommand error; a valid code without parameters fires at once |
| IpcProtocol.StepNum | IpcProtocol.cpp:141-156 | a length prefix grows until the bar; an unparsable prefix is an InvalidLength error; otherwise the value is read with that count and an empty buffer |
| IpcProtocol.StepVal | IpcProtocol.cpp:157-212 | a counted value takes exactly its count of bytes, including bars; the byte after them must be a bar, or the error is ExpectingBar; an uncounted value ends at the next bar |
| IpcProtocol.Step | IpcProtocol.cpp:98-212 | one byte keeps the decoder invariant; every fired command is well typed; after a command or an error the decoder is in Idle |
| IpcProtocol.Feed | IpcProtocol.cpp:98-104 | the read loop consumes every byte unless an error closes the source, which happens after at least one byte and leaves the decoder in Idle |
| IpcProtocol.FeedTyped | IpcProtocol.cpp:243-321 | every command the decoder fires is well typed for its code, so execute can read its parameters |
| IpcProtocol.FeedAppend | IpcProtocol.cpp:92-104 | decoding two chunks in turn equals decoding their concatenation, when the first chunk raises no error |
| IpcProtocol.FeedAppendStops | IpcProtocol.cpp:236-241 | after an error closes the source, no further bytes are read |
| IpcProtocol.ChunkingIsInvisible | IpcProtocol.cpp:92-104 | however the bytes are split into arrivals, the outcome is that of the whole stream |
| IpcCodec.CodeRead | IpcProtocol.cpp:107-119 | the digits of a code are read into a code token |
| IpcCodec.HeaderRead | IpcProtocol.cpp:115-140 | a valid code and its bar fire a parameterless command, or start the command's first parameter |
| IpcCodec.CountedRead | IpcProtocol.cpp:141-185 | a length prefix of n, followed by n arbitrary bytes, leaves exactly those bytes in the buffer with nothing left to count |
| IpcCodec.CountedParam | IpcProtocol.cpp:141-194 | a counted value followed by its bar becomes the next parameter |
| IpcCodec.PlainParam | IpcProtocol.cpp:197-206 | an uncounted value without bars, followed by a bar, becomes the next parameter |
| IpcCodec.ParamRoundTrip | IpcProtocol.cpp:157-232 | one encoded parameter of the expected kind decodes back to itself |
| IpcCodec.ParamsRoundTrip | IpcProtocol.cpp:216-232 | the encoded remaining parameters of a command decode to the whole command, fired once, back in Idle |
| IpcCodec.EncodeRoundTrip | IpcProtocol.cpp:98-232 | decoding an encoded command yields exactly that command, with no error and nothing left over |
| IpcCodec.EncodeAllRoundTrip | IpcProtocol.cpp:98-232 | decoding a sequence of encoded commands yields exactly those commands, in order |
| IpcEdges.IdleByte | IpcProtocol.cpp:107-114 | in Idle a space leaves the state unchanged, and any other byte starts ReadCode with just that byte |
| IpcEdges.SpacesSkipped | IpcProtocol.cpp:107-114 | spaces between commands are consumed and change nothing else |
| IpcEdges.TokenRead | IpcProtocol.cpp:107-119 | a token that starts with a non-space, the bar included, and has no further bar is read whole into ReadCode |
| IpcEdges.BadCodeStops | IpcProtocol.cpp:115-124 | a code that is not an unsigned number, or is above 23, is an InvalidCommand error at its bar, and nothing after the bar is read; the code may itself start with a bar |
| IpcEdges.BarCodeRejected | IpcProtocol.cpp:107-124 | "\|\|" reads the first bar as a code and rejects it as the invalid command "\|" at the second |
| IpcEdges.Code99Rejected | IpcProtocol.cpp:120-124 | "99\|" is rejected as an invalid command |
| IpcEdges.NoParamFiresAtBar | IpcProtocol.cpp:127-130 | a command without parameters fires as soon as its bar is read, and decoding continues in Idle |
| IpcEdges.BadLengthStops | IpcProtocol.cpp:141-150 | an unparsable length prefix is an InvalidLength error at its bar, and nothing after it is read |
| IpcEdges.MissingBarRead | IpcProtocol.cpp:185-191 | a counted value followed by something other than a bar is an ExpectingBar error holding that value |
| IpcEdges.MissingBarStops | IpcProtocol.cpp:185-191 | after the ExpectingBar error, nothing more is read |
| IpcEdges.BadValueStops | IpcProtocol.cpp:323-384 | an uncounted value that does not coerce to its kind stops the decoder with that kind's error |
| IpcEdges.BadCountedValueRead | IpcProtocol.cpp:185-219 | a counted value that does not coerce is reported with that kind's error when its closing bar is read |
| IpcEdges.BadCountedValueStops | IpcProtocol.cpp:185-219 | after that error, nothing more is read |
| IpcEdges.CountedBarExample | IpcProtocol.cpp:157-194 | "2\|1\|\|\|" is StringVal with the one-byte string "\|": a counted value may contain the bar |
| IpcEdges.SplitRoundTrip | IpcProtocol.cpp:92-104 | an encoded command split anywhere into two arrivals still fires exactly once |
| Decimal.ParseUInt | IpcProtocol.cpp:120 | toUInt's result always fits in 32 unsigned bits |
| Decimal.ParseInt | IpcProtocol.cpp:332 | toInt's result always lies in the 32-bit signed range |
| Decimal.UIntAccepted | IpcProtocol.cpp:120 | whatever toUInt accepts is leading C whitespace, an optional '+', one or more digits, then the end of the array or a NUL, and it reads as the value of those digits |
| Decimal.UIntReads | IpcProtocol.cpp:120 | conversely, every text of that shape is accepted by toUInt exactly when its digits' value fits in 32 unsigned bits |
| Decimal.IntAccepted | IpcProtocol.cpp:332 | whatever toInt accepts is leading C whitespace, an optional '+' or '-', one or more digits, then the end or a NUL, and it reads as the signed value |
| Decimal.IntReads | IpcProtocol.cpp:332 | conversely, every text of that shape is accepted by toInt exactly when its signed value fits in 32 bits |
| Decimal.SplitFinds | IpcProtocol.cpp:120 | a text splits into blanks, sign, digits and the part after the C string in only one accepted way |
| Decimal.NulEndsText | IpcProtocol.cpp:120 | toUInt and toInt read only up to the first NUL byte: what follows never matters |
| Decimal.BlanksSkipped | IpcProtocol.cpp:120 | leading tabs, line feeds, vertical tabs, form feeds, carriage returns and spaces change neither verdict nor value |
| Decimal.PlusSkipped | IpcProtocol.cpp:120 | a '+' before the digits reads the same as no sign |
| Decimal.MinusRefused | IpcProtocol.cpp:146 | toUInt refuses any text with a '-' where the sign goes, "-0" included |
| Decimal.TrailingBlankRefused | IpcProtocol.cpp:146 | a blank after the digits makes the text unreadable to both routines |
| Decimal.UIntRoundTrip | IpcProtocol.cpp:120 | a sender's decimal spelling of any 32-bit unsigned value reads back as that value |
| Decimal.IntRoundTrip | IpcProtocol.cpp:332 | a sender's spelling of any 32-bit signed value reads back as that value |
| Decimal.DigitsHaveNoBar | IpcProtocol.cpp:115-118 | a decimal spelling never contains the bar or a space, so a number and its bar are always told apart |
| Dispatch.ToOp | IpcProtocol.cpp:243-321 | execute calls the agent operation that belongs to each of the 24 codes |
| Dispatch.ValueCommands | IpcProtocol.cpp:253-288 | codes 2..13 write their first parameter as a cell, named by the second parameter in the ...Name forms and positional otherwise |
| Dispatch.ImageCommands | IpcProtocol.cpp:289-294 | LoadImg passes the path, the delete flag and, for LoadImgName, the name |
| Dispatch.FrameCommands | IpcProtocol.cpp:295-300 | StartFrame opens an unnamed frame; StartFrameName opens a frame named by its parameter's text narrowed to Latin-1, unless that text is empty, which gives a null QByteArray and so an unnamed frame |
| Dispatch.NulNameIsNoName | IpcProtocol.cpp:298-299 | a name parameter starting with a NUL decodes to an empty string: StartFrameName then opens an unnamed frame, and a named cell is written by position |
| Dispatch.Latin1NameKept | IpcProtocol.cpp:256-257 | a name whose decoded text is Latin-1, such as the UTF-8 bytes C3 A4 for U+00E4, reaches the agent as exactly that text |
| Dispatch.WideNameNarrowed | IpcProtocol.cpp:256-257 | a name character between U+0100 and U+FFFF reaches the agent as '?' |
| Dispatch.CellShape | IpcProtocol.cpp:49-60 | the write commands 2..13 carry a value of the kind their code names, and the odd codes add a string name |
| Dispatch.NamedTailCommands | IpcProtocol.cpp:307-318 | EndEmbed and PasteString use their name parameter when they have one |
| Dispatch.NameText | IpcProtocol.cpp:256-257 | a name reaches the agent as its parameter's UTF-8 text up to the first NUL, narrowed to Latin-1: every character is at most U+00FF, and the name is empty exactly when that text is |
| Dispatch.NulEndsString | IpcProtocol.cpp:329 | a string value, path or name is decoded only up to its first NUL: the bytes after it never reach the agent |
| Dispatch.OpsAppend | IpcProtocol.cpp:243-321 | executing two command lists in turn performs the operations of their concatenation |
| Dispatch.Receive | IpcProtocol.cpp:236-241 | a closed connection reads nothing, the agent's log only grows, and a decode error closes the connection after being reported as the agent's last log entry |
| Dispatch.ReceiveAppend | IpcProtocol.cpp:92-104 | receiving bytes in two parts has the same effect on decoder and agent as receiving them at once |
| Dispatch.SessionRoundTrip | IpcProtocol.cpp:98-321 | sending encoded commands drives the agent through exactly those commands' operations, in order, with the connection open |
| Dispatch.CleanSession | IpcProtocol.cpp:243-321 | a stream of sendable commands whose operations are well nested leaves the connection open and logs no structural agent error |
| StreamAgent.New | StreamAgent.cpp:29-33 | a new agent has exactly one, empty slot |
| StreamAgent.Open | StreamAgent.cpp:39-56 | open leaves exactly one empty slot; the slot writes to "name.dsdx" when the file can be created, with a status report, and otherwise logs exactly one error |
| StreamAgent.Close | StreamAgent.cpp:58-65 | close always leaves one empty slot; the log gains an EmbedMissing error exactly when more than one slot was active, then the Closing status, and nothing else |
| StreamAgent.Release | StreamAgent.cpp:42-43 | when the slots are reset, the root slot's content goes to its file if it has one |
| StreamAgent.CellFor | StreamAgent.cpp:75-81 | an empty name writes a positional cell, and any other name writes a named cell |
| StreamAgent.Append | StreamAgent.cpp:166-208 | the writer records each event in order; it refuses an end-of-frame when no frame is open |
| StreamAgent.Guarded | StreamAgent.cpp:82-91 | a writer failure is caught and logged, and leaves the slots unchanged |
| StreamAgent.WriteCell | StreamAgent.cpp:67-92 | writeCell appends one cell to the top slot and touches no other slot |
| StreamAgent.StartFrame | StreamAgent.cpp:166-190 | startFrame opens a frame in the top slot only, unnamed for a null name |
| StreamAgent.EndFrame | StreamAgent.cpp:192-208 | endFrame closes a frame of the top slot only, or logs the writer's refusal when none is open |
| StreamAgent.StartEmbed | StreamAgent.cpp:210-223 | startEmbed pushes exactly one new, empty slot |
| StreamAgent.EndEmbed | StreamAgent.cpp:225-245 | endEmbed with only the root slot logs the mismatch and changes nothing; otherwise it pops the top slot and writes its whole stream as one blob cell into the new top |
| StreamAgent.LoadImg | StreamAgent.cpp:94-108 | a failed load still writes a placeholder cell, logs an error and deletes nothing; a successful load deletes the file only when asked |
| StreamAgent.ReadImg | StreamAgent.cpp:110-124 | a failed load writes a placeholder and logs an error; the image is scaled only when both sizes are positive |
| StreamAgent.Apply | StreamAgent.cpp:39-245 | every agent operation keeps the slot stack valid and only appends to the log |
| StreamAgent.RunAppend | StreamAgent.cpp:39-245 | running two operation lists in turn is running their concatenation |
| StreamAgent.ErrorCountAppend | StreamAgent.cpp:51 | error counts add up over log segments |
| AgentLaws.EmbedRoundTrip | StreamAgent.cpp:210-237 | startEmbed then endEmbed restores the depth and adds exactly one empty blob cell to the slot that was on top |
| AgentLaws.FlatTouchesTopOnly | StreamAgent.cpp:67-208 | cell and frame operations change only the top slot, and its result does not depend on the slots below |
| AgentLaws.EmbedCapture | StreamAgent.cpp:210-245 | an embed around cell and frame operations adds one blob to the outer slot, holding exactly what those operations write on a fresh slot |
| AgentLaws.CloseEmbed | StreamAgent.cpp:225-237 | ending an embed pops exactly the slot that was pushed and stores its events as a blob in the parent |
| Nesting.ApplyFollowsShape | StreamAgent.cpp:39-245 | an operation the shape allows logs no structural error and moves the agent to the predicted shape |
| Nesting.NestedRunIsClean | StreamAgent.cpp:39-245 | a well-nested operation sequence never makes the agent log a frame or embed error, and ends in the predicted shape |
| Nesting.NestedConcat | StreamAgent.cpp:166-245 | a concatenation is well nested exactly when its first part is, and its second part is from where the first ends |
| Nesting.NestedUnder | StreamAgent.cpp:210-245 | a sequence that never pops its starting slot behaves the same with more slots below it |
| Nesting.NestedRaised | StreamAgent.cpp:166-208 | more open frames in the bottom slot do not change what a stream-internal sequence does |
| Nesting.BalancedAnywhere | StreamAgent.cpp:166-245 | a balanced sequence can run from any shape and leaves that shape |
| HtmlText.Simplified | HtmlImporter.cpp:136-166 | simplify is never longer than its input |
| HtmlText.SimplifiedShape | HtmlImporter.cpp:147-163 | a non-empty input gives a non-empty output that starts with a space exactly when the input starts with whitespace (and otherwise with the same character), and ends with one exactly when the input ends with whitespace; no whitespace other than ' ' and never two spaces in a row |
| HtmlText.SimplifiedKeepsVisible | HtmlImporter.cpp:152-158 | the non-whitespace characters are kept, in order |
| HtmlText.SimplifiedFixes | HtmlImporter.cpp:136-166 | text that is already collapsed comes back unchanged |
| HtmlText.SimplifiedIdempotent | HtmlImporter.cpp:136-166 | simplify is idempotent |
| HtmlText.SimplifiedBlank | HtmlImporter.cpp:147-151 | whitespace-only input gives one space |
| HtmlText.SimplifiedEmpty | HtmlImporter.cpp:138-139 | only the empty input gives the empty output |
| HtmlText.SimplifiedExample | HtmlImporter.cpp:147-163 | "  hello   world  \n" gives " hello world " |
| HtmlText.ExampleHello | HtmlImporter.cpp:152-163 | "hello   world  \n" gives "hello world " |
| HtmlText.Simplify | HtmlImporter.cpp:136-166 | the in-place scanning loop of simplify computes Simplified |
| HtmlText.SkipSpace | HtmlImporter.cpp:155-156 | the whitespace-skipping loop stops at the first non-space and drops nothing that counts |
| HtmlText.CopyWord | HtmlImporter.cpp:157-158 | the copying loop takes the next word whole |
| HtmlText.Tidy | HtmlImporter.cpp:248 | QString::simplified: no leading or trailing space, no two adjacent spaces |
| HtmlText.TidyEmpty | HtmlImporter.cpp:248 | QString::simplified empties exactly the whitespace-only texts |
| HtmlText.NumberSplit | HtmlImporter.cpp:366-399 | findNumber's result is -1 or a split point in 1..\|title\|; the prefix starts with a digit, holds digits and dots, and ends in a digit or one whitespace |
| HtmlText.FindNumber | HtmlImporter.cpp:366-399 | the two-state loop computes NumberSplit |
| HtmlText.NumberExamples | HtmlImporter.cpp:366-399 | "1.2 Scope" splits at 4 and "12Scope" at 2; "1.a", "1.2" and "Scope" do not split |
| HtmlText.EscapeAll | HtmlImporter.cpp:262-268 | escaped text holds no raw '<' or '>' |
| HtmlText.CodedEscapes | HtmlImporter.cpp:262-268 | the three replaceAll passes of coded, with '&' first, equal escaping each character once |
| HtmlText.CodedRoundTrip | HtmlImporter.cpp:262-268 | coded output has no raw '<' or '>', and unescaping it recovers the input |
| HtmlText.EscapeRoundTrip | HtmlImporter.cpp:262-268 | unescaping the per-character escape recovers the input |
| HtmlText.CodedOrderMatters | HtmlImporter.cpp:264-266 | replacing '&' last would double-escape "<"; the order as written gives "&lt;" |
| HtmlText.Lower | HtmlImporter.cpp:282 | lower-casing an attribute name changes only the ASCII capitals |
| HtmlDoc.FormatTags | HtmlImporter.cpp:83-116 | f2i maps em/i/cite/var/dfn to italic, strong/b to bold, u to underline, s to strikeout, code/tt/kbd/samp to fixed, sub and sup to their formats |
| HtmlDoc.NoFormatTags | HtmlImporter.cpp:83-116 | every other tag has no format |
| HtmlDoc.H2I | HtmlImporter.cpp:326-345 | h2i is 1..6 exactly for h1..h6, and 0 otherwise |
| HtmlDoc.HeadingLevels | HtmlImporter.cpp:326-345 | h2i and the heading tag of a level are inverse |
| HtmlDoc.WriteFormatOrder | HtmlImporter.cpp:118-134 | writeFormat writes one mark per set format, and only those, in the order i, b, u, k, p, s, f |
| HtmlDoc.FormatRoundTrip | HtmlImporter.cpp:118-134 | reading the marks back gives the format set |
| HtmlDoc.RunIsPiece | HtmlImporter.cpp:209-216 | a run with text is a self-contained piece: balanced, inside the stream, with no id and no empty positional text |
| HtmlDoc.AbsNumbersAppend | HtmlImporter.cpp:419 | the ids written by two sequences are those of the first, then those of the second |
| HtmlRegen.CollectText | HtmlImporter.cpp:242-260 | collectText is empty exactly when the node is no image and it and its descendants and trailing text nodes hold only whitespace |
| HtmlRegen.KeptExactly | HtmlImporter.cpp:280-285 | an attribute is written exactly when its lower-cased name is not blocked and the element has it with that value |
| HtmlRegen.Tokens | HtmlImporter.cpp:270-304 | generateHtml's tags match: every open tag is closed, in order |
| HtmlRegen.TokensFiltered | HtmlImporter.cpp:272-285 | no attribute written by the name-and-value join has a blocked name |
| HtmlRegen.GenerateHtmlShape | HtmlImporter.cpp:276-302 | a tagged node's HTML starts with its open tag and kept attributes, and ends with its close tag; unknown and font nodes start with their coded text |
| HtmlRegen.TagText | HtmlImporter.cpp:279-301 | `"<%1"` and `"</%1>"` filled with a tag give `<tag` and `</tag>`, whatever the tag holds, since the argument is not scanned |
| HtmlRegen.NameFilled | HtmlImporter.cpp:284 | the first `.arg(name)` always leaves ` name="%2"` |
| HtmlRegen.ValueScan | HtmlImporter.cpp:284 | the second `.arg` scans the name as part of its format: the name's markers join the value's %2 |
| HtmlRegen.ChainedAgrees | HtmlImporter.cpp:284 | as written, an attribute whose name has no marker numbered 0, 1 or 2 is written ` name="value"` |
| HtmlRegen.ChainedAttrsAgree | HtmlImporter.cpp:281-285 | for names without '%', the attribute list as written equals the model's |
| HtmlRegen.ChainedOverwrites | HtmlImporter.cpp:284 | as written, a name with a marker numbered 0 or 1 gets the value there, and "%2" is written as the value |
| HtmlRegen.BlockedNameWritten | HtmlImporter.cpp:280-284 | as written, `<td %1=width>` keeps the attribute "%1" and writes ` width="%2"`, a blocked name |
| HtmlRegen.AttrText | HtmlImporter.cpp:284 | the corrected join, %1 and %2 filled in one pass: ` name="value"` with the name and the value as they are |
| QtArg.MarkerAt | HtmlImporter.cpp:279-301 | a marker is '%', an optional 'L' and one or two digits, so it numbers at most 99 |
| QtArg.PiecesJoined | HtmlImporter.cpp:279-301 | the scan of a format into characters and markers loses nothing: the pieces spell the format |
| QtArg.Rescan | HtmlImporter.cpp:279-301 | scanning the text of canonical pieces gives back those pieces |
| QtArg.PiecesAppend | HtmlImporter.cpp:284 | a text followed by one that cannot extend its last marker scans as its two parts do |
| QtArg.Lowest | HtmlImporter.cpp:279-301 | the lowest marker number is present and no marker is numbered lower; there is none exactly when the format has no marker |
| QtArg.Arg | HtmlImporter.cpp:279-301 | a format without markers is returned unchanged |
| QtArg.ArgLowest | HtmlImporter.cpp:279-301 | arg replaces every marker with the lowest number by the argument, and only those |
| QtArg.FillUntouched | HtmlImporter.cpp:284 | filling a number no marker has leaves the format as it is |
| QtArg.NoPercentNoMarker | HtmlImporter.cpp:284 | a text without '%' has no marker |
| HtmlRegen.RenderAppend | HtmlImporter.cpp:289-298 | HTML text concatenates as its parts do |
| HtmlFrag.ReadImg | HtmlImporter.cpp:64-81 | an image becomes three operations around one image cell named "ole", holding the resolved path and the node's width and height |
| HtmlFrag.TextRunShape | HtmlImporter.cpp:209-216 | a run is skipped exactly for empty text, and is otherwise a piece |
| HtmlFrag.ReadFrag | HtmlImporter.cpp:189-226 | readFrag never leaves on a bit that was off; img and br keep the format; an element's own bit is off on exit; its output is a piece |
| HtmlFrag.FragChildren | HtmlImporter.cpp:218-222 | the child loop never sets a bit that was off, and writes a piece |
| HtmlFrag.Followers | HtmlImporter.cpp:168-187 | consumeFollowers clears the element's bit exactly when some trailing text node has another parent, and otherwise leaves the format alone |
| HtmlFrag.ReadFrags | HtmlImporter.cpp:228-240 | a paragraph's fragments, one after another, are a self-contained piece |
| HtmlFrag.ReadParagraph | HtmlImporter.cpp:306-324 | a paragraph's output is a self-contained piece: balanced frames and embeds inside the stream, no id and no empty positional text |
| HtmlFrag.FormattedLeaf | HtmlImporter.cpp:205-225 | a childless formatting element writes its text with its bit on, and leaves with the bit off even if it was on at entry |
| HtmlFrag.PlainLeaf | HtmlImporter.cpp:209-216 | a childless element without format writes a plain run |
| HtmlImport.StdAtts | HtmlImporter.cpp:57-62 | the standard attributes are three cells, none of them an id |
| HtmlImport.HeadingCellsJoin | HtmlImporter.cpp:460-466 | the "~number" and "Object Heading" cells concatenate back to the heading text, and a number starts with a digit |
| HtmlImport.PopTo | HtmlImporter.cpp:452-456 | popping to level l keeps a non-empty prefix of the trace and removes exactly the top entries not below l, never the bottom one |
| HtmlImport.Heading | HtmlImporter.cpp:447-468 | a heading takes exactly the next id and keeps the trace a heading trace, with one Object frame open per trace entry |
| HtmlImport.HeadingTrace | HtmlImporter.cpp:451-467 | a heading's trace ends in its level above the kept prefix, every popped level was at least l, and the output starts with one end-of-frame per pop and then its Object |
| HtmlImport.PushTrace | HtmlImporter.cpp:467 | pushing l after the pops keeps the trace strictly increasing above the sentinel 0 |
| HtmlImport.RoleOfTags | HtmlImporter.cpp:401-489 | the elements readHtmlNode writes as paragraphs, containers and headings, and those it skips |
| HtmlImport.ReadNode | HtmlImporter.cpp:401-489 | the walk keeps the trace a heading trace, numbers its Objects consecutively from nextId, and leaves open exactly one Object frame per trace entry above the sentinel |
| HtmlImport.ReadChildren | HtmlImporter.cpp:409-412 | walking the children in order composes their ids and frame counts |
| HtmlImport.ReadObject | HtmlImporter.cpp:413-489 | a skipped element writes nothing and leaves the context alone; any other keeps the trace a heading trace and numbers its Objects consecutively from nextId |
| HtmlImport.ParagraphObject | HtmlImporter.cpp:413-425 | a paragraph leaves the heading trace as it was, numbers what it writes consecutively from nextId, and closes every frame it opens |
| HtmlImport.ContainerObject | HtmlImporter.cpp:427-439 | a container Object is closed in the same call and takes exactly one id |
| HtmlImport.SectionObject | HtmlImporter.cpp:441-469 | a heading keeps the trace a heading trace, numbers what it writes from nextId, and leaves open one Object frame per trace entry |
| HtmlImport.ParagraphWritten | HtmlImporter.cpp:416 | a paragraph is written exactly when collectText finds text in it, and then takes exactly one id |
| HtmlImport.HeadingWritten | HtmlImporter.cpp:448-449 | a heading is written exactly when its collected text is not blank |
| HtmlImport.FinishesNest | HtmlImporter.cpp:570-571 | k end-of-frames close k open frames |
| HtmlImport.ObjectFrameBalanced | HtmlImporter.cpp:418-423 | a closed Object around balanced content is balanced |
| HtmlImport.ObjectFrameIds | HtmlImporter.cpp:418-419 | a closed Object carries its id and no other |
| HtmlParse.FirstTitle | HtmlImporter.cpp:511-524 | findName's loop finds the first title whose simplified text is not empty, or none |
| HtmlParse.NameIsFirstTitle | HtmlImporter.cpp:511-526 | the module is named after the first title with text, and after the file when there is none |
| HtmlParse.Parse | HtmlImporter.cpp:528-582 | an unreadable file and an empty document are errors with the source's messages; otherwise the stream is opened first and closed last |
| HtmlParse.HeaderNests | HtmlImporter.cpp:554-564 | the header opens the stream and leaves exactly the module frame open |
| HtmlParse.TailNests | HtmlImporter.cpp:570-580 | the trailing end-of-frames, the module's end and the close leave nothing open |
| HtmlParse.ParseNests | HtmlImporter.cpp:552-580 | a parse's output is well nested from any state and closes every frame and embed it opens |
| HtmlParse.ParseRunsClean | HtmlImporter.cpp:528-582 | running a parse's output through the agent never logs a frame or embed error, and ends with one slot and no open frame |
| HtmlParse.ParseIds | HtmlImporter.cpp:49 | the Objects of an import are numbered 1, 2, 3, ... in the order they are written |
| HtmlParse.ParseTrace | HtmlImporter.cpp:567-568 | the walk from the sentinel trace [0] ends with a heading trace |
| IpcFindings.ToInt32 | IpcProtocol.h:52-53 | assigning a toUInt result to an int field wraps the values from 2^31 on to negative ones |
| IpcFindings.CodeGuardAsWritten | IpcProtocol.cpp:120-121 | the code guard as written accepts exactly the table indices and the codes of 2^31 and above, which become negative |
| IpcFindings.WrappedCodeAccepted | IpcProtocol.cpp:120-127 | "4294967295\|" passes the guard as written, as index -1 |
| IpcFindings.CountedStep | IpcProtocol.cpp:161-195 | the counted reader as written: a positive count takes the byte, zero expects the bar, a negative count does nothing |
| IpcFindings.CountedReads | IpcProtocol.cpp:161-194 | as written, a count inside the signed range reads its bytes and the bar as intended |
| IpcFindings.NegativeCountSwallows | IpcProtocol.cpp:195 | as written, a negative count swallows every following byte and never evaluates |
| IpcFindings.WrappedCountSwallows | IpcProtocol.cpp:146-195 | "2147483648\|" gives the count -2^31, after which nothing is ever decoded or reported |

## Left out

- Sockets: `onData`, `bytesAvailable` and `sock->close` are not modelled. The input is a byte sequence, and the connection is a closed flag in `Dispatch.Session`. The message `errorClose` hands to `onError` is the decode error itself (`StreamAgent.Fault.Decoding`), not its text.
- The errors after `errorClose` are left out: the model stops at the first decode error.
  - The source goes on to index the command table after an invalid code (IpcProtocol.cpp:121-127).
  - It sets `doit` after a missing bar (IpcProtocol.cpp:188-193).
  - It continues `evaluate` after a coercion error (IpcProtocol.cpp:219-224).
- The disabled UTF-8 counting branch (IpcProtocol.cpp:170-183) is dead code and is not modelled. Counts are raw bytes.
- UTF-8 decoding, `toDouble` and the QDateTime formats are parameters with no interpretation, because they are library grammars and floating point. A real value is kept as its text.
- Dispatch.NameText: the writer takes a name through `name.data()`, which would cut it again at a NUL. The model assumes the UTF-8 decoder never yields U+0000 from bytes without a NUL, as a conforming decoder does not, so that second cut changes nothing.
- `QVariant::toByteArray` narrows a string with `toLatin1` (Qt 4's `toAscii` with no codec for C strings set); the model does not consider a program that installs such a codec.
- The Stream::DataWriter byte layout and `getStream` are not modelled, because they belong to an external library. Each slot is a list of frame-start, frame-end and cell events. The writer's only failure is an end-of-frame with no frame open.
- The agent's error and status texts are the `Fault` and `Note` values. `onTrace` is not modelled.
- QSettings' output directory is not modelled, and the file is named only by "name.dsdx".
- Image decoding and scaling are not modelled: an image cell records the path and, when scaled, the size. File deletion is the host's list of removed paths, and the clipboard is a host value.
- QTextHtmlParser is not modelled. The node array is an input whose children always come after their parents (`HtmlDoc.WellFormed`).
- Tag ids other than those the importer tells apart are collapsed into one `Other` tag.
- QUrl percent-decoding and path resolution in readImg are one given function (`HtmlFrag.Env`). Image sizes are whole pixels.
- HtmlText.NumberSplit, HtmlText.FindNumber: `QChar::isDigit` is narrowed to '0'..'9'; digits of other scripts are not recognised as heading numbers.
- HtmlText.Lower: `QString::toLower` is narrowed to 'A'..'Z'; other capitals in an attribute name are kept.
- HtmlText.IsSpace: `QChar::isSpace` is modelled in full for Qt 4: the code points 9 to 13 and the Unicode 5.0 categories Zs, Zl and Zp, which are U+0020, U+00A0, U+1680, U+180E, U+2000..U+200A, U+2028, U+2029, U+202F, U+205F and U+3000.
- `QDateTime::currentDateTime`, `QUuid::createUuid` and `QFileInfo::completeBaseName` are not modelled: they are an opaque `Now` date and given strings.
- Exceptions caught in HtmlImporter::parse (HtmlImporter.cpp:574-579) are not modelled, since no modelled step throws.
- HtmlImport.ReadNode: `nextId` is a `quint32` in the source (HtmlImporter.cpp:51). The model lets it grow without the wrap-around after 2^32 Objects.
- HtmlRegen.AttrText, HtmlRegen.TokensFiltered, HtmlRegen.GenerateHtmlShape: these are stated for the corrected one-pass join. As written (HtmlImporter.cpp:284), `.arg(name).arg(value)` scans the name again, so a name holding a marker numbered 0, 1 or 2 gets the value in its place, and a blocked name such as "width" can be written (see Findings). HtmlRegen.ChainedAgrees and HtmlRegen.ChainedAttrsAgree show that the written text is the same for every name without such a marker.
- QtArg.MarkerAt: `QChar::digitValue` is narrowed to '0'..'9'; digits of other scripts do not form markers.
- Attribute values in generateHtml are copied without escaping, as in the source (HtmlImporter.cpp:284). No round-trip property is claimed for them.
- A nested element with the same format clears that bit on exit even when an outer element still has it, as the source does (HtmlImporter.cpp:224-225). `HtmlFrag.FormattedLeaf` states this and does not treat it as a defect.
- DoorScopeEtl.cpp (the window, server, menus and log pane) is not modelled, because it is user interface and I/O.
- The unused `structure`, `Section`, `dump` and `dump2` are not modelled, because they are dead code.

## Findings

| source | as written | input that shows it | evidently intended | confidence | as-written member | corrected member |
|---|---|---|---|---|---|---|
| IpcProtocol.cpp:120-121 | `toUInt` is stored in the `int` field `d_command`, so codes from 2^31 on become negative and pass the `> s_maxCommand` guard | `4294967295\|` is accepted as code -1, and `s_cmds[-1]` is then read | reject every code above 23 as an invalid command | high, not executed | IpcFindings.WrappedCodeAccepted | IpcEdges.BadCodeStops |
| HtmlImporter.cpp:284 | `.arg(name).arg(value)`: the second arg scans the name as part of its format | `<td %1=width>` keeps the attribute "%1", since it is not blocked, and writes ` width="%2"`, a blocked name | ` %1="width"`: the name and the value written as they are, as the one-pass `arg(name, value)` writes them | medium, not executed | HtmlRegen.BlockedNameWritten | HtmlRegen.AttrText |
| IpcProtocol.cpp:146, 161-195 | `toUInt` is stored in the `int` field `d_num`, so a length prefix from 2^31 on is negative; neither `d_num > 0` nor `d_num == 0` then holds | after `2\|2147483648\|`, every further byte is swallowed without a command or an error | read that many bytes, since the prefix is unsigned | high, not executed | IpcFindings.WrappedCountSwallows | IpcCodec.CountedRead |

