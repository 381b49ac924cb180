# A Dafny model of the LSP framework

This project models the logic of a C++20 library for the Language Server Protocol and
proves properties of the model. It follows the code part by part:

- **JSON** (`Json`, `JsonLiteral`, `CodePoints`, `JsonGrammar`, `JsonErrors`,
  `JsonParser`, `JsonPrinter`, `JsonTexts`). The parser is a class with a position and
  an explicit stack of states and pointers into a growing value tree; it is proved equal
  to a recursive-descent parser, which in turn accepts exactly the texts of a
  declarative grammar (RFC 8259 with the extensions of the code). The printer is
  inverted by the parser for every visiting order of object members and both formats,
  and what string escapes stand for is read back as UTF-8 by the rules of RFC 3629.
- **Messages** (`JsonRpc`, `Framing`, `HeaderLayouts`, `Connection`, `Wire`). JSON-RPC
  2.0 envelopes, the header part of the LSP base protocol with its one-byte lookahead
  reader, and the two together with JSON: what is written is what is read, for one
  packet and for a whole conversation, and a failed read stops at a known place.
- **Concurrency** (`ThreadPool`, `PoolSize`, `MessageHandler`, `Answers`,
  `PendingRequests`, `Settlements`). The critical sections are methods of classes; runs
  are sequences of atomic steps (critical sections, notifications, spurious wake-ups) of
  which invariants are proved: no lost wake-up, first in first out, drain, no deadlock,
  the account of requests against responses and what each of them says, and the life of
  pending requests.
- **URIs** (`UriCodec`, `Uri`, `UriSyntax`, `UriParts`). A packed buffer with five
  16-bit lengths, edited in place, refines a record of five components, with the wrapped
  lengths described as well; `parse` is exact for every text, the wrapping of its 16-bit
  counts included, and undoes `toString` under an exact condition (RFC 3986).
- **Types** (`Serialization`, `JsonTypes`, `Doubles`, `MetaModel`, `TypeNames`,
  `TypeParts`, `Header`, `HeaderUses`, `Generator`, `GeneratorLimits`, `GeneratorStops`,
  `OrType`, `Unions`). Type-directed conversion to and from JSON over a recursive universe of
  types, and the code generator's depth-first walk over a reference graph that may have
  cycles: what its header is like, and which models it does not get through.
- **Command lines** (`CommandLine`). Argument quoting for Windows, against Microsoft's
  rules for taking a command line apart.

`Text`, `Alphabets` and `Wrappers` hold what the parts share. A method that follows a
piece of imperative code is proved equal to a specification function, and the properties
are proved of that function; so a lemma about `Document`, `Print`, `ReadFrame` and the
like is a lemma about the methods `JsonParser.Parse`, `JsonPrinter.Stringify`,
`Framing.ReadMessageContent` and so on. A method and its function may share small helper
functions: character classes, escapes, error codes, the fields of a message. What those
compute is said once more and independently of them, in the terms of the standards and
of the data, by `Alphabets`, `CodePoints`, `JsonTexts`, `JsonErrors`, `Wire`, `Answers`,
`Settlements`, `PoolSize`, `UriParts`, `JsonTypes`, `TypeParts`, `HeaderUses`,
`GeneratorStops` and `Unions`. Run `dafny verify dfyconfig.toml` to check everything.

## Conventions

- A byte is a `char` with a code below 256, a `std::string` is a `string`.
- A `double` is a `real`. `std::stod`, `std::to_string(double)`, the widening of an
  integer of the JSON text and a cast of a number out of the range of its target are
  function parameters that nothing is assumed about. The conversion of a `long` to
  `double` is one of which only what C++ promises is assumed (`Doubles.Rounding`).
- Exceptions are `Result` or `Option` values. A pointer into the value tree is the path
  to the value it addresses.
- The order in which a hash table is visited is arbitrary, and given as a parameter or
  by choosing a key in a loop.

## What turned out to have conditions

Each of these is an equivalence; the lemma after it is a concrete input at which the
condition fails.

- A message survives serialization exactly when its params are absent, an object or an
  array and, for a response, when it has exactly one of result and error, the error
  without data (`JsonRpc.MessageRoundTrip`). The writer puts error data beside the
  error, the reader looks inside it (`JsonRpc.ErrorDataLost`,
  `JsonRpc.ScalarParamsRefused`).
- Every request with an id is answered exactly when every request with an explicit null
  id fails at once (`MessageHandler.EveryRequestIsAnswered`,
  `MessageHandler.NullIdAnswered`).
- Request ids stay fresh for exactly 2^32 requests (`PendingRequests.FreshIds`).
- The packed buffer of a URI stays consistent exactly when what is inserted is shorter
  than 2^16 bytes (`Uri.Uri.InsertPath` and the other insertions): the length is stored
  modulo 2^16, the text in full.
- `decode` undoes `encode` exactly for exclude sets without `%`
  (`UriCodec.DecodeEncode`, which fails with `%41`).
- `parse` undoes `toString` exactly when the path cannot be taken for an authority, or
  the authority for more than itself, and the encoded path is shorter than 2^16 bytes
  (`UriSyntax.UriRoundTrip`, and `UriSyntax.RoundTrip` of the class;
  `UriSyntax.PathTakenForAuthority`, `UriSyntax.PathTooLong`). Parsing, writing and
  parsing again changes nothing exactly under the same condition on what was parsed
  (`UriSyntax.Reparsed`, `UriSyntax.EscapedSlashes`, `UriSyntax.MalformedEscape`).
- Texts that differ only in the letter case of the scheme and of percent-triplets parse
  alike exactly when no wrapped count stops inside a triplet whose digits differ in case
  (`UriSyntax.CaseInsensitive`, `UriSyntax.TripletCut`).
- A value survives serialization exactly when no earlier alternative of a variant
  accepts what it prints and no nullable payload prints as null
  (`Serialization.RoundTrip`, `Serialization.NullInNullable`). A tuple is accepted at its
  first acceptable element, which loses values (`Serialization.TupleShadowed`).
- A `long` survives exactly when it is not below the 32-bit minimum and either fits 32
  bits or is an integer that a `double` holds, that is, one of at most 53 significant
  bits (`Serialization.LongRoundTrip`, `Serialization.LongTruncated`,
  `Serialization.LongRounded`).
- The generator succeeds exactly for a model in which every reference is defined, bases
  and mixins are structures, enumerations have a base type and every type has a C++ name
  (`Generator.CppGenerator.GenerateTypes`). The depth-first walk always ends, but the
  recursion that looks for a string type behind the key of a map does not: it goes on for
  ever exactly when the aliases go round in a circle (`TypeNames.StringTypeEnds`). So for
  a closed model of the usual shape the generator succeeds exactly when no key of a map
  that has to be named does (`GeneratorLimits.ClosedModelEnds`,
  `GeneratorLimits.SelfKeyedModel`).
- A property copied from a mixin follows the rule for own ones if the mixin is declared
  before the structure or does not lead back to it (`Header.CopiedBoxedExactly`,
  `Header.CopiedComplete`). In general a copied reference is a `std::optional` of an
  incomplete type exactly when the walk has not reached that type yet
  (`GeneratorLimits.TooEarlyExactly`, `GeneratorLimits.CopiedTooEarly`).
- A Windows command line comes back exactly when no argument is empty and the program
  name has no quotation mark and no backslash at its end
  (`CommandLine.CommandLineRoundTrip`, `CommandLine.TrailingBackslash`,
  `CommandLine.EmptyArgument`).

## Model

| member | source | states |
|---|---|---|
| JsonLiteral.ToStringLiteral | lsp/json/json.cpp:598-647 | The writing loop puts quotes around the escapes of the characters, in order. |
| JsonLiteral.FromStringLiteral | lsp/json/json.cpp:649-734 | The reading loop strips one quote at each end and replaces each escape, malformed `\u` escapes included, by what the step function says. |
| JsonLiteral.ReadNext | lsp/json/json.cpp:660-730 | One turn of the reading loop: what is appended and where the index goes, for every escape and for text too short for a `\u` escape. |
| JsonLiteral.HexFromChars | lsp/json/json.cpp:693-713 | `from_chars` in base 16 takes the longest run of hexadecimal digits, and four of them denote the usual number. |
| JsonLiteral.UnescapeEscaped | lsp/json/json.cpp:598-734 | Unescaping undoes escaping for every byte string, quotes, backslashes, NUL and control characters included. |
| JsonLiteral.LiteralRoundTrip | lsp/json/json.cpp:598-734 | A written literal is a complete string token, and reading it gives the string back. |
| JsonLiteral.ScanLiteral | lsp/json/json.cpp:242-266 | The scanner consumes a written literal exactly, wherever it stands in a text, and yields the string it was written from. |
| JsonLiteral.ScanToken | lsp/json/json.cpp:250-263 | A complete string token is scanned to its end whatever stands around it. |
| JsonLiteral.ScannedToken | lsp/json/json.cpp:250-263 | Conversely, what the scanner takes inside a text is a complete string token by itself. |
| CodePoints.Utf8Reads | lsp/json/json.cpp:464-492 | The bytes written for a code point are what a reader of UTF-8 (RFC 3629, section 4) reads back as that code point exactly when it is a character; a surrogate is no UTF-8. |
| CodePoints.EscapesRead | lsp/json/json.cpp:660-730 | A text of any number of `\uXXXX` escapes, with digits in either case, reads as UTF-8 of the code points its digits write, in order, exactly when all of them are characters. |
| CodePoints.EscapedText | lsp/json/json.cpp:46-82 | The same of a whole JSON text with such a string in it. |
| CodePoints.LetterRead | lsp/json/json.cpp:665-690 | `\0`, `\a`, `\b`, `\t`, `\n`, `\v`, `\f` and `\r` stand for the bytes 0, 7, 8, 9, 10, 11, 12 and 13. |
| CodePoints.OtherRead | lsp/json/json.cpp:723-725 | Any other character but `u` behind a backslash stands for itself. |
| CodePoints.PlainRead | lsp/json/json.cpp:727-730 | A character that is no backslash stands for itself. |
| CodePoints.TooFewDigits | lsp/json/json.cpp:699-712 | A `\u` with fewer than four hexadecimal digits, and enough text behind it, stands for itself and those digits. |
| CodePoints.TooShort | lsp/json/json.cpp:714-720 | A `\u` with fewer than four characters behind it stands for itself and all of them. |
| CodePoints.WrittenStandard | lsp/json/json.cpp:598-647 | What is written between the quotes is a string of RFC 8259, section 7, for every byte string. |
| CodePoints.WrittenLetters | lsp/json/json.cpp:606-628 | Backspace, tab, line feed, form feed, carriage return, quotation mark and backslash have an escape of two characters. |
| CodePoints.WrittenPlain | lsp/json/json.cpp:637-640 | Text without control characters, quotation marks and backslashes is written as it is. |
| JsonGrammar.AcceptsExactly | lsp/json/json.cpp:46-82 | The recursive-descent parser returns a value for a text exactly when the text is a layout of that value: any whitespace between tokens, no trailing comma, no key twice, nothing left over. |
| JsonGrammar.DocumentComplete | lsp/json/json.cpp:46-82 | Every layout of a value parses to that value, whatever whitespace stands between the tokens. |
| JsonGrammar.DocumentSound | lsp/json/json.cpp:46-82 | A text that parses can be taken apart into a layout of its value. |
| JsonGrammar.ElementsComplete | lsp/json/json.cpp:182-211 | The rest of an array laid out item by item parses to exactly those items after the ones already done. |
| JsonGrammar.MembersSound | lsp/json/json.cpp:131-180 | What parses as the rest of an object is a layout of members with new, distinct keys. |
| JsonTexts.KeywordsRead | lsp/json/json.cpp:310-329 | `true`, `false` and `null`, with any whitespace around, are their values. |
| JsonTexts.OnlyWhitespaceSkipped | lsp/json/json.cpp:236-240 | A character in front of a keyword leaves its value exactly if it is one of the six whitespace characters. |
| JsonTexts.IntegerRead | lsp/json/json.cpp:268-308 | An optional minus sign and decimal digits are the integer that the places of the digits give: a JSON integer within 32 bits, the nearest double within 64 bits, an invalid number beyond. |
| JsonTexts.DecimalRead | lsp/json/json.cpp:268-296 | With a point or an exponent `std::stod` decides, and it has to use every character. |
| JsonTexts.NoNumberRead | lsp/json/json.cpp:297-308 | Anything else that begins like a number is an invalid number at its first character. |
| JsonTexts.NumberEnds | lsp/json/json.cpp:268-308 | A number ends at the first character that is no letter, digit, minus sign or point; what stands there is an error of its own unless the number already is one. |
| JsonErrors.NothingThere | lsp/json/json.cpp:56-57 | A text of whitespace only fails at its end. |
| JsonErrors.OpenBracket | lsp/json/json.cpp:56-57 | So does one that ends behind an opening bracket. |
| JsonErrors.KeyAtEnd | lsp/json/json.cpp:160-180 | A text that ends where a colon should stand fails one place behind its end. |
| JsonErrors.QuoteUnmatched | lsp/json/json.cpp:242-266 | A string without an end fails where the text or the line ends. |
| JsonErrors.SomethingLeft | lsp/json/json.cpp:70-79 | Anything but whitespace behind the value is an error at its place. |
| JsonErrors.CommaMissing | lsp/json/json.cpp:182-211 | Two elements without a comma fail at the second. |
| JsonErrors.CommaTrailing | lsp/json/json.cpp:182-211 | A comma before the closing bracket is an error at the comma. |
| JsonErrors.MemberCommaMissing | lsp/json/json.cpp:131-158 | Two members without a comma fail at the second. |
| JsonErrors.MemberCommaTrailing | lsp/json/json.cpp:131-158 | A comma before the closing brace is an error at the comma. |
| JsonErrors.KeyTwice | lsp/json/json.cpp:160-180 | A repeated key is an error at the second one. |
| JsonErrors.ColonMissing | lsp/json/json.cpp:160-180 | A missing colon is an error where it should stand. |
| JsonErrors.KeyNotString | lsp/json/json.cpp:160-180 | A key that is no string is an error at its place. |
| JsonErrors.NoKeyword | lsp/json/json.cpp:310-329 | Letters and digits that are no keyword are an error behind them. |
| JsonErrors.NoToken | lsp/json/json.cpp:331-343 | A character that no value begins with is an error at its place. |
| JsonParser.Parser.Parse | lsp/json/json.cpp:46-82 | The stack machine gives, for every text, the same value or the same error at the same position as the recursive-descent parser; the loop ends by the measure of characters left and state on top. |
| JsonParser.Parse | lsp/json/json.cpp:584-589 | The public entry point does so from a new parser. |
| JsonParser.Parser.HandleValue | lsp/json/json.cpp:108-129 | The step keeps the outcome of the whole parse and the stack invariant, and brings the end nearer; a thrown error is that outcome. |
| JsonParser.Parser.HandleObject | lsp/json/json.cpp:131-158 | The same for the state between the members of an object. |
| JsonParser.Parser.HandleObjectKey | lsp/json/json.cpp:160-180 | The same for reading a key, including the colon that is skipped over one past the end of the text. |
| JsonParser.Parser.HandleArray | lsp/json/json.cpp:182-211 | The same for the state between the elements of an array. |
| JsonParser.Parser.ParseString | lsp/json/json.cpp:242-266 | Consumes the text up to the first unescaped quote, or fails at a newline or the end. |
| JsonParser.Parser.ParseNumber | lsp/json/json.cpp:268-308 | Consumes the longest run of number characters; decimals go to `std::stod`, integers beyond 32 bits become decimals, anything else fails. |
| JsonParser.Parser.ParseIdentifier | lsp/json/json.cpp:310-329 | Consumes the longest alphanumeric run, which has to be a keyword. |
| JsonParser.Parser.ParseSimpleValue | lsp/json/json.cpp:331-343 | Parses a scalar as the recursive-descent parser does. |
| JsonParser.StackPointers | lsp/json/json.cpp:98-106 | Every pointer on the stack addresses a live node on the rightmost spine of the tree, and none leads inside the value on top, so no container grows while a pointer leads into it. |
| JsonParser.PlugPath | lsp/json/json.cpp:213-234 | Writing through the pointer on top changes exactly the place being filled. |
| JsonParser.SkipFirst | lsp/json/json.cpp:236-240 | Skipping whitespace between steps changes the outcome of no state. |
| JsonParser.EndFails | lsp/json/json.cpp:56-57 | At the end of the text, and one past it, every unfinished state ends in the same parse error at that position. |
| JsonPrinter.StringifyImplementation | lsp/json/json.cpp:346-462 | The recursive printer appends the layout of the value, in the given visiting order of members, at the given depth and format. |
| JsonPrinter.Stringify | lsp/json/json.cpp:591-596 | The public entry point prints from depth 0 into an empty buffer. |
| JsonPrinter.PrintParse | lsp/json/json.cpp:346-462 | Parsing the rendering gives the value back, for every visiting order of object members and both formats. |
| JsonPrinter.ExactPrintable | lsp/json/json.cpp:378-395 | Decimal-free values with 32-bit integers meet the condition of that round trip in every order. |
| JsonPrinter.AnyOrder | lsp/json/json.cpp:402-424 | Any listing of the members of an object, in whatever order, stands for that object. |
| JsonPrinter.LayoutOfTree | lsp/json/json.cpp:346-462 | What the printer puts down is a valid layout of the value. |
| JsonTexts.ExactExactly | lsp/json/json.cpp:378-395 | A value has no decimal and no integer beyond 32 bits exactly when it is printable whatever becomes of decimals. |
| JsonTexts.PrintsCompact | lsp/json/json.cpp:346-462 | Without formatting the rendering is the tokens with commas and colons and nothing between them. |
| JsonTexts.PrintsPretty | lsp/json/json.cpp:346-462 | With formatting every item stands on a line of its own behind a tab for each level, at most 32, and a blank follows the colon; empty containers stay empty. |
| Alphabets.NatWritten | lsp/json/json.cpp:380-380 | An integer is written in decimal digits whose places give it, without leading zeros. |
| Alphabets.IntWritten | lsp/json/json.cpp:380-380 | A negative integer is written as a minus sign and the digits of its magnitude. |
| Alphabets.IntRead | lsp/json/json.cpp:297-302 | A text is read as an integer exactly if it is decimal digits behind an optional minus sign, and then as what their places give. |
| JsonRpc.MessageToJson | lsp/jsonrpc/jsonrpc.cpp:134-175 | Fills the object field by field: absent ids and params are left out, error data goes beside the error. |
| JsonRpc.MessageBatchToJson | lsp/jsonrpc/jsonrpc.cpp:177-186 | The elements of the array are the messages of the batch in order. |
| JsonRpc.RequestFromJson | lsp/jsonrpc/jsonrpc.cpp:37-60 | Reads a request with the checks and errors of the code, in its order; null params count as absent. |
| JsonRpc.ResponseFromJson | lsp/jsonrpc/jsonrpc.cpp:62-108 | Reads a response likewise; it needs exactly one of result and error. |
| JsonRpc.MessageFromJson | lsp/jsonrpc/jsonrpc.cpp:112-118 | An object with a method is a request, any other a response. |
| JsonRpc.MessageBatchFromJson | lsp/jsonrpc/jsonrpc.cpp:120-132 | Reads the messages in order up to the first error; an empty batch is one. |
| JsonRpc.MessageRoundTrip | lsp/jsonrpc/jsonrpc.cpp:37-175 | A message read back from its JSON is the same exactly when it is transmittable. |
| JsonRpc.ErrorDataLost | lsp/jsonrpc/jsonrpc.cpp:62-175 | An error response with data comes back as the same response without the data. |
| JsonRpc.ScalarParamsRefused | lsp/jsonrpc/jsonrpc.cpp:37-175 | A written request whose params are a boolean is refused by the reader. |
| JsonRpc.ReadThenWritten | lsp/jsonrpc/jsonrpc.cpp:37-175 | A message that was read can be passed on unchanged exactly when it is no error response with data. |
| JsonRpc.BatchRoundTrip | lsp/jsonrpc/jsonrpc.cpp:120-186 | A batch survives exactly when it is not empty and each of its messages does. |
| Wire.RequestWritten | lsp/jsonrpc/jsonrpc.cpp:134-148 | The members of a written request, all of them: version "2.0", method, and id and params where there are any. |
| Wire.ResponseWritten | lsp/jsonrpc/jsonrpc.cpp:149-172 | The members of a written response, all of them: version, id, and result or error with code and message; error data stands beside the error. |
| Wire.BatchWritten | lsp/jsonrpc/jsonrpc.cpp:177-186 | The elements of a written batch are the objects of its messages, in order. |
| Wire.IdReadsIs | lsp/jsonrpc/jsonrpc.cpp:23-35 | An id is a string, a number, whose integer part counts, or null; anything else is refused. |
| Wire.VersionRead | lsp/jsonrpc/jsonrpc.cpp:9-21 | A missing version, one that is no string and one that is not "2.0" are three different errors, before everything else. |
| Wire.RequestRead | lsp/jsonrpc/jsonrpc.cpp:37-60 | An object with a method is read as a given request exactly when its method, id and params are those; null params are none. |
| Wire.RequestRefused | lsp/jsonrpc/jsonrpc.cpp:37-60 | The errors of requests: a method that is no string, a bad id, bad params. |
| Wire.ResponseRead | lsp/jsonrpc/jsonrpc.cpp:62-108 | An object without a method is read as a given response exactly when its id, result and error, with code, message and data inside, are those, and it has one of result and error. |
| Wire.ErrorRefused | lsp/jsonrpc/jsonrpc.cpp:74-98 | The errors of error objects, from the code to the message. |
| Wire.ResponseRefused | lsp/jsonrpc/jsonrpc.cpp:62-105 | The errors of responses in their order: a bad id, a bad error object, both or none of result and error. |
| Wire.BatchRead | lsp/jsonrpc/jsonrpc.cpp:120-132 | A batch that is not empty is read as given messages exactly when its elements are, one by one. |
| Wire.BatchRefused | lsp/jsonrpc/jsonrpc.cpp:120-132 | The empty batch is refused; of any other the first element that is no object or no message decides the error. |
| Framing.Stream.Read | lsp/connection.cpp:122-136 | A read yields the next bytes of the input and moves the cursor over exactly those. |
| Framing.InputReader.Peek | lsp/connection.cpp:100-106 | Peeking shows the next byte and does not move on, as seen through the lookahead slot. |
| Framing.InputReader.Get | lsp/connection.cpp:108-120 | Takes one byte, from the slot if it is filled, and leaves the slot empty. |
| Framing.InputReader.Read | lsp/connection.cpp:122-136 | Reads a block of which the slot supplies the first byte; short input leaves zeros. |
| Framing.ParseHeaderValue | lsp/connection.cpp:254-277 | Content-Length and Content-Type, in any letter case and with blanks around, set their field; a bad length is an error; other fields and lines without a colon are ignored. |
| Framing.ReadNextMessageHeaderField | lsp/connection.cpp:279-300 | Reads one field and its line end from wherever the reader stands; a field that fails leaves the stream at a stated position. |
| Framing.ReadMessageHeader | lsp/connection.cpp:241-252 | Reads fields up to the empty line and leaves the lookahead slot empty; a header that fails leaves the stream at a stated position. |
| Framing.VerifyContentType | lsp/connection.cpp:70-84 | Refuses another media type and any charset but utf-8 and utf8. |
| Framing.TrimWhitespace | lsp/connection.cpp:50-59 | Removes whitespace at both ends. |
| Framing.ReadMessageContent | lsp/connection.cpp:157-176 | A read returns the content of the frame at the cursor, or its failure. In every outcome the cursor is given; once the header is read it is the end of the announced content, or of the input, also when the content type is refused, so no partially unread message is left. |
| Framing.WriteMessageData | lsp/connection.cpp:302-314 | Appends the two header fields, the empty line and the content. |
| Framing.FrameRoundTrip | lsp/connection.cpp:157-314 | A frame that was written is read back with its content, to its last byte and no further, wherever it stands in the input. |
| Framing.FramesRoundTrip | lsp/connection.cpp:157-314 | As many reads as frames, over the concatenation of written frames, return exactly the contents and consume exactly those bytes. |
| HeaderLayouts.AnyHeader | lsp/connection.cpp:241-300 | Fields in any order, in any letter case, with unknown ones among them and whitespace around keys and values are read for what they say, the last of a kind deciding; the header fails exactly when a field does. |
| HeaderLayouts.AnyFrame | lsp/connection.cpp:157-300 | A message with any such header is read with the content its length field announces, or refused for its fields or its content type; either way its end is known. |
| Wire.FrameWritten | lsp/connection.cpp:302-314 | A frame letter by letter: length, type, empty line, content. |
| Wire.FieldSays | lsp/connection.cpp:254-277 | Two field names are known, in any letter case; a length is decimal digits whose places give a number below 2^64, and every other value is refused. |
| Wire.OtherMedia | lsp/connection.cpp:70-73 | Another media type is refused. |
| Wire.NoCharset | lsp/connection.cpp:75-76 | The media type without a charset is accepted, whatever other text follows. |
| Wire.CharsetDecides | lsp/connection.cpp:75-83 | A charset, with whitespace around it and up to a semicolon or the end, is accepted exactly when it is `utf-8` or `utf8`. |
| Wire.NothingComes | lsp/connection.cpp:164-165 | No byte, or the byte that stands for the end, is a lost connection. |
| Wire.HeaderUnfinished | lsp/connection.cpp:248-249 | A carriage return without a line feed in the place of the empty line is refused. |
| Wire.LineFeedAlone | lsp/connection.cpp:286-294 | So is a line feed without a carriage return. |
| Wire.LineEndless | lsp/connection.cpp:286-294 | An input that ends inside a header line leaves the reader in that line for ever. |
| Wire.ReturnAlone | lsp/connection.cpp:296-299 | So is a carriage return without a line feed behind a field, unless the field itself is refused. |
| Wire.ContentSays | lsp/connection.cpp:122-136 | The content has the announced length, byte by byte what came, and zero where nothing came. |
| Connection.Connection.WriteMessage | lsp/connection.cpp:215-239 | Appends the frame of the packet's text. |
| Connection.Connection.ReadMessage | lsp/connection.cpp:157-213 | Returns the packet at the cursor, or the exception of the code; unparsable and invalid messages are also answered with an error response. Whatever the outcome, the cursor stands where the frame ends. |
| Connection.EndToEnd | lsp/connection.cpp:157-239 | The bytes of a packet written in any rendering of its JSON, with decimal-free values, read back as the same packet, whatever the member order, exactly when every message in it is transmittable and a batch is not empty. |
| Connection.FaithfulExists | lsp/json/json.cpp:402-424 | There is a visiting order of members for all objects, so the lemmas about every such order are about something. |
| Wire.ComplaintSays | lsp/connection.cpp:191-200 | A text that is no JSON is answered with -32700, a message that is none with -32600, under a null id and with the description; nothing else is answered. |
| Wire.ContentTells | lsp/connection.cpp:178-212 | A content is a packet, a bad text, a bad message or neither object nor array; what `std::stod` or an accessor throws is a broken connection. |
| Wire.ExactMessageIs | lsp/jsonrpc/jsonrpc.cpp:134-175 | A message meets the condition of the end-to-end theorems exactly when its JSON holds no decimal and no integer beyond 32 bits. |
| Connection.PacketTreeRenders | lsp/connection.cpp:215-239 | What writeMessage prints is a rendering of the packet, for every visiting order. |
| Connection.Conversation | lsp/connection.cpp:157-239 | As many reads as writes give exactly the packets written, in order, and consume exactly the bytes written; each packet, and each object in it, may have its own member order. |
| Connection.PacketRoundTrip | lsp/jsonrpc/jsonrpc.cpp:112-186 | The object or array of a packet reads back as that packet exactly when every message is transmittable and a batch is not empty. |
| ThreadPool.ThreadPool.AddTask | lsp/threadpool.cpp:43-57 | The critical section of addTask: blocked while the pool is draining, else the task is queued last and a thread is added when there is none, or when several tasks wait and the bound allows one. |
| ThreadPool.ThreadPool.TakeTask | lsp/threadpool.cpp:59-86 | The critical section of a worker: it waits, takes the first task, or leaves. |
| ThreadPool.ThreadPool.StopWaiting | lsp/threadpool.cpp:23-26 | The first critical section of a drain closes the pool and changes nothing else. |
| ThreadPool.ThreadPool.Reopen | lsp/threadpool.cpp:33-37 | The last one drops the threads and opens it again. |
| ThreadPool.BehaviorInv | lsp/threadpool.cpp:5-86 | Every reachable state meets the invariants of threads, exits, drain, wake-ups, order and running tasks. |
| ThreadPool.NoLostWakeUp | lsp/threadpool.cpp:21-86 | In every reachable state with a queued task some live worker is outside the wait set, or an addTask still owes notify_one, or waitUntilFinished still owes a notify_all. |
| ThreadPool.TasksInOrder | lsp/threadpool.cpp:43-86 | What was submitted is what was taken, in order, followed by the queue; each task is taken once, by one worker; the number of threads keeps its bound. |
| ThreadPool.DrainComplete | lsp/threadpool.cpp:21-41 | Once waitUntilFinished has joined every worker the queue is empty and every accepted task has run. |
| ThreadPool.SettledOnce | lsp/threadpool.h:65-86 | A task that ends was not settled before, and runs on the worker that took it. |
| ThreadPool.NoDeadlock | lsp/threadpool.cpp:21-86 | In every reachable state nothing is left to do or some step of the pool is possible without new calls and spurious wake-ups. |
| ThreadPool.DrainEnds | lsp/threadpool.cpp:21-41 | During a drain every step of a worker and every join lessens the work left, and no other step, addTask included, adds to it. |
| ThreadPool.DrainCanWork | lsp/threadpool.cpp:21-41 | Such a step is possible until the drain is over. |
| PoolSize.AlwaysEnough | lsp/threadpool.cpp:43-57 | In every run the pool, while it accepts tasks, has a thread for every queued task or as many as it may have. |
| PoolSize.StartedForNeed | lsp/threadpool.cpp:52-53 | A step starts at most one thread, and only the first one or one of at most the maximum with another task already queued. |
| PoolSize.StartsWith | lsp/threadpool.cpp:5-14 | A new pool has the threads asked for, accepts tasks, and may have at least one thread. |
| PoolSize.EveryPoolStarts | lsp/threadpool.cpp:5-14 | There is a start for every number of threads and every maximum. |
| PoolSize.MayHappen | lsp/threadpool.cpp:21-86 | The runs leave out no interleaving: who waits may wake up at any time, who is awake may enter, any waiting thread may be the one notified, a drain may begin. |
| PoolSize.AnyoneMayAdd | lsp/threadpool.cpp:43-45 | Any thread may call addTask at any time. |
| MessageHandler.RequestDispatcher.RunHandler | lsp/messagehandler.cpp:200-250 | A generic callback answers at once, or, when asynchronous and allowed, leaves a job; what it throws goes on to processRequest. |
| MessageHandler.RequestDispatcher.ProcessRequest | lsp/messagehandler.cpp:83-150 | The response or job for a request: method not found, result, request error with data, invalid params, internal error, none for notifications; the current id is cleared again. |
| MessageHandler.RequestDispatcher.ProcessBatch | lsp/messagehandler.cpp:41-63 | The responses to a batch, in the order of its requests and without asynchronous handling, while the handlers stay the same. |
| MessageHandler.RequestDispatcher.Remove | lsp/messagehandler.cpp:75-81 | The handler of a method is gone and no other. |
| MessageHandler.BehaviorInv | lsp/messagehandler.cpp:23-81 | In every reachable state of a reader, the pool and threads that add and remove handlers, every response due is written, in the reader's hands or owed by a job. |
| MessageHandler.EveryDueResponseIsWritten | lsp/messagehandler.cpp:23-64 | Whatever the interleaving, and whenever handlers are added and removed, once the pool is drained exactly the responses due have been written, as a multiset. |
| MessageHandler.BatchesKeepOrder | lsp/messagehandler.cpp:41-63 | Every batch of responses written is that of a received batch, in request order, by the handlers there were at each request. |
| MessageHandler.WhoIsAnswered | lsp/messagehandler.cpp:200-250 | A request is answered, under its id, exactly when it has an id other than null, or an explicit null and a handler that fails at once. |
| MessageHandler.ResponsesMatchRequests | lsp/messagehandler.cpp:23-64 | After a drain the ids written are, with multiplicity, the ids of the requests that are answered. |
| MessageHandler.EveryRequestIsAnswered | lsp/messagehandler.cpp:83-150 | They are the ids of all requests that have one exactly when each request with an explicit null id fails at once. |
| MessageHandler.NullIdAnswered | lsp/messagehandler.cpp:83-150 | Of two requests with an explicit null id one is answered, that no method is found for it, and one with a handler that returns is not. |
| Answers.EveryResponseAnswers | lsp/messagehandler.cpp:83-150 | In every reachable state every written response has the id of a received request and says what its callback did: the value it returned; or, where it threw, code, message and data, -32602 for a type error and -32603 for any other; -32601 where there is no handler. On a pool thread an error loses its data and a type error is an internal one. |
| Answers.EveryRequestHasItsAnswer | lsp/messagehandler.cpp:83-150 | After a drain every request that is to be answered has such a response. |
| Answers.DueSays | lsp/messagehandler.cpp:200-250 | Which requests are answered, and with what, field by field. |
| Answers.BatchAnswers | lsp/messagehandler.cpp:43-63 | The responses to a batch are the answers to the requests at increasing places of it, and no request elsewhere is to be answered. |
| Answers.BatchesAnswer | lsp/messagehandler.cpp:43-63 | Every written batch is that of a received one. |
| Answers.AnythingMayCome | lsp/messagehandler.cpp:23-64 | Between two messages any request, response or batch may come, and handlers may be added and removed at any time. |
| PendingRequests.PendingTable.SendRequest | lsp/messagehandler.cpp:257-265 | Takes the next id and enters the result object under it. |
| PendingRequests.PendingTable.TakePending | lsp/messagehandler.cpp:152-167 | Removes the entry of an id and hands out its result object, if there is one. |
| PendingRequests.RequestResult.Settle | lsp/messagehandler.cpp:169-192 | Settles a result object that has not been settled, by the result or by the error of the response. |
| PendingRequests.FreshIds | lsp/messagehandler.cpp:9-13 | The ids issued by all handlers together are distinct exactly as long as there are at most 2^32. |
| PendingRequests.NoOverwrite | lsp/messagehandler.cpp:257-265 | Until then no pending entry is overwritten. |
| PendingRequests.RequestsPartitioned | lsp/messagehandler.cpp:152-265 | Every request sent is in exactly one place: pending, taken for settlement, or settled. |
| PendingRequests.SettledOnce | lsp/messagehandler.cpp:152-192 | Settlements are of distinct result objects, each by a response under the id of its request, whatever ids the peer sends. |
| PendingRequests.FirstResponseIsTaken | lsp/messagehandler.cpp:152-164 | The first response to a request finds the entry of that request. |
| PendingRequests.StrangeResponseIsIgnored | lsp/messagehandler.cpp:166-167 | A response that matches no pending request of its handler changes nothing. |
| Settlements.EverySettlementSays | lsp/messagehandler.cpp:152-192 | In every run a settlement is of a request that was sent under the id of the response, with the value of the response, or the code, message and data of its error. |
| Settlements.FirstId | lsp/messagehandler.cpp:257-265 | The first request is sent under the id 1 and entered in the table of its handler. |
| Alphabets.Wrapped | lsp/messagehandler.cpp:9-13 | The counter of ids has 32 bits and wraps by multiples of 2^32. |
| Settlements.MayHappen | lsp/messagehandler.cpp:152-192 | A request may be sent and any response may come at any time, and taken results may be settled in any order. |
| UriCodec.Encode | lsp/uri.cpp:422-447 | The loop encodes every character that is neither kept nor excluded. |
| UriCodec.Decode | lsp/uri.cpp:449-476 | The loop decodes triplets and gives up with an empty string at a malformed one. |
| UriCodec.NormalizeEncodedCase | lsp/uri.cpp:94-110 | The in-place loop normalizes its range and changes nothing outside it. |
| UriCodec.DecodeEncode | lsp/uri.cpp:422-476 | Decoding undoes encoding on all byte strings exactly for exclude sets without a percent sign. |
| UriCodec.CutEncoded | lsp/uri.cpp:422-476 | An encoded text that is cut short by more than two triplets does not decode to what it was made from. |
| UriCodec.NormalizeTwice | lsp/uri.cpp:94-110 | Normalizing twice is normalizing once. |
| UriCodec.SameNormalized | lsp/uri.cpp:94-110 | Texts that differ in the letter case of hexadecimal digits only normalize to the same text. |
| UriCodec.SameDecoded | lsp/uri.cpp:449-476 | And they decode to the same text. |
| UriCodec.CutDecoded | lsp/uri.cpp:449-476 | Cut short, such texts decode alike exactly when the cut leaves the same piece of a triplet. |
| UriCodec.CutNormalized | lsp/uri.cpp:94-110 | And they normalize alike under the same condition. |
| UriParts.CharEncoded | lsp/uri.cpp:427-444 | Letters, digits, `-`, `.`, `_` and the excluded characters stay, every other byte becomes a percent sign and its two digits in upper case. |
| UriParts.TextEncoded | lsp/uri.cpp:422-447 | A text is encoded character by character. |
| UriParts.PiecesDecoded | lsp/uri.cpp:449-476 | A text of plain characters and triplets, digits in either case, decodes to the characters and the bytes of the triplets. |
| UriParts.PiecesNormalized | lsp/uri.cpp:94-112 | The same text with the digits of its triplets in upper case is what normalization gives. |
| Uri.ScanPart | lsp/uri.cpp:29-87 | The scanners return the length of the longest legal run, modulo 2^16. |
| Uri.ScanTells | lsp/uri.cpp:274-317 | The 16-bit scan equals the size exactly for texts of legal characters that fit. |
| Uri.Uri.InsertScheme | lsp/uri.cpp:343-350 | Puts the lower-case text in the place of the scheme, in full, and leaves the bytes around it and the other four lengths; its own length is stored modulo 2^16, so the buffer is as long as the lengths say exactly when the text is shorter than that, and then only the scheme changes. |
| Uri.Uri.InsertAuthority | lsp/uri.cpp:352-359 | Puts the text with normalized triplets in the place of the authority, in full, and leaves the bytes around it and the other four lengths; its own length is stored modulo 2^16, so the buffer is as long as the lengths say exactly when the text is shorter than that, and then only the authority changes. |
| Uri.Uri.InsertPath | lsp/uri.cpp:361-366 | Puts the text in the place of the path, in full, and leaves the bytes around it and the other four lengths; its own length is stored modulo 2^16, so the buffer is as long as the lengths say exactly when the text is shorter than that, and then only the path changes. |
| Uri.Uri.InsertQuery | lsp/uri.cpp:368-375 | Puts the text with normalized triplets in the place of the query, in full, and leaves the bytes around it and the other four lengths; its own length is stored modulo 2^16, so the buffer is as long as the lengths say exactly when the text is shorter than that, and then only the query changes. |
| Uri.Uri.InsertFragment | lsp/uri.cpp:377-384 | Puts the text with normalized triplets in the place of the fragment, in full, and leaves the bytes around it and the other four lengths; its own length is stored modulo 2^16, so the buffer is as long as the lengths say exactly when the text is shorter than that, and then only the fragment changes. |
| Uri.Uri.SetScheme | lsp/uri.cpp:274-285 | Succeeds exactly for legal schemes that fit and then changes the scheme only; else nothing. |
| Uri.Uri.SetAuthority | lsp/uri.cpp:287-298 | The same for the authority. |
| Uri.Uri.SetPath | lsp/uri.cpp:300-304 | Always succeeds, with the effect of inserting the path, whatever its size. |
| Uri.Uri.SetQuery | lsp/uri.cpp:306-317 | The same as for the authority. |
| Uri.Uri.SetFragment | lsp/uri.cpp:319-323 | Always succeeds, with the effect of inserting the fragment, whatever its size. |
| Uri.Uri.RemoveAuthority | lsp/uri.cpp:325-329 | Makes the authority absent and changes nothing else. |
| Uri.Uri.RemoveQuery | lsp/uri.cpp:331-335 | Makes the query absent and changes nothing else. |
| Uri.Uri.RemoveFragment | lsp/uri.cpp:337-341 | Makes the fragment absent and changes nothing else. |
| Uri.Slices | lsp/uri.cpp:236-272 | The packed buffer has the sum of the lengths as its length, and each component stands at the offset given by the lengths before it. |
| Uri.SameFieldsSameComponents | lsp/uri.cpp:236-272 | Two URIs have equal fields exactly when they have equal components. |
| UriSyntax.ToString | lsp/uri.cpp:386-420 | Writes the components with their marks, the path encoded; an empty text without a scheme. |
| UriSyntax.Parse | lsp/uri.cpp:114-178 | For every text, leaves in the buffer exactly the components of the parts that the wrapping 16-bit counts cut out, or an invalid URI; the lengths agree with the buffer exactly when the fragment is shorter than 2^16 bytes. |
| UriSyntax.CountsAgree | lsp/uri.cpp:29-178 | Counting modulo 2^16 and counting exactly take a text apart alike when every part fits. |
| UriSyntax.TakeAuthority | lsp/uri.cpp:129-145 | Takes the authority after two slashes, as far as the wrapping count goes; what follows it has to be nothing or a slash. |
| UriSyntax.TakePath | lsp/uri.cpp:140-152 | Takes and decodes the path as far as the wrapping count goes, and leaves the rest of the text. |
| UriSyntax.TakeQuery | lsp/uri.cpp:154-163 | Takes the query likewise, up to the fragment. |
| UriSyntax.TakeFragment | lsp/uri.cpp:165-173 | Takes the rest as the fragment, whose length wraps too; it is normalized as far as the length says. |
| UriSyntax.UriRoundTrip | lsp/uri.cpp:114-420 | For legal, normalized components that fit their lengths, parsing the text gives them back exactly when the text does not hide where the path begins and the encoded path is below 2^16 bytes. |
| UriSyntax.Reparsed | lsp/uri.cpp:114-420 | What parse leaves behind is legal, and parsing, writing and parsing again gives the same exactly when the parsed path cannot be taken for an authority, or the authority for more than itself, and is below 2^16 bytes when encoded. |
| UriSyntax.PathTakenForAuthority | lsp/uri.cpp:114-420 | A path of two slashes and a name comes back as an authority. |
| UriSyntax.PathTooLong | lsp/uri.cpp:44-57 | A path of 21846 spaces, which fits, is encoded in 65538 bytes, of which the scanner counts two. |
| UriSyntax.EscapedSlashes | lsp/uri.cpp:114-178 | A text with escaped slashes parses to that path. |
| UriSyntax.MalformedEscape | lsp/uri.cpp:114-476 | For a text with a malformed escape the path becomes empty, and what toString then writes is refused. |
| UriSyntax.RoundTrip | lsp/uri.cpp:114-420 | `parse(u.toString())` equals `u` in all components exactly under that condition. |
| UriSyntax.CaseInsensitive | lsp/uri.cpp:94-178 | Two texts that differ only in the letter case of the scheme and of the hexadecimal digits of triplets parse to equal components exactly when no wrapped count stops inside a triplet whose digits differ; so always when every part fits. |
| UriSyntax.TripletCut | lsp/uri.cpp:44-57 | Two texts that differ in the case of one triplet, whose wrapped count stops inside it, parse to different paths. |
| UriParts.PartsFound | lsp/uri.cpp:114-178 | A text of a scheme of letters, digits, `-`, `.` and `+`, a colon and parts between `//`, `?` and `#` parses to the scheme in lower case and those parts; behind an authority without a path nothing may follow. |
| UriParts.NoScheme | lsp/uri.cpp:118-121 | A text whose scheme is empty or not followed by a colon is no URI. |
| UriParts.SchemeLowered | lsp/uri.cpp:332-342 | Lower case changes the letters A to Z, each to its partner, and nothing else. |
| UriParts.PartsWritten | lsp/uri.cpp:386-420 | A URI is written as its components between the same delimiters, the path encoded but for its slashes. |
| UriParts.SettersRefuse | lsp/uri.cpp:274-317 | Scheme, authority and query are set exactly when they hold none but their characters and fit. |
| Serialization.WriteJson | lsp/serialization.h:335-450 | The conversions to JSON, loops included, give the JSON of the value. |
| Serialization.ReadJson | lsp/serialization.h:452-582 | The conversions from JSON into a new target give the value, and fail exactly where the code throws. |
| Serialization.ReadVariant | lsp/serialization.h:314-331 | Walking the alternatives up to the index reads the one chosen, and fails without one. |
| Serialization.OwnOutputAccepted | lsp/serialization.h:186-312 | The acceptance test of a type is always true of the type's own output. |
| Serialization.LeastAccepted | lsp/serialization.h:300-312 | The variant index is the least whose alternative accepts. |
| Serialization.NoneAccepted | lsp/serialization.h:300-312 | There is none exactly when no alternative accepts. |
| Serialization.SomeElementAccepted | lsp/serialization.h:280-298 | A tuple of the right size is accepted exactly when some element is. |
| Serialization.TupleShadowed | lsp/serialization.h:280-331 | A pair of numbers goes to an earlier alternative of a number and a string, and fails. |
| Serialization.NullInNullable | lsp/serialization.h:335-582 | A nullable that holds a null of its own payload comes back as null. |
| Serialization.RoundTrip | lsp/serialization.h:335-582 | `fromJson(toJson(v))` gives the canonical form of `v` exactly when no earlier alternative of a variant accepts the JSON and no nullable payload prints as null. |
| Serialization.CanonicalPrints | lsp/serialization.h:414-418 | The canonical form differs in the storage of enumerations only: it has the same type and the same JSON. |
| Serialization.EnumKeepsValue | lsp/enumeration.h:29-67 | Looking a value up in an enumeration keeps its `value()`, also for custom values. |
| Serialization.FirstIndex | lsp/enumeration.h:29-47 | The index stored is the first with that value. |
| Serialization.OptionalNullable | lsp/serialization.h:518-582 | For an optional nullable property absent, null and set stay apart on the wire and after reading. |
| Serialization.LongRoundTrip | lsp/serialization.h:345-351 | Of all 64-bit integers, a `long` survives exactly when it is not below the 32-bit minimum and fits 32 bits or is held exactly by a double, for every rounding that C++ allows; only within 1023 of the 64-bit maximum may the conversion leave the type. |
| Serialization.ULongRoundTrip | lsp/serialization.h:353-375 | An `unsigned long` or `unsigned long long` survives exactly when it is at most the 32-bit maximum or held exactly by a double. |
| Serialization.LongRounded | lsp/serialization.h:345-351 | From the 32-bit minimum up to 2^53 every `long` comes back, and 2^53 + 1 does not. |
| Serialization.LongTruncated | lsp/serialization.h:345-351 | The `long` just below the 32-bit minimum comes back as the 32-bit maximum. |
| JsonTypes.ScalarsWritten | lsp/serialization.h:335-351 | Scalars become the JSON value of their kind; an unsigned integer above the 32-bit maximum becomes a decimal. |
| JsonTypes.SequencesWritten | lsp/serialization.h:377-406 | Vectors and tuples become arrays of the JSON of their elements, in order. |
| JsonTypes.ObjectsWritten | lsp/serialization.h:389-397 | Maps and structures become objects of the JSON of their entries, without the absent ones. |
| JsonTypes.WrappersWritten | lsp/serialization.h:408-436 | Enumerations become their value, nullables null or their payload, variants the alternative they hold. |
| JsonTypes.NumbersRead | lsp/serialization.h:77-84 | An integer, written as integer or decimal, is read by every numeric type that has it as that number. |
| JsonTypes.ScalarsTyped | lsp/serialization.h:186-204 | The values of the scalar types by their ranges. |
| JsonTypes.EnumsTyped | lsp/enumeration.h:61-67 | An enumeration holds any value of its base type, listed or not. |
| JsonTypes.FractionsLost | lsp/serialization.h:78-79 | A decimal is cut towards zero by an integer target. |
| JsonTypes.WrittenThenRead | lsp/serialization.h:77-84 | What one integer type wrote is read by the floating-point type as the same number, and by the other integer type where it fits. |
| JsonTypes.DoubleThenRead | lsp/serialization.h:77-84 | An integral double is read by the integer types as that integer where it fits. |
| JsonTypes.IntegersAsDoubles | lsp/serialization.h:470-501 | Vectors and maps of integers are read as vectors and maps of the same doubles. |
| JsonTypes.ScalarsRead | lsp/serialization.h:76-85 | Each scalar type reads its own kind of JSON value and no other. |
| JsonTypes.ScalarsAccepted | lsp/serialization.h:186-204 | A scalar type accepts exactly what it can read, the null type only null. |
| JsonTypes.KindsAccepted | lsp/serialization.h:205-278 | What each of the other types accepts, by the kind of the JSON value, its required keys, its length and its first elements. |
| JsonTypes.ReadableAccepted | lsp/serialization.h:186-312 | What a type can read, it accepts, for types with no null type inside and no empty tuple. |
| JsonTypes.VectorRead | lsp/serialization.h:493-501 | A vector is read exactly when every element is, in order. |
| JsonTypes.TupleRead | lsp/serialization.h:454-468 | A tuple is read exactly when it has as many elements and each is read by its own type. |
| JsonTypes.MapRead | lsp/serialization.h:470-476 | A map is read exactly when every entry is. |
| JsonTypes.StructRead | lsp/serialization.h:550-582 | A structure is read property by property: a missing one has to be optional, null for an optional one counts as missing unless its type takes null, unknown keys are ignored. |
| JsonTypes.WrappersRead | lsp/serialization.h:503-548 | Nullables take null, variants their first accepting alternative. |
| JsonTypes.EnumRead | lsp/enumeration.h:29-47 | A value of an enumeration is stored at the first place that has it, any other as a custom value. |
| JsonTypes.ShapesRefused | lsp/serialization.h:454-501 | What is no array, no object or an array of another length is refused. |
| Doubles.DoublesAre | lsp/serialization.h:345-351 | The integers a double holds are those of at most 53 significant bits times a power of two. |
| Doubles.RoundingExists | lsp/serialization.h:345-351 | There is a conversion as C++ promises it: the one towards zero. |
| Generator.CppGenerator.GenerateTypes | lspgen/lspgen.cpp:1027-1036 | Follows the depth-first walk, which ends for every reference graph, cyclic or not; succeeds exactly for a sound model (references defined, bases and mixins structures, every type with a name), and then declares every type that is not written by hand, in an order that meets the rules of the header. |
| Generator.GeneratedHeader | lspgen/lspgen.cpp:1027-1036 | The walk over all definitions ends with a header exactly for a sound model, and that header is in order and complete. |
| Generator.CppGenerator.GenerateNamedType | lspgen/lspgen.cpp:1185-1197 | A type that is not processed yet is entered, generated and left with the walk's stack as before; a name that is not defined throws. |
| Generator.CppGenerator.Generate | lspgen/lspgen.cpp:1736-1744 | Leaves the header of the walk, with the type declared last, or stops as the walk does: on an enumeration over no base type, on a type without a name, or in what the type refers to. |
| Generator.CppGenerator.GenerateType | lspgen/lspgen.cpp:1435-1479 | Visits what the expression refers to, at any depth and in order, and declares its structure literals after what they refer to. |
| Generator.CppGenerator.GenerateTypeList | lspgen/lspgen.cpp:1412-1433 | Visits the types of a list in order, up to the first that stops the walk. |
| Generator.CppGenerator.GenerateStructure | lspgen/lspgen.cpp:1587-1675 | Bases, mixins and property types are visited first; then the structure is declared, or the generator stops on a base or mixin that is not a structure, or on a property without a type name. |
| Generator.CppGenerator.UsesInProperties | lspgen/lspgen.cpp:1263-1273 | Every property type needs a name, and the first without one decides; an optional reference is a `unique_ptr` while its type is being processed, else an optional. |
| Generator.CppGenerator.CopyMixins | lspgen/lspgen.cpp:1660-1672 | Copies the properties of the mixins, which have to be structures, in order and by the same rule, up to the first that cannot be copied. |
| Generator.TypeVisited | lspgen/lspgen.cpp:1435-1479 | A visit that succeeds keeps the invariant of the walk (the types being processed are those on the stack, each reached from the one below) and has processed every name the expression refers to and declared every literal in it; one that fails shows that the model is not sound. |
| Generator.DefinitionVisited | lspgen/lspgen.cpp:1587-1603 | The same for a definition on top of the stack, which is declared after everything it refers to that does not lead back to it. |
| TypeNames.IsStringType | lspgen/lspgen.cpp:1243-1261 | Follows aliases to a type; a missing name throws, and going round in a circle is told apart as a recursion without end. |
| TypeNames.CppTypeName | lspgen/lspgen.cpp:1263-1410 | What keeps a type from having a name: a lookup that throws, or a map key whose recursion does not end, whichever the code comes to first. |
| TypeNames.StringTypeEnds | lspgen/lspgen.cpp:1243-1261 | isStringType throws exactly when the aliases lead to a missing name and recurses for ever exactly when they go round in a circle; to tell which takes no more steps than there are definitions. |
| TypeNames.ClosedEnds | lspgen/lspgen.cpp:1243-1261 | In a closed model it answers exactly when they do not go round in a circle. |
| TypeNames.ClosedNameable | lspgen/lspgen.cpp:1263-1410 | In a closed model a type has a name exactly when no key of a map in it goes round in a circle. |
| TypeNames.StringTypeAnswer | lspgen/lspgen.cpp:1243-1261 | The answer is that of the type the aliases lead to: true for `string`, `URI`, `DocumentUri` and `RegExp`, false for any other. |
| TypeParts.NameableExactly | lspgen/lspgen.cpp:1263-1410 | A type has a name exactly when every part that is asked for has one: defined references, unions with alternatives, keys whose aliases end. |
| TypeParts.RefsAreParts | lspgen/lspgen.cpp:1435-1479 | The names and literals a type expression brings in are those that stand somewhere inside it, at any depth. |
| TypeParts.DefinitionRefsAreParts | lspgen/lspgen.cpp:1587-1603 | The same of a definition: its bases, mixins and properties, or the type it is another name of. |
| TypeParts.AllNamedExactly | lspgen/lspgen.cpp:1263-1273 | All properties have a type name exactly when each has. |
| TypeParts.SoundExactly | lspgen/lspgen.cpp:1027-1036 | What a model needs for the generator to succeed, spelled out definition by definition. |
| GeneratorStops.NameStopTells | lspgen/lspgen.cpp:1263-1410 | A type without a name has a part that is not defined, or an empty union, or a key that leads to a missing name, where the failure is an exception; and a key that goes round in a circle where it is an endless recursion. |
| GeneratorStops.PropertiesStopTells | lspgen/lspgen.cpp:1538-1538 | Of a list of properties the first without a name decides. |
| GeneratorStops.FailureTells | lspgen/lspgen.cpp:1027-1036 | A generator that throws has met a definition that lacks something, and one that does not end a key that goes round in a circle. |
| Header.DeclaredOnce | lspgen/lspgen.cpp:1185-1197 | No type is declared twice. |
| Header.DeclaredBefore | lspgen/lspgen.cpp:1587-1603 | If a type refers to another, at any depth of its type expressions, and that one does not lead back to it, the other is declared first. |
| Header.AcyclicInOrder | lspgen/lspgen.cpp:1587-1603 | Without reference cycles the header is a topological order. |
| Header.BoxedExactly | lspgen/lspgen.cpp:1263-1273 | An optional reference property is a `unique_ptr` exactly when the type is still incomplete at that point, and then the type leads back to the structure. |
| Header.CopiedBoxedExactly | lspgen/lspgen.cpp:1660-1672 | Of a mixin that is declared before the structure, or does not lead back to it, a copied optional reference is a `unique_ptr` exactly when its type is still incomplete, and then the type leads back to the structure. |
| Header.CopiedComplete | lspgen/lspgen.cpp:1594-1603 | Of a mixin that does not lead back to the structure every copied property has a complete type: what it refers to is declared before the structure, and no copied reference is a `unique_ptr`. |
| Header.TooEarlyWhy | lspgen/lspgen.cpp:1594-1603 | A copied `std::optional` of an incomplete type comes from a mixin that leads back to the structure and is declared with it or after it. |
| HeaderUses.HeaderTells | lspgen/lspgen.cpp:1027-1036 | Where the generator succeeds, the header declares each type of the model once, but for the three written by hand, and each declaration lists exactly the optional plain references of its own properties, of each mixin and of each literal, in their order. |
| HeaderUses.ItemTells | lspgen/lspgen.cpp:1538-1543 | The same of one declaration. |
| HeaderUses.UsedExactly | lspgen/lspgen.cpp:1263-1273 | A property with a given name and target is listed exactly when the definition has one that is optional with that reference for a type; a required one never is. |
| Header.UsesPlaces | lspgen/lspgen.cpp:1263-1273 | The list is that of the properties at increasing places, and no property elsewhere is an optional plain reference. |
| GeneratorLimits.ClosedModelEnds | lspgen/lspgen.cpp:1243-1410 | For a closed model without empty unions, with base types for enumerations and structures for bases and mixins, the generator succeeds exactly when no key of a map that has to be named goes round in a circle of aliases. |
| GeneratorLimits.SelfKeyedModel | lspgen/lspgen.cpp:1243-1261 | With an alias of itself as the key of a map the generator does not end. |
| GeneratorLimits.TooEarlyExactly | lspgen/lspgen.cpp:1660-1672 | In every state of the walk a copied optional reference is a `std::optional` of an incomplete type exactly when that type has not been reached. |
| GeneratorLimits.CopiedTooEarly | lspgen/lspgen.cpp:1594-1672 | A model of three structures whose header holds a `std::optional` of a type that is declared later. |
| OrType.Extract | lspgen/lspgen.cpp:392-445 | The alternatives are the types that are no structure literals, then the merged literals; only an empty union fails. |
| OrType.MergeLiterals | lspgen/lspgen.cpp:409-437 | The loop that erases from the vector it walks merges neighbours with the same property names from the left. |
| OrType.MergesRuns | lspgen/lspgen.cpp:409-437 | The merged literals stand for consecutive runs that cover all literals: the names of the run, the types of its first, a property optional when it is so anywhere in the run. |
| OrType.NothingLeftToMerge | lspgen/lspgen.cpp:409-437 | No two neighbours of the result could be merged. |
| OrType.StillAccepted | lspgen/lspgen.cpp:409-437 | Whatever one of the literals accepts, some merged literal accepts. |
| Unions.ExtractedInOrder | lspgen/lspgen.cpp:392-445 | The result is the alternatives that are no literals, all of them and in their order, then literals that stand for the others run by run in their order. |
| Unions.TypesPicked | lspgen/lspgen.cpp:399-407 | The alternatives kept are those at increasing places, and none elsewhere is no literal. |
| Unions.LiteralsPicked | lspgen/lspgen.cpp:399-407 | The same of the literals. |
| CommandLine.EscapeArg | lsp/process.cpp:250-290 | The loop with its backslash counter quotes an argument that holds a special character and leaves others alone. |
| CommandLine.QuotedExactly | lsp/process.cpp:252-253 | An argument is quoted exactly when it holds a blank, a tab, a line feed, a vertical tab, a backslash, a quotation mark or a comma; any other stays as it is. |
| CommandLine.BuildCmdLine | lsp/process.cpp:292-297 | The program and the arguments, escaped and separated by single spaces. |
| CommandLine.TakeBody | lsp/process.cpp:255-287 | The run-time's rules turn the quoted form of any text back into that text, and stop right behind the closing quote. |
| CommandLine.ArgumentsComeBack | lsp/process.cpp:250-297 | For every list, splitting the joined arguments gives the list without its empty arguments. |
| CommandLine.CommandLineRoundTrip | lsp/process.cpp:250-297 | Program name and arguments come back exactly when no argument is empty and the name holds no quotation mark and does not end in a backslash. |
| CommandLine.TrailingBackslash | lsp/process.cpp:250-297 | A program name that ends in a backslash comes back with two. |
| CommandLine.EmptyArgument | lsp/process.cpp:250-297 | An empty argument is lost. |

## Left out

- Sockets, standard streams, pipes and processes: a stream is a byte sequence with a cursor, and what the operating system does is not part of this model.
- Floating point: doubles are reals. `std::stod`, `std::to_string(double)` and the widening of integers in a JSON text are uninterpreted parameters, so the text of a decimal comes back only where the printer's condition says so. The loop that should strip trailing zeros reads one place too far (lsp/json/json.cpp:386-392) and belongs to the uninterpreted text.
- A header line that the input never ends: the source reads the end-of-file byte for ever (lsp/connection.cpp:286), the model reports it as the failure `EndlessLine`.
- JsonRpc.RequestFromJson: a number outside the 32-bit range as an id, whose cast is undefined in C++, is truncated towards zero and kept.
- UTF-16 surrogate pairs in `\u` escapes: each unit is encoded by itself, as in the code, and the bytes are then no UTF-8 (`CodePoints.EscapesRead` says so for every text with a surrogate in it).
- MessageHandler: typed handlers (lsp/messagehandler.inl:39-188), which answer some notifications and some requests with ids differently; a callback is represented by how it ends, and exceptions other than `std::exception`, the removal or replacement of a handler while it runs, and concurrent drains do not occur.
- RunHandler: the typed overloads of `add` are not modelled, only the two generic ones.
- PendingRequests: callbacks that throw, and the typed conversion of results; the theorems need at most 2^32 requests, after which ids repeat.
- ThreadPool: one drain at a time, tasks that submit no tasks, and the accesses to the thread vector outside the mutex during a drain.
- Uri: file paths (`fileUriFromPath`, `fsPath`), and what the accessors make of a URI whose lengths do not agree with its buffer.
- UriSyntax.UriRoundTrip: a URI without a scheme, which toString writes as an empty text, is no legal one; what parse makes of any text that it accepts is, with a fragment below 2^16 bytes (`UriSyntax.Reparsed`).
- Serialization: `Uri` and raw JSON values as types, `Uri`-keyed maps, tables of literal properties, and reading into targets that already hold a value. Properties of a structure are a map, so two properties with one name do not occur.
- Serialization.ReadJson: a cast of a number out of range, which is undefined in C++, is a parameter of which nothing is assumed.
- Generator: the emitted C++ text, names of literals and documentation. Of `cppTypeName` the model has the lookups, which can fail, and the choice between `unique_ptr` and `optional`.
- TypeNames.CppTypeName: does not say what the name is, only whether there is one, because the emitted text is left out.
- IsStringType: the recursion gets a bound, the number of definitions, at which the source goes round in its circle for ever; the generator then reports `Endless`.
- OrType: the sorting of properties by `isOptional` when a literal is read (lspgen/lspgen.cpp:368-376), which happens before the merge.
- CommandLine: the conversion to UTF-16, and the POSIX side of lsp/process.cpp.
