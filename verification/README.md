# Verification of ZeroEQ

A model of four parts of ZeroEQ, with proofs:

- **JSON** (`Json*.dfy`, `OrderedMap.dfy`): the bundled engine. `JsonGrammar` says what the reader makes of
  a text, as functions of the text and a position: value, error, place of the cursor, exception. The class
  `Reader` in `JsonReader` is the cursor, value stack and error list of the source and is proved against it.
  The printers `FastWriter` and `StyledWriter` are classes proved against functions that give the printed
  text. `JsonLayout` connects both sides: a `Tree` is a text that prints a value with any white space, and
  every such text reads as its value. The round trips of both printers follow from it, `JsonDropped` being
  about nulls that are printed as nothing. `JsonPhrases` is a grammar of all that the reader takes, comments
  and loose separators included, made of lexemes and gaps (`JsonLexemes`); `JsonAccepted` proves that a
  document is accepted as a value exactly if a phrase for this value stands at its start. `JsonShapes`,
  `JsonEscapes` and `JsonAtoms` say what single tokens look like and stand for, `JsonLines` which lines an
  indented document has.
- **REST** (`Http*.dfy`, `EndpointNames.dfy`): `HttpRouter` finds the endpoint of a path, `HttpServer`
  registers and removes, `HttpAnswers` decides on requests, registry and preflight, and the class in
  `HttpService` does all this in place. `HttpRuns` says which handlers a run of calls leaves, `HttpReplies`
  what clients get to see.
- **Request/reply** (`Frames.dfy`, `RequestReply*.dfy`): the client and server objects, frame by frame, and a
  state machine of any number of them with a network that reorders and loses packets.
- **Shared receivers** (`Receivers.dfy`): the walk that finds out which receiver owns a ready socket.

Reading the model:

- A `char` stands for one byte of the source's strings; nothing depends on an upper bound of characters
  unless it is written out. Positions stand for pointers into the text.
- A `std::map` is the sequence of its entries in order. A map ordered by `std::greater` is the same sequence
  read from its end.
- Exceptions are results: `Thrown`, `Throws`, `SchemaDiffers`, `ThrewOutOfRange` and the like.
- User code (handlers, callbacks, `process` of a receiver), the clock, `zmq_poll` and the extraction of a
  double from a stream are parameters. What a socket does with a message is a parameter or a step.
- Of ZeroMQ the model has whole messages, the flag of a frame that announces another one, and the envelope of a
  reply socket: it keeps the frames up to the first empty one and puts them in front of what is sent back.
- A double is its bit pattern. The order on doubles is a parameter of the comparison, and the laws of the
  order are stated for values without doubles.

Behaviour of the source that the model keeps and that may surprise:

- A bare `-` reads as 0, leading zeros are accepted, and text behind the root value is ignored
  (zeroeq/http/jsoncpp/jsoncpp.cpp:785-825, 344-383).
- With numeric names allowed, a numeric name always throws, because a number has no C string (line 703).
- Behind a member value and a comment any token but a closing brace is taken for a comma (lines 716-730).
- `}` is accepted behind a trailing comma if the name before it was empty (line 693). `JsonPhrases.Rule` shows
  this and the line before as rules.
- With dropped nulls `[null]` prints as `[]` and reads back as the empty array (lines 4426-4429, 741-747).
- A callback that throws stays stored, although no further reply will come (zeroeq/client.cpp:125-132).
- A preflight for a path below a slash-terminated endpoint, for a path that only "/" takes, or for GET of the
  registry is rejected although the request itself would be served (zeroeq/http/server.cpp:420-425), and an
  empty path in a preflight throws out of `process` (line 417). `PreflightAgrees` says exactly when both agree.
- A reader with its default features refuses `[,true]`, which is what a printer that drops nulls makes of
  `[null,true]` (zeroeq/http/jsoncpp/jsoncpp.cpp:439-455, 4426-4429).
- The comment in `_receive` asks for further polls; the loop never makes one, because the time left is set to
  zero first (zeroeq/receiver.cpp:129-132, 154-156).
- request.h lets a slash-terminated endpoint take every path below it; a longer registered prefix that takes
  nothing blocks it (zeroeq/http/server.cpp:372-394). `TakenUnlessBlocked` says exactly when.

## Model

| member | source | states |
|---|---|---|
| Text.MemcmpIsLexicographic | zeroeq/http/jsoncpp/jsoncpp.cpp:2749-2761 | the byte-wise order of map keys (`memcmp` over the common length, then the shorter one first) is the lexicographic order |
| Text.LexicographicMeaning | zeroeq/http/jsoncpp/jsoncpp.cpp:2749-2761 | in that order a string is less than those it is a proper prefix of, and than those with a greater character where the two differ first |
| OrderedMap.InsertSorted | zeroeq/http/jsoncpp/jsoncpp.cpp:3499-3516 | storing under a key keeps a map in order, sets that key and no other |
| JsonOrder.Trichotomy | zeroeq/http/jsoncpp/jsoncpp.cpp:2991-3036 | of two double-free values with container sizes below 2^31 exactly one of `a < b`, `a == b`, `b < a` holds |
| JsonOrder.Transitivity | zeroeq/http/jsoncpp/jsoncpp.cpp:2991-3036 | `operator<` is transitive on these values, through arrays and objects of any depth |
| JsonOrder.EqualIsEquality | zeroeq/http/jsoncpp/jsoncpp.cpp:3044-3087 | `operator==` holds exactly for equal values |
| JsonOrder.CompareSigns | zeroeq/http/jsoncpp/jsoncpp.cpp:2983-2989 | `compare` is 0 exactly on equal values, agrees with `operator==` and changes sign when its arguments change places |
| JsonOrder.OrderMeaning | zeroeq/http/jsoncpp/jsoncpp.cpp:2991-3036 | which order it is: by type in the order of the source, numbers and booleans by their value, strings by `StringLess`, containers by size, those of one size by the first entry where they differ, its key first and then its value |
| JsonOrder.CompareMeaning | zeroeq/http/jsoncpp/jsoncpp.cpp:2983-2989 | `compare` is negative exactly if the first value comes first in this order, positive exactly if the second does |
| JsonOrder.OversizeBreaksOrder | zeroeq/http/jsoncpp/jsoncpp.cpp:3025-3031 | at size 2^31 the 32-bit difference of the sizes makes two values each less than the other |
| JsonOrder.TrichotomyBound | zeroeq/http/jsoncpp/jsoncpp.cpp:2991-3036 | the trichotomy holds for all values with at most `n` entries in a container if and only if `n` < 2^31 |
| JsonValue.ItemAtIndex | zeroeq/http/jsoncpp/jsoncpp.cpp:3449-3460 | the look-up by index finds every stored element of a sparse array |
| JsonValue.ItemAtGap | zeroeq/http/jsoncpp/jsoncpp.cpp:3449-3460 | and gives null where none is stored |
| JsonNumbers.UintToString | zeroeq/http/jsoncpp/jsoncpp.cpp:168-174 | the loop writes exactly the decimal numeral and a NUL in front of the cursor, in at most 21 of the 25 bytes, and touches nothing else |
| JsonNumbers.ValueToString | zeroeq/http/jsoncpp/jsoncpp.cpp:4181-4203 | every integer of 64 bits, the most negative one included, is printed as its decimal text |
| JsonNumbers.ComputeNumber | zeroeq/http/jsoncpp/jsoncpp.cpp:785-825 | on an optional minus and digits the result is an integer exactly when the number lies in [-2^63, 2^64-1], it is that number, and no step leaves 64 bits |
| JsonNumbers.NumberRoundTrip | zeroeq/http/jsoncpp/jsoncpp.cpp:785-825 | decoding the printed text of an integer gives back that integer, tagged by its size |
| JsonStrings.Utf8Encoding | zeroeq/http/jsoncpp/jsoncpp.cpp:123-149 | for every Unicode scalar value the bytes are a UTF8-char of section 4 of RFC 3629 that denotes that value: the encoding is injective |
| JsonStrings.Utf8Decoding | zeroeq/http/jsoncpp/jsoncpp.cpp:123-149 | conversely every UTF8-char is the encoding of the value it denotes |
| JsonStrings.DecodedCodePoint | zeroeq/http/jsoncpp/jsoncpp.cpp:913-969 | every escape or pair of escapes that decodes gives a code point of at most 0x10FFFF that is no high surrogate |
| JsonStrings.SurrogatePairDecodes | zeroeq/http/jsoncpp/jsoncpp.cpp:913-940 | every supplementary code point is recovered from its pair of section 7 of RFC 8259 |
| JsonStrings.NeedsEscapes | zeroeq/http/jsoncpp/jsoncpp.cpp:4323-4342 | the two scans of the shortcut find something exactly if some character must be escaped |
| JsonStrings.ValueToQuotedString | zeroeq/http/jsoncpp/jsoncpp.cpp:4336-4397 | shortcut and escaping loop print the same text, quotes around the escaped characters |
| JsonStrings.QuoteRoundTrip | zeroeq/http/jsoncpp/jsoncpp.cpp:860-911 | a printed string of any characters is scanned to exactly its closing quote and decodes to itself |
| JsonEscapes.EscapeSequenceExactly | zeroeq/http/jsoncpp/jsoncpp.cpp:942-969 | an escape sequence reads as a number exactly if four hexadecimal digits of this number stand there, in either case |
| JsonEscapes.DecodedExactly | zeroeq/http/jsoncpp/jsoncpp.cpp:860-940 | the contents of a string decode to a text exactly if they are plain characters, one-letter escapes, four-digit escapes and pairs of these that stand for it |
| JsonEscapes.UndecodableExplained | zeroeq/http/jsoncpp/jsoncpp.cpp:860-969 | what is recorded for contents that do not decode says what is wrong at the place that it names |
| JsonEscapes.EscapeMeaning | zeroeq/http/jsoncpp/jsoncpp.cpp:4344-4391 | which escape is printed for which character, and that all others print as themselves |
| JsonReader.Reader.SkipWhiteSpace | zeroeq/http/jsoncpp/jsoncpp.cpp:547-555 | the loop stops at the first character that is no white space |
| JsonReader.Reader.Match | zeroeq/http/jsoncpp/jsoncpp.cpp:557-566 | the backward comparison succeeds exactly if the rest of the keyword stands at the cursor, and only then moves |
| JsonReader.Reader.ReadString | zeroeq/http/jsoncpp/jsoncpp.cpp:669-679 | the scan ends behind the first unescaped quote or at the end of the text |
| JsonReader.Reader.ReadComment | zeroeq/http/jsoncpp/jsoncpp.cpp:568-589 | both comment styles end where the grammar says; a block comment left open at the end passes if the last byte is a slash |
| JsonReader.Reader.ReadNumber | zeroeq/http/jsoncpp/jsoncpp.cpp:647-667 | digits, fraction and exponent are taken as the grammar says |
| JsonReader.Reader.ReadToken | zeroeq/http/jsoncpp/jsoncpp.cpp:476-545 | the token at the cursor, with its exact range; it makes progress except at the end of the text |
| JsonReader.Reader.RecoverFromError | zeroeq/http/jsoncpp/jsoncpp.cpp:981-992 | recovery stops behind the wanted token or at the end and neither adds nor loses an error |
| JsonReader.Reader.DecodeUnicodeCodePoint | zeroeq/http/jsoncpp/jsoncpp.cpp:913-940 | an escape or a surrogate pair is decoded, or one error with its place is recorded |
| JsonReader.Reader.DecodeString | zeroeq/http/jsoncpp/jsoncpp.cpp:860-911 | the loop over the characters of a string token computes the decoded text, or records one error |
| JsonReader.Reader.DecodeNumberToken | zeroeq/http/jsoncpp/jsoncpp.cpp:775-783 | an integer or a double becomes the current value, or one error is recorded and the value stays |
| JsonReader.Reader.ReadValue | zeroeq/http/jsoncpp/jsoncpp.cpp:385-464 | reading a value does what the grammar says: cursor, value, errors and exception; the stack has its old height again |
| JsonReader.Reader.ReadArray | zeroeq/http/jsoncpp/jsoncpp.cpp:737-773 | the same for an array, element by element, with recovery at the closing bracket |
| JsonReader.Reader.ReadObject | zeroeq/http/jsoncpp/jsoncpp.cpp:681-735 | the same for an object, with its quirks: the name before a closing brace, comments in place of a comma |
| JsonReader.Reader.Parse | zeroeq/http/jsoncpp/jsoncpp.cpp:344-383 | `parse` ends on every text; it returns true exactly if no error is recorded; without `strictRoot` a failed parse records exactly one error |
| JsonExceptions.OnlyTheStackLimit | zeroeq/http/jsoncpp/jsoncpp.cpp:385-389 | without numeric names, and on texts no longer than the longest string, nothing but the stack limit leaves the reader as an exception |
| JsonExceptions.ValueExplained | zeroeq/http/jsoncpp/jsoncpp.cpp:385-464 | reading a value succeeds, fails with an error inside the text, or throws: the stack limit, a string longer than 2^31-6 in a text at least as long, or a numeric name where these are allowed |
| JsonExceptions.ErrorsPointIntoText | zeroeq/http/jsoncpp/jsoncpp.cpp:971-979 | every recorded error names a range of the document, and the extra place, if there is one, lies in that range; the range is a token of which the message is true, or the whole document when a strict reader gets no container |
| JsonExceptions.ErrorsRecorded | zeroeq/http/jsoncpp/jsoncpp.cpp:344-383 | a parse is successful exactly if nothing is recorded; a strict reader records a root that is no container, behind what else is wrong |
| JsonExceptions.FailedToken | zeroeq/http/jsoncpp/jsoncpp.cpp:454-456 | a value of one token that cannot be read leaves the value that was there |
| JsonExceptions.ElementsStay | zeroeq/http/jsoncpp/jsoncpp.cpp:749-771 | the elements that were read stay in their places, also in front of an error |
| JsonExceptions.MembersStay | zeroeq/http/jsoncpp/jsoncpp.cpp:687-731 | the members that were read stay, perhaps with a later value |
| JsonLayout.ParseTree | zeroeq/http/jsoncpp/jsoncpp.cpp:385-464 | any text that prints a value with any white space between its tokens reads as that value, wherever it stands, or hits the stack limit exactly if it nests too deep |
| JsonLayout.ParseFields | zeroeq/http/jsoncpp/jsoncpp.cpp:681-735 | the member loop reads all printed members into the map, later ones over earlier ones of the same name |
| JsonLayout.ParseElements | zeroeq/http/jsoncpp/jsoncpp.cpp:737-773 | the element loop reads all printed elements under consecutive indices |
| JsonLexemes.LexemeIn | zeroeq/http/jsoncpp/jsoncpp.cpp:476-545 | a text that is one token in order is read as that token wherever it stands; behind a number nothing may follow that goes on with it |
| JsonLexemes.LexemeOut | zeroeq/http/jsoncpp/jsoncpp.cpp:476-545 | conversely the text of every token in order is such a text |
| JsonLexemes.BlankIn | zeroeq/http/jsoncpp/jsoncpp.cpp:466-474 | white space and closed comments are skipped in front of any token |
| JsonLexemes.BlankOut | zeroeq/http/jsoncpp/jsoncpp.cpp:466-474 | and what is skipped in front of a token is white space and closed comments |
| JsonShapes.LexemeExactly | zeroeq/http/jsoncpp/jsoncpp.cpp:476-545 | the tokens in order are exactly the brackets, separators and keywords, the numbers and the strings of their shapes |
| JsonShapes.NumberExactly | zeroeq/http/jsoncpp/jsoncpp.cpp:647-667 | a number is a minus or a digit, digits, a fraction and an exponent, where digits may be missing |
| JsonShapes.GapExactly | zeroeq/http/jsoncpp/jsoncpp.cpp:547-645 | gaps are exactly white space of four characters and closed comments of both styles |
| JsonShapes.OpenBlock | zeroeq/http/jsoncpp/jsoncpp.cpp:568-631 | a block comment that is not closed reaches to the end of the text and passes for closed if that is a slash |
| JsonShapes.OpenQuote | zeroeq/http/jsoncpp/jsoncpp.cpp:669-679 | a string that is not closed reaches there too and is an error token |
| JsonAtoms.AtomExactly | zeroeq/http/jsoncpp/jsoncpp.cpp:775-858 | keywords, numbers and strings have exactly these values: an integer of 64 bits is a signed number up to 2^31-1, every other number is the double that the stream extracts |
| JsonAtoms.NamesExactly | zeroeq/http/jsoncpp/jsoncpp.cpp:695-698 | the names of members are the texts that their strings stand for |
| JsonAtoms.KeyCut | zeroeq/http/jsoncpp/jsoncpp.cpp:2708-2713 | keys keep the length of a name in 30 bits |
| JsonPhrases.ParsePhrase | zeroeq/http/jsoncpp/jsoncpp.cpp:385-464 | every phrase of the grammar is read as its value, wherever it stands, or hits the stack limit exactly if it nests too deep |
| JsonPhrases.ParseItems | zeroeq/http/jsoncpp/jsoncpp.cpp:737-773 | the element loop reads all items of a list phrase, with comments behind them |
| JsonPhrases.ParseMembers | zeroeq/http/jsoncpp/jsoncpp.cpp:681-735 | the member loop reads all members of a record phrase, whatever separates them |
| JsonAccepted.AcceptedExactly | zeroeq/http/jsoncpp/jsoncpp.cpp:344-383 | for all features a document is accepted as a value if and only if it starts with a phrase of the grammar for this value that nests less than the stack limit, and a strict reader gets a container |
| JsonAccepted.FindPhrase | zeroeq/http/jsoncpp/jsoncpp.cpp:385-464 | whatever is read as a value is a phrase of the grammar for that value, up to the cursor |
| JsonAccepted.FindItems | zeroeq/http/jsoncpp/jsoncpp.cpp:737-773 | what the element loop reads is a list of phrases with commas between them |
| JsonAccepted.FindMembers | zeroeq/http/jsoncpp/jsoncpp.cpp:681-735 | what the member loop reads is a list of names, colons, phrases and separators: a comma, or behind a comment any token but a closing brace; the object ends behind a value or behind a member with the empty name |
| JsonAccepted.Unambiguous | zeroeq/http/jsoncpp/jsoncpp.cpp:385-464 | two phrases that stand at one place of a text and end there are equally long and have the same value |
| JsonAccepted.LastCommaExample | zeroeq/http/jsoncpp/jsoncpp.cpp:693 | `{"":null,}` is accepted |
| JsonAccepted.BracketForCommaExample | zeroeq/http/jsoncpp/jsoncpp.cpp:716-730 | `{"":null/**/]}` is accepted, with or without comments allowed |
| JsonFastWriter.FastWriter.Write | zeroeq/http/jsoncpp/jsoncpp.cpp:4416-4422 | the compact document is exactly the text of the value, with or without the line feed |
| JsonFastWriter.FastWriter.WriteValue | zeroeq/http/jsoncpp/jsoncpp.cpp:4424-4476 | appends exactly the text of the value to the document |
| JsonFastWriter.FastWriter.WriteArray | zeroeq/http/jsoncpp/jsoncpp.cpp:4451-4460 | appends all elements up to the highest index, null in the gaps |
| JsonFastWriter.FastTreeFaithful | zeroeq/http/jsoncpp/jsoncpp.cpp:4424-4476 | the compact text is a well-formed layout of the canonical form of the value: integers re-tagged, gaps filled, dropped nulls where allowed |
| JsonRoundTrip.FastRoundTrip | zeroeq/http/jsoncpp/jsoncpp.cpp:4416-4476 | for every value without doubles, every option and every feature: a value that is readable as printed (it is no dropped null, and none of its dropped nulls vanishes from the text of a reader that allows none) parses to its canonical form, unless it nests to the stack limit or is refused as a root; no other value parses |
| JsonDropped.GapRejected | zeroeq/http/jsoncpp/jsoncpp.cpp:439-455 | a reader that does not allow dropped nulls reads no layout with a null printed as nothing, at any depth |
| JsonDropped.FastGap | zeroeq/http/jsoncpp/jsoncpp.cpp:4424-4476 | the printed text has such a null exactly if nulls are dropped and one stands outside an array of its own |
| JsonRoundTrip.NullsVanish | zeroeq/http/jsoncpp/jsoncpp.cpp:4424-4476 | a value has a null at some depth exactly if one vanishes from the text or stands alone in its array |
| JsonRoundTrip.RoundTripExactly | zeroeq/http/jsoncpp/jsoncpp.cpp:4426-4429 | for every option and feature the round trip is exact if and only if no dropped null was the root, alone in its array or, where the reader does not allow dropped nulls, anywhere in the value, the value nests less than the stack limit, and a strict reader gets a container |
| JsonRoundTrip.DefaultReaderExample | zeroeq/http/jsoncpp/jsoncpp.cpp:4426-4429 | a reader with its default features refuses what a printer that drops nulls makes of `[null,true]` |
| JsonRoundTrip.DropLoses | zeroeq/http/jsoncpp/jsoncpp.cpp:4426-4429 | dropping nulls loses something exactly for values with an array `[null]` inside |
| JsonRoundTrip.DroppedRoot | zeroeq/http/jsoncpp/jsoncpp.cpp:4426-4429 | a dropped null root prints as a document that does not parse |
| JsonRoundTrip.CanonIdempotent | zeroeq/http/jsoncpp/jsoncpp.cpp:816-823 | canonical form is reached in one step |
| JsonRoundTrip.CanonPrintsAlike | zeroeq/http/jsoncpp/jsoncpp.cpp:4424-4476 | a value and its canonical form print the same bytes |
| JsonRoundTrip.PrintAgain | zeroeq/http/jsoncpp/jsoncpp.cpp:4416-4476 | whatever was parsed from a printed value prints the same document again |
| JsonDropped.CompactDocument | zeroeq/http/jsoncpp/jsoncpp.cpp:4416-4476 | a compact document is a layout of its canonical value without white space, but for a blank behind every colon if YAML compatibility is on and the line feed at the end if that is not omitted |
| JsonStyledWriter.StyledWriter.Write | zeroeq/http/jsoncpp/jsoncpp.cpp:4484-4493 | the indented document is exactly the specified one and the layout mode is off at the end |
| JsonStyledWriter.StyledWriter.WriteValue | zeroeq/http/jsoncpp/jsoncpp.cpp:4495-4552 | appends to the document, or while a line is measured to the list of texts: then only scalars and empty containers are rendered |
| JsonStyledWriter.StyledWriter.WriteArrayValue | zeroeq/http/jsoncpp/jsoncpp.cpp:4554-4595 | chooses between one line and several; on one line there is exactly one text for each element |
| JsonStyledWriter.StyledWriter.WriteLines | zeroeq/http/jsoncpp/jsoncpp.cpp:4560-4582 | printing the measured texts gives the same lines as rendering the elements again |
| JsonStyledWriter.StyledWriter.WriteSingleLine | zeroeq/http/jsoncpp/jsoncpp.cpp:4583-4593 | the line is the separated texts between brackets |
| JsonStyledWriter.StyledWriter.IsMultilineArray | zeroeq/http/jsoncpp/jsoncpp.cpp:4597-4622 | an array takes several lines exactly if the specification says so; when all is flat and short, the texts of all elements are at hand |
| JsonStyledWriter.StyledWriter.WriteIndent | zeroeq/http/jsoncpp/jsoncpp.cpp:4631-4640 | a new line and the indentation, nothing behind a blank, no second line feed |
| JsonLines.DocumentLines | zeroeq/http/jsoncpp/jsoncpp.cpp:4484-4650 | the indented document is a list of lines given by depth: three blanks for every open container, an element or a member or a closing bracket on a line of its own, " : " behind a name, a comma behind all elements but the last |
| JsonStyledRoundTrip.SingleLineLength | zeroeq/http/jsoncpp/jsoncpp.cpp:4606-4620 | the text of a single line has exactly `lineLength` characters, up to the 32 bits of the counter |
| JsonStyledRoundTrip.OneLine | zeroeq/http/jsoncpp/jsoncpp.cpp:4597-4622 | an array is printed on one line if and only if it has at most 24 elements, all of them scalars or empty containers, and the line has less than 74 characters |
| JsonStyledRoundTrip.StyledRoundTrip | zeroeq/http/jsoncpp/jsoncpp.cpp:4484-4552 | parsing an indented document gives the value with its names cut at the first NUL, unless it nests to the stack limit |
| JsonStyledRoundTrip.CutNamesLoses | zeroeq/http/jsoncpp/jsoncpp.cpp:4537 | cutting names changes a value if and only if a name contains a NUL |
| JsonStyledRoundTrip.PrintersAgree | zeroeq/http/jsoncpp/jsoncpp.cpp:4484-4552 | the indented and the compact document parse alike if and only if no name contains a NUL or both nest too deep |
| JsonSlices.ValueInPart | zeroeq/http/jsoncpp/jsoncpp.cpp:385-464 | what is read inside a part of a text is read from the part alone, at the same places, on fewer levels too |
| JsonSlices.SliceParses | zeroeq/http/jsoncpp/jsoncpp.cpp:849-858 | the range of text of a value, from its first token to the cursor behind it, parses as that value |
| JsonSlices.DocumentSlices | zeroeq/http/jsoncpp/jsoncpp.cpp:385-464 | after a successful parse without dropped nulls every value, at any depth, has such a range; it lies inside the range of the value around it, apart from its siblings and in order, and each container is made of exactly the values of the ranges inside it |
| JsonSlices.ElementsLocated | zeroeq/http/jsoncpp/jsoncpp.cpp:737-773 | the elements of an array are the values of its child ranges, in order |
| JsonSlices.MembersLocated | zeroeq/http/jsoncpp/jsoncpp.cpp:681-735 | the members of an object are the values of its child ranges, each stored under the key that was read in front of it |
| JsonSlices.LastMemberStays | zeroeq/http/jsoncpp/jsoncpp.cpp:712-716 | under a key the object has the value that was read last under it |
| HttpRouter.FirstPrefixIsLongest | zeroeq/http/server.cpp:367-373 | the first prefix hit of the descending map is the longest registered prefix of the path, and there is none if there is none |
| HttpRouter.RouteMeaning | zeroeq/http/server.cpp:367-394 | a request goes to the longest registered prefix if that is exact or ends in a slash, else to "/" if registered; endpoint and rest make up the path, and "/" sees all of it |
| HttpRouter.StripTaken | zeroeq/http/server.cpp:98-108 | stripping leaves nothing, or a slash-terminated endpoint, exactly if the endpoint takes the path |
| HttpRouter.TakesMeaning | zeroeq/http/server.cpp:372-385 | an endpoint takes its own path and, if it ends in a slash, all paths that go on behind that |
| HttpRouter.TakenUnlessBlocked | zeroeq/http/server.cpp:372-394 | the longest endpoint that takes a path serves it if and only if it is "/" or no longer prefix of the path is registered |
| HttpRouter.BlockedExample | zeroeq/http/server.cpp:372-394 | a registered longer prefix that takes nothing blocks a slash-terminated endpoint |
| HttpServer.StepValid | zeroeq/http/server.cpp:208-302 | every call of handle, handlePUT, handleGET and remove, also one that throws, keeps: schemas are nonempty and belong to a GET or PUT endpoint, "registry" is no endpoint |
| HttpServer.Follow | zeroeq/http/server.cpp:208-302 | so does every run of calls |
| HttpServer.SchemaStays | zeroeq/http/server.cpp:208-241 | a schema changes in no call but the one that removes it |
| HttpServer.SchemaStaysInRun | zeroeq/http/server.cpp:208-302 | nor in any run of such calls |
| HttpRuns.HandlerStep | zeroeq/http/server.cpp:224-302 | a call stores the handler that it offers exactly if the method has none for the endpoint, `remove(endpoint)` takes away all handlers of the endpoint and `remove(serializable)` those of PUT and GET, every other handler stays |
| HttpRuns.ResultMeaning | zeroeq/http/server.cpp:208-302 | a call is refused for "registry" and for an endpoint with a handler of the method; a schema that differs from the stored one throws |
| HttpRuns.SchemaStep | zeroeq/http/server.cpp:208-302 | a schema is stored with a handler that is stored unless the endpoint has one, taken away by both kinds of removal, and else left alone |
| HttpRuns.HandlerAfterRun | zeroeq/http/server.cpp:224-302 | behind any run the handler of an endpoint is the one that was offered first since the last removal |
| HttpAnswers.NamesMeaning | zeroeq/http/server.cpp:330-346 | a method is named for an endpoint exactly if it has a handler there |
| HttpAnswers.RegistryEntry | zeroeq/http/server.cpp:312-328 | the registry has an entry for exactly the endpoints with a handler: the names whose joined text is the allowed methods |
| HttpAnswers.RegistryReadsBack | zeroeq/http/server.cpp:312-328 | a client that parses the registry page gets exactly the registry if and only if no endpoint contains a NUL |
| HttpAnswers.ExactRoute | zeroeq/http/server.cpp:372-385 | the path of a registered endpoint goes to that endpoint, and to it alone |
| HttpAnswers.Refusal | zeroeq/http/server.cpp:396-406 | a 405 lists exactly the methods that have a handler for exactly this path, at least one and never the refused one (section 6.5.5 of RFC 7231); a 404 means there are none |
| HttpAnswers.RefusalNamesRoutes | zeroeq/http/server.cpp:367-406 | that list equals the methods that would be routed for the path if and only if no other method has "/" or, as its longest prefix of the path, a slash-terminated endpoint |
| HttpAnswers.SchemaServed | zeroeq/http/server.cpp:353-365 | GET of an endpoint and "/schema" returns the schema of the endpoint |
| HttpAnswers.SchemaServedInRun | zeroeq/http/server.cpp:353-365 | and goes on doing so until the endpoint is removed |
| HttpAnswers.PreflightHonest | zeroeq/http/server.cpp:409-447 | a preflight is accepted if and only if the announced request gets a schema or an endpoint with exactly this path, and lists the announced method |
| HttpAnswers.PreflightAgrees | zeroeq/http/server.cpp:348-433 | the preflight is accepted exactly when the server would serve the announced request if and only if there is a handler or a schema for exactly this path, or else it is not GET of the registry and neither "/" nor a slash-terminated longest prefix takes the path |
| HttpAnswers.RegistryPreflight | zeroeq/http/server.cpp:353-357 | whatever is registered, the registry page is served and a preflight for it is rejected |
| HttpReplies.AllowedNamesAre | zeroeq/http/server.cpp:330-346 | the allowed methods are those of GET, POST, PUT, PATCH, DELETE and OPTIONS with a handler for the endpoint, in this order |
| HttpReplies.JoinedMeaning | zeroeq/http/server.cpp:330-346 | their names are joined by a comma and a blank |
| HttpReplies.SchemaRequest | zeroeq/http/server.cpp:357-365 | a path asks for a schema if it ends in "schema"; the endpoint is what stands in front of the last slash, or the whole path without one |
| HttpReplies.ObjectReplies | zeroeq/http/server.cpp:263-302 | the handlers of objects answer 200 with the text as JSON, 200 or 400 to a write, and pass on what is thrown |
| HttpReplies.ReplyMeaning | zeroeq/http/server.cpp:348-406 | GET of the registry or of a schema gets it as JSON, every other request what the handler of its route says to the rest of the path, else 405 with the allowed methods or 404 |
| HttpReplies.ErrorReplies | zeroeq/http/server.cpp:677-693 | what is thrown becomes a 500 with its text |
| HttpReplies.MessageReplies | zeroeq/http/server.cpp:671-704 | a message that is no preflight is answered, and may be read from anywhere if it has an origin |
| HttpReplies.PreflightReplies | zeroeq/http/server.cpp:409-433 | a preflight is granted for a schema or an endpoint with a handler of the announced method, with GET or all methods of the endpoint, else refused |
| HttpService.Server.AddSchema | zeroeq/http/server.cpp:208-216 | the schema is stored, was there already, or differs from the one that stays |
| HttpService.Server.AddHandler | zeroeq/http/server.cpp:243-252 | the handler is stored unless the name is reserved or taken |
| HttpService.Server.HandlePut | zeroeq/http/server.cpp:263-278 | handler and schema are registered; the handler stays when the schema is refused |
| HttpService.Server.HandleGet | zeroeq/http/server.cpp:287-302 | the same for GET |
| HttpService.Server.RemoveSerializable | zeroeq/http/server.cpp:224-231 | schema and both handlers of the converted name are gone, nothing else; tells whether there was one |
| HttpService.Server.RemoveEndpoint | zeroeq/http/server.cpp:233-241 | schema and all handlers of the endpoint are gone, nothing else; tells whether there was one |
| HttpService.Server.GetAllowedMethods | zeroeq/http/server.cpp:330-346 | the joined names of the methods with a handler |
| HttpService.Server.GetRegistry | zeroeq/http/server.cpp:312-328 | the indented document of the registry object |
| HttpService.Server.RespondTo | zeroeq/http/server.cpp:348-407 | the reply and the rewritten request are those of the decision for method and path |
| HttpService.Server.ProcessPreflight | zeroeq/http/server.cpp:409-433 | the message is completed as the preflight answer says |
| HttpService.Server.Process | zeroeq/http/server.cpp:663-709 | every message is answered except a preflight with an empty path, which throws out of `process`; what a handler throws becomes an internal error; cross-origin requests get their header |
| HttpService.AnsweredUnlessEmptyPreflight | zeroeq/http/server.cpp:671-693 | a message is answered if and only if it is no preflight with an empty path |
| HttpService.PreflightThenRequest | zeroeq/http/server.cpp:671-704 | after an accepted preflight the announced request is answered by the schema or the handler of exactly its path, with the cross-origin header, and its method was listed |
| EndpointNames.ReplaceAll | zeroeq/http/server.cpp:60-70 | all matches are replaced from left to right, and no match is looked for in what was put in |
| EndpointNames.SegmentReplaced | zeroeq/http/server.cpp:60-76 | names are converted segment by segment, "/" for "::" |
| EndpointNames.CamelCaseToHyphenated | zeroeq/http/server.cpp:42-57 | lower case, with a hyphen in front of every capital behind a lower-case letter |
| EndpointNames.HyphenBetween | zeroeq/http/server.cpp:42-57 | parts of a name are converted one by one, with a hyphen between them exactly if a lower-case letter stands in front of an upper-case one |
| EndpointNames.OneCharacter | zeroeq/http/server.cpp:42-57 | a single character is put in lower case |
| EndpointNames.ConvertedIdempotent | zeroeq/http/server.cpp:73-76 | converting a converted name changes nothing; it has no capital and no "::" |
| RequestReply.Client.Request | zeroeq/client.cpp:72-93 | the id advances in any case; the frames go out up to the first one that the socket refuses; the handler is stored under the id exactly if all are taken |
| RequestReply.Client.Process | zeroeq/client.cpp:95-134 | one reply is received frame by frame, the handler of its id is called with it and forgotten; it stays when the call throws; a reply without handler is an error; nothing is called without a message |
| RequestReply.MessageArrives | zeroeq/client.cpp:95-113 | the frames of a reply are received as its id, identifier and payload, whatever waits behind them |
| Frames.NumberConcat | zeroeq/client.cpp:75-84 | in a number in a frame the bytes further behind count for more |
| RequestReply.Exchange | zeroeq/client.cpp:81-113 | the framing round trip: behind its envelope a request reaches the server as it was sent, and the reply behind the same envelope reaches the client as it was made, under the id of the request |
| RequestReply.FramesComplete | zeroeq/client.cpp:81-89 | a request is one whole message: only its last frame announces no other one |
| RequestReply.Server.Handle | zeroeq/server.cpp:42-49 | a handler is stored unless there is one |
| RequestReply.Server.Remove | zeroeq/server.cpp:51-54 | the handler is gone; tells whether there was one |
| RequestReply.Server.Process | zeroeq/server.cpp:56-106 | one request is received frame by frame, and when the socket takes all frames exactly one whole message of one or two frames is sent: the zero identifier alone without handler or when it throws, else the identifier, with the data behind it exactly if there are a pointer and a size; an identifier of the wrong size throws before anything is sent |
| RequestReply.RepliesWithAnswer | zeroeq/server.cpp:72-101 | these frames are the frames of the reply that the state machine uses |
| RequestReplySystem.StepKeeps | zeroeq/client.cpp:72-134 | every step of any client, server or the network keeps the invariant: each request is in one place, packets carry their own request or reply, clients wait for exactly their unanswered requests |
| RequestReplySystem.RunKeeps | zeroeq/client.cpp:72-134 | the invariant holds behind every run in which no client has used up its 2^64 ids |
| RequestReplySystem.ExampleRun | zeroeq/server.cpp:72-77 | there are such runs: a request without handler comes back as one call of its callback with the zero reply |
| RequestReplySystem.AtMostOnce | zeroeq/client.cpp:115-133 | a callback runs at most once; some step of the run sent its request, and a later step replied to exactly that request, with the handlers that the server had in that step, what the callback got |
| RequestReplySystem.RepliedOnce | zeroeq/server.cpp:56-106 | in a run a request is replied to in at most one step |
| RequestReplySystem.NothingVanishes | zeroeq/server.cpp:56-106 | no reply is unrequested; requests = on their way + at servers + replies on their way + callbacks run + lost |
| RequestReplySystem.PendingIsUnanswered | zeroeq/client.cpp:72-134 | pending handlers are exactly the accepted requests without those whose callback returned |
| RequestReplySystem.ReplyExpected | zeroeq/client.cpp:115-123 | a reply that reaches its client finds its callback |
| Receivers.Group.Add | zeroeq/receiver.cpp:28 | the receiver is appended |
| Receivers.Group.Remove | zeroeq/receiver.cpp:29-33 | all occurrences of the receiver are gone, the others stay in order |
| Receivers.Group.Collect | zeroeq/receiver.cpp:97-104 | all sockets in order, and the number that each receiver added |
| Receivers.Group.Walk | zeroeq/receiver.cpp:125-151 | the counting walk hands each ready socket once, in order, to the receiver that supplied it, up to the first call that throws, and never leaves the list of intervals or of receivers; what a call does may depend on all calls before it |
| Receivers.Group.Receive | zeroeq/receiver.cpp:85-158 | one poll in any case; each receiver gets its own ready sockets; it throws exactly if the poll fails or a receiver throws; data is reported exactly if a receiver took some |
| Receivers.SameCalls | zeroeq/receiver.cpp:134-151 | going through the sockets is going through the receivers, each with its own ready sockets |
| Receivers.OwnerInterval | zeroeq/receiver.cpp:126-141 | the owner of a socket is the receiver in whose interval its index lies |
| Receivers.RemovedMeaning | zeroeq/receiver.cpp:29-33 | a removed receiver is gone and the others keep their number |
| Receivers.RemovedInOrder | zeroeq/receiver.cpp:29-33 | what is left is read off the old group at increasing positions, exactly those that do not hold the receiver |
| Receivers.RemovedConcat | zeroeq/receiver.cpp:29-33 | removing goes through the group part by part |

## Left out

- OurReader, CharReaderBuilder, StyledStreamWriter, BuiltStyledStreamWriter, Path: near copies or options of what is modelled.
- Doubles: extraction is a parameter, printing and the order on NaN are not modelled; round trips are for values without doubles.
- JsonReader.Reader.ReadComment: comments are recognised as tokens; collecting and printing them is not modelled.
- The value stack of the reader holds values that are handed back to their parent when popped; that the source's stack points into the tree, and the memory management behind it, is not captured.
- JsonReader.Reader.ReadValue: the offsets that the reader stores in a value are not fields of the model; `JsonSlices` computes them from the text.
- JsonReader.Reader.ReadObject: the same for the offsets of an object and of its members.
- JsonReader.Reader.DecodeNumberToken: the same for the offsets of a number.
- `Reader::parse` on a `std::string`, which looks at the capacity instead of the length; the overload on a range is modelled.
- Error message texts, line and column numbers: a message is a constructor, a place is a position.
- Value operations beyond construction, look-up, append, size and comparison: resize, removeIndex, iterators, conversions.
- JsonFastWriter.FastWriter.Write: for values without doubles, with strings and keys that the source can hold and array sizes below 2^31 (JsonValue.Representable); an `ArrayIndex` that wraps in larger arrays is modelled only in the line length of the indented printer.
- JsonFastWriter.FastWriter.WriteValue: for the same values.
- JsonFastWriter.FastWriter.WriteArray: for the same values.
- JsonRoundTrip.FastRoundTrip: for the same values.
- JsonRoundTrip.RoundTripExactly: for the same values.
- JsonRoundTrip.PrintAgain: for the same values.
- JsonStyledWriter.StyledWriter.Write: for the same values, and without comments on them.
- JsonStyledWriter.StyledWriter.WriteValue: the same.
- JsonStyledWriter.StyledWriter.WriteArrayValue: the same.
- JsonStyledWriter.StyledWriter.WriteLines: the same.
- JsonStyledWriter.StyledWriter.IsMultilineArray: the same.
- JsonReader.Reader.ReadArray: the same for its offsets; the index of an element is unbounded; the source's `int` would overflow at 2^31 elements.
- JsonSlices.DocumentSlices: the ranges are computed from the text by the same reads that store them in the source; they are not read back from a value.
- HttpService.Server.GetRegistry: requires endpoint names shorter than 2^30, beyond which the JSON engine cuts keys.
- HttpService.Server.RespondTo: the same.
- HttpService.Server.Process: the same.
- HttpAnswers.RegistryReadsBack: the same.
- The convenience overloads of `handle`, `handlePUT` and `handleGET` that only forward, the registration of schemas from a serializable object, URIs, threads, futures and the HTTP library.
- The retry loop of the client's `_send`, and byte swapping: numbers in frames have their lowest byte first.
- RequestReplySystem.StepKeeps: in the state machine a message is sent or received as a whole; a send that fails sends nothing.
- Callbacks that call `request` again, handlers that change the handlers of their own server while they run.
- RequestReplySystem.RunKeeps: holds while no client has made 2^64 calls; behind that ids repeat.
- The timing loops `receive` and `_blockingReceive`, connections that appear or vanish, `update`, Monitor, Broker, Publisher and Subscriber.
