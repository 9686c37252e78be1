# Oat++ in Dafny: coroutine runtime and JSON text layer

This project models two parts of Oat++ and proves what they promise.

**The coroutine runtime.** `takeAction` is a method over the frames of a handle, proved against a function; what is
proved about that function are the order of pipelines, the unwinding of errors, the accounting of objects, and which function
of a coroutine is called next. The asynchronous lock, the condition variable and the processor are state machines: every mutex section, atomic access and
wait-list operation is one step, the parties take steps in any order, and the results hold after every run. The loops of
the processor's own thread are methods that are proved to be runs of its state machine. The intrusive queue is a heap
class, and the traversal of the timer worker cuts entries out of it while it walks. The resource pool is a class whose
mutex sections are proved against the operations of an account.

For the protocols there is progress beside safety. From every reachable state some run lets every party that has asked for
the lock hold it (`LockProgress.EveryoneCanGetLock`), ends every wait on a condition that was announced
(`ConditionProgress.WaiterCanFinish`), and brings every live handle back to the run queue wherever it is
(`ProcessorProgress.EveryoneCanRun`). What a caller of the pool is answered is stated by the history of the pool
(`PoolHistory.AnswersExactly`).

**The JSON text layer and its byte machinery.** Escaping and unescaping, the tree serializer and the deserializer, the
beautifier, the fast literal reader, the skipping of unknown values, the word-wise string classifier, CRC-32 and the ring
buffer. Loops and buffers are methods over arrays, caret and stream objects; each is proved against a function of its
input, and the round trips and refinements are lemmas about those functions.

A text is tied to its tree by documents. `JsonDocument` defines what a document is, how its text is made of blanks, brackets,
numbers and literals, and what it means, without reference to the printer or the parser. Two grammars pick out documents:
`Valid` is RFC 8259, sections 2 to 7 (for the inside of a string, `StringGrammar.Legal` is its section 7), and `Loose` is the
wider one that the deserializer reads. Only the meaning of an escape is that of `Unescape`; bytes above 0x7F stand for
themselves, so that the well-formedness of UTF-8 is a separate matter (RFC 3629, section 4).

- The accepted language is described exactly. `Reading` says when a document stands at a place in a text, and finds it;
  `ReadingProof` shows that what is found stands there and that nothing else does. `DeserializerProof.AcceptedExactly`: the
  deserializer parses a value to a tree and a position if and only if a document of the wider grammar stands there that it
  can read, denotes that tree and ends at that position.
- A JSON text is consumed whole if and only if every escape of a high surrogate in it has the digits of a low one two bytes
  on (`JsonTexts.ReadDocument`); and an accepted text is JSON if and only if the document found in it is tidy
  (`JsonTexts.JsonExactly`).
- `TreeDocument`, `TreeRoundTrip` and `BeautifiedText` show that what the serializer writes, compact or through the
  beautifier, is a JSON document that denotes the tree. The beautifier keeps the meaning of any JSON text it is given
  (`BeautifiedText.BeautifierKeepsMeaning`).
- The tree of an object is the one map that assigning its entries in order makes: each key once, in the order of first
  occurrence, with its last value (`ObjectMeaning.ObjectIsMap`).
- The fast skipper of unknown values ends where the deserializer does, but for a number that is not ended
  (`FastSkip.SkipsWhatIsRead`).

Bytes are integers from 0 to 255. Code points and hexadecimal values are integers with their widths as subset types, and
shifts and masks are written as quotients, remainders and sums; lemmas over bit-vectors in `Unicode` connect the two
forms. The word-wise classifier works on 64-bit vectors. A word of the CRC is the sequence of its 32 bits, bit 0 first.
The byte order in words is little-endian.

## Files

| files | source |
|---|---|
| `Bytes`, `Sequences`, `Unicode`, `Hex` | character classes, src/oatpp/encoding |
| `SimpleString`, `Escape`, `Unescape`, `EscapeRoundTrip`, `EscapeAscii`, `EscapeLegal`, `EscapeTable`, `EscapeErrors`, `StringGrammar`, `Alphabet` | src/oatpp/json/Utils.cpp |
| `Literals`, `FastStrings`, `FastSkip` | src/oatpp/json/FastSerializer.cpp, src/oatpp/json/FastDeserializer.cpp, `preparseString` |
| `Beautifier`, `Stream` | src/oatpp/json/Beautifier.cpp |
| `JsonDocument`, `DeserializerSpec`, `Reading`, `ReadingProof`, `DeserializerProof`, `JsonTexts`, `ObjectMeaning`, `Deserializer` | src/oatpp/json/Deserializer.cpp |
| `Serializer`, `TreeDocument`, `TreeRoundTrip`, `BeautifiedText`, `JsonRoundTrip`, `SkippedNulls`, `RefusedNulls` | src/oatpp/json/Serializer.cpp |
| `Crc32`, `Fifo` | src/oatpp/utils/CRC32.cpp, src/oatpp/data/buffer/FIFOBuffer.cpp |
| `FastQueue`, `TimerWorker` | src/oatpp/async/utils/FastQueue.hpp, src/oatpp/async/worker/TimerWorker.cpp |
| `Coroutine`, `CoroutineProof`, `CoroutineCalls`, `CoroutineStarter` | src/oatpp/async/Coroutine.cpp |
| `Lock`, `LockProgress`, `ConditionVariable`, `ConditionProgress`, `Processor`, `ProcessorRoutes`, `ProcessorProgress`, `ProcessorLoop` | the files of the same names in src/oatpp/async |
| `Pool`, `PoolHistory` | src/oatpp/provider/Pool.hpp |

## Where the code differs from what one might expect

- `escapeString` with FLAG_ESCAPE_UTF8CHAR: the shortcut for strings without special bytes does not look at the flag, and
  stray bytes are copied. Where a shortcut returns the input, the output is pure ASCII exactly if the input is; otherwise
  exactly if no unit of the input is a stray byte (`EscapeAscii.AsciiExactly`).
- `escapeString` looks only at the lead byte of a sequence and copies the other bytes it claims: the bytes 0xC3 and `"`
  come out as they are, with the quote bare, and a literal made of them ends there (`EscapeLegal.SwallowedQuote`). If no
  claimed byte is a control, a quote or a backslash, the output is legal by section 7, and it reads back as the input exactly
  if no sequence is cut off at the end or the shortcut is taken (`EscapeLegal.BytesRoundTrip`, without
  FLAG_ESCAPE_UTF8CHAR).
- `_FP` is not restored when an error unwinds: a coroutine that takes the error of one it started is called next at the
  function at which the failed one was (`CoroutineCalls.CalledNext`, `CoroutineCalls.NotRestored`).
- `CoroutineStarter::next(starter)` with an empty argument forgets its own coroutines; joining is associative exactly
  when no empty starter stands between two others (`CoroutineStarters.NextAssociative`).
- Continuing a CRC from a prefix's result is right for all messages exactly if `initValue == xorOut`
  (`Crc32.ContinuesExactly`).
- Skipping an unknown value: a number is left exactly one past its end only if a blank, a structural character or the end
  follows; every other value is, whatever follows (`FastSkip.UnknownValueSkipped`). An object or array that is not closed
  is skipped to the end; what is refused is stated exactly for all texts (`FastSkip.RefusedExactly`).
- `FIFOBuffer` stream transfers ignore `count` when the read or write position is at the end of the buffer
  (`Fifo.OfferedWithinCount`, `Fifo.RoomWithinCount`).
- The text does not tell an unsigned 64-bit node below 2^63 from a signed one (`JsonRoundTrip.ParseGivesBackTheTree`).
- With `includeNullElements = false` a leading null still leaves its separator behind: `[null, true]` prints `[,true]`. The
  text, compact or beautified, reads back as the tree without its nulls exactly if no container starts with a null that is
  followed by something else (`JsonRoundTrip.SkippedNullLeavesComma`, `RefusedNulls.ReadableExactly`).
- The deserializer reads more than JSON. A comma between elements may be missing, one may stand right before the closing
  bracket, a number may start with zeros (`007`) or have digits on one side of its point only (`1.`, `-.5`), a form feed is a
  blank, and literals may hold bare control bytes and the form `\u+`. `[1 2,]` is an array of two numbers. The document that
  was found tells exactly whether the text was JSON (`JsonTexts.JsonExactly`, `JsonTexts.CommasOptional`).
- The deserializer reads less than JSON. An escape of a high surrogate that is not answered, as in `"\ud800"`, is legal in
  section 7 and is refused; `StringGrammar.LegalAccepted` is the exact condition. The fast skipper steps over it.
- The two bytes between the halves of a `\u` surrogate pair are not looked at (`EscapeRoundTrip.SeparatorIgnored`). So
  `\uD800xyDC00` is legal, with x and y as characters of their own, and is read as one character
  (`StringGrammar.OddPair`). Exactly when an accepted text is legal, and when all its surrogates are in pairs, is
  `StringGrammar.AcceptedLegal` and `StringGrammar.AcceptedPaired`.
- `FIFOBuffer` refuses to read or write by its flag and positions. That is refusing exactly when it is empty or full, but for
  one state each, which stream transfers lead to: there reading or writing moves no bytes instead
  (`Fifo.RefusesRead`, `Fifo.RefusesWrite`, `Fifo.EmptyNotRefused`, `Fifo.FullNotRefused`).
- Every error that reaches the pool's handlers counts down, whether a provider call is in flight or not
  (`ResourcePool.Pool.ProviderFailed`).
- The round robin over workers skips one when the 32-bit balancer wraps around, unless the number of workers divides 2^32
  (`ProcessorProtocol.RoundRobin`).
- The branch of `unescapeString` that copies its input (src/oatpp/json/Utils.cpp:816) and the loop of `cleanupTask` that
  invalidates pooled resources after a stop (src/oatpp/provider/Pool.hpp:190-196) have nothing to do in any run
  (`Unescape.UnescapeString`, `ResourcePool.Pool.FinalCleanup`).

## Model

| member | source | states |
|---|---|---|
| `Hex.ReadDigits` | src/oatpp/encoding/Hex.cpp:53-85 | reading succeeds exactly if every byte is a hexadecimal digit, and then gives the number the digits denote |
| `Hex.ReadEightAt` | src/oatpp/encoding/Hex.cpp:70-85 | eight digits are the two values of four put together |
| `Hex.Text16RoundTrip` | src/oatpp/encoding/Hex.cpp:40-68 | reading four written digits gives the number back, for every 16-bit number |
| `JsonAlphabet.Classes` | src/oatpp/json/Utils.cpp:51-77 | the character classes, as characters: digits, hexadecimal digits, blanks, structure, and the letters of two-character escapes |
| `JsonAlphabet.DigitValues` | src/oatpp/encoding/Hex.cpp:37-68 | a hexadecimal digit of either alphabet has the value of its place, and is the one written for that value |
| `JsonAlphabet.HexNumbers` | src/oatpp/encoding/Hex.cpp:53-85 | digit strings of escapes are hexadecimal numbers |
| `Unicode.EncodeUtf8Char` | src/oatpp/encoding/Unicode.cpp:77-116 | on every byte: the loops and the four-byte load compute the code point and the length by the bits the tests look at, for stray bytes too, or -1 |
| `Unicode.DecodeUtf8Char` | src/oatpp/encoding/Unicode.cpp:118-151 | writes the bytes of the code point at its place in the buffer and nothing else |
| `Unicode.SurrogateRoundTrip` | src/oatpp/encoding/Unicode.cpp:153-161 | a code point beyond the basic plane splits into a high and a low surrogate and comes back from them |
| `Unicode.CharRoundTrip` | src/oatpp/encoding/Unicode.cpp:35-151 | for every well-formed character: the length by the lead byte is right, the code is a scalar value, and writing it gives the same bytes |
| `Unicode.LeadByteForms` | src/oatpp/encoding/Unicode.cpp:35-103 | the or-and-compare tests of the lead byte, there and in encodeUtf8Char, are the thresholds of the model |
| `Unicode.CodeForms` | src/oatpp/encoding/Unicode.cpp:77-116 | shifting and or-ing the parts of a code of two or three bytes is adding multiples |
| `Unicode.FourByteCodeForm` | src/oatpp/encoding/Unicode.cpp:77-116 | the same for four bytes |
| `Unicode.FiveByteCodeForm` | src/oatpp/encoding/Unicode.cpp:77-116 | the same for five bytes |
| `Unicode.SixByteCodeForm` | src/oatpp/encoding/Unicode.cpp:77-116 | the same for six bytes |
| `Unicode.WordForms` | src/oatpp/encoding/Unicode.cpp:88-94 | the bytes of the loaded word are its quotients and remainders |
| `Unicode.ByteForms` | src/oatpp/encoding/Unicode.cpp:118-157 | masking and marking the parts of a code, of up to six bytes, is taking remainders and adding |
| `SimpleString.HasEscapeBytesInWord` | src/oatpp/json/Utils.cpp:86-96 | the word-wise test hits exactly if one of the eight bytes is a control, a quote or a backslash |
| `SimpleString.IsSimpleString` | src/oatpp/json/Utils.cpp:98-122 | true exactly when no byte is a control, a quote or a backslash |
| `Escape.CalcEscapedStringSize` | src/oatpp/json/Utils.cpp:441-504 | the computed size is the length of the escaped text, and the safe size is where a cut-off sequence starts |
| `Escape.EscapeUtf8Char` | src/oatpp/json/Utils.cpp:613-639 | writes one `\u` escape, a surrogate pair, or the `\u+` form |
| `Escape.WritePiece` | src/oatpp/json/Utils.cpp:645-744 | one unit of the writing loop: its text at the write position, nothing before it touched |
| `Escape.WriteEscaped` | src/oatpp/json/Utils.cpp:662-744 | the writing pass fills the buffer of the computed size with exactly the escaped text, question marks for a cut-off sequence included |
| `Escape.EscapeString` | src/oatpp/json/Utils.cpp:645-744 | the result with its two shortcuts |
| `EscapeAscii.AsciiExactly` | src/oatpp/json/Utils.cpp:645-744 | with FLAG_ESCAPE_UTF8CHAR, for every byte string: where a shortcut returns the input the output is ASCII exactly if the input is, otherwise exactly if no unit of the input is a stray byte |
| `EscapeTable.EscapeWritesByTable` | src/oatpp/json/Utils.cpp:645-744 | without FLAG_ESCAPE_UTF8CHAR every byte of a well-formed string is written by the table of section 7: two-character escapes, the solidus only on request, `\u00` and two digits for other controls, all else as it is |
| `EscapeAscii.AsciiWellFormed` | src/oatpp/json/Utils.cpp:645-744 | for a well-formed string the output is ASCII exactly if the shortcut is not taken or the input is ASCII |
| `EscapeAscii.FlagIgnored` | src/oatpp/json/Utils.cpp:645-652 | a two-byte string that comes out unescaped although the flag is set |
| `EscapeAscii.OutputClean` | src/oatpp/json/Utils.cpp:645-744 | the escaped form of a well-formed string has no control character, and with FLAG_ESCAPE_SOLIDUS every solidus is escaped |
| `EscapeLegal.EscapedBody` | src/oatpp/json/Utils.cpp:645-744 | the escaped form of a well-formed string is the inside of a literal by section 7 |
| `EscapeLegal.BytesRoundTrip` | src/oatpp/json/Utils.cpp:441-823 | without FLAG_ESCAPE_UTF8CHAR, for every byte string in which no byte claimed by a lead byte is a control, a quote or a backslash: the output is legal by section 7, and unescaping gives the input back if and only if no sequence is cut off at the end or the shortcut is taken |
| `EscapeLegal.SwallowedQuote` | src/oatpp/json/Utils.cpp:645-744 | a claimed quote comes out bare: the output is not legal, and the written literal closes at it |
| `Unescape.CalcUnescapedStringSize` | src/oatpp/json/Utils.cpp:506-599 | the sizing pass gives the length of the unescaped text, or the first error and its position |
| `Unescape.UnescapeStringToBuffer` | src/oatpp/json/Utils.cpp:746-801 | two-pass agreement: on everything the sizing pass accepts, the writing pass reads only inside the input and fills a buffer of the computed size exactly with the unescaped text |
| `Unescape.UnescapeString` | src/oatpp/json/Utils.cpp:803-823 | the whole operation: the meaning of the text, or the error of the sizing pass |
| `Unescape.EscapesShrink` | src/oatpp/json/Utils.cpp:506-599 | unescaping never lengthens a text and shortens it exactly if it has a backslash |
| `JsonAlphabet.LetterMeanings` | src/oatpp/json/Utils.cpp:746-801 | each letter of a two-character escape is unescaped to the character it stands for in section 7 |
| `JsonAlphabet.SurrogateRanges` | src/oatpp/json/Utils.cpp:560-580 | the codes taken for halves of pairs are just those that code points beyond the basic plane are split into |
| `EscapeErrors.RefusedExactly` | src/oatpp/json/Utils.cpp:506-599 | a text is refused with an error at a place if and only if that is what is wrong with its first wrong escape: everything before it is unescaped |
| `EscapeErrors.PlusForm` | src/oatpp/json/Utils.cpp:534-548 | `\u+` and eight digits stand for the character of that code |
| `EscapeRoundTrip.RoundTrip` | src/oatpp/json/Utils.cpp:441-823 | for every well-formed UTF-8 string and all flags, unescaping the escaped string succeeds and gives it back |
| `EscapeRoundTrip.SeparatorIgnored` | src/oatpp/json/Utils.cpp:506-599 | a surrogate pair is read whatever two bytes stand between its halves |
| `StringGrammar.LegalAccepted` | src/oatpp/json/Utils.cpp:506-599 | a text legal by section 7 is accepted if and only if every escape of a high surrogate has the digits of a low one two bytes on |
| `StringGrammar.AcceptedLegal` | src/oatpp/json/Utils.cpp:506-599 | an accepted closed text is legal if and only if it has no bare control byte, no `\u+`, and between the halves of a pair only what may stand there |
| `StringGrammar.AcceptedPaired` | src/oatpp/json/Utils.cpp:506-599 | it is legal with all its surrogates in pairs if and only if it has no bare control byte, no `\u+`, and `\u` between the halves of every pair |
| `StringGrammar.PairedIsAnswered` | src/oatpp/json/Utils.cpp:506-599 | text with all its surrogates in pairs meets the condition for acceptance |
| `StringGrammar.OddPair` | src/oatpp/json/Utils.cpp:560-580 | a text that is legal and accepted although its surrogates are not in a pair |
| `StringGrammar.LoneHigh` | src/oatpp/json/Utils.cpp:560-580 | a legal text that is refused |
| `Literals.PreparseString` | src/oatpp/json/Utils.cpp:842-870 | the forward scan finds the closing quote or reports that there is none |
| `Literals.FindStringRange` | src/oatpp/json/FastDeserializer.cpp:242-260 | on every buffer, looking back from each quote finds the same closing quote as the forward scan, or both fail |
| `Literals.ForwardMeetsParity` | src/oatpp/json/FastDeserializer.cpp:242-260 | the forward scan stops at the first quote after an even number of backslashes |
| `Literals.ClosingQuoteEndsBody` | src/oatpp/json/Utils.cpp:842-870 | what comes before the closing quote is a literal's inside with complete escapes |
| `FastStrings.SerializeJsonString` | src/oatpp/json/FastSerializer.cpp:51-109 | writes the quoted literal, by the fast path or segment by segment |
| `FastStrings.ParseStringFromRange` | src/oatpp/json/FastDeserializer.cpp:263-273 | gives the meaning of the range, with or without a backslash in it |
| `FastStrings.LiteralRoundTrip` | src/oatpp/json/FastSerializer.cpp:51-109 | for every byte string, in any surrounding text: the written literal's closing quote is found and its content reads back as the original bytes |
| `EscapeTable.FastWritesByTable` | src/oatpp/json/FastSerializer.cpp:51-109 | the same table, with lower-case digits, for every byte string |
| `FastSkip.SkipByDepth` | src/oatpp/json/FastDeserializer.cpp:508-563 | the depth-counting loop over one bracket kind computes the skip function |
| `FastSkip.DeserializeValueCursor` | src/oatpp/json/FastDeserializer.cpp:482-568 | dispatch for an unknown value |
| `FastSkip.DeserializePrimitiveValueCursor` | src/oatpp/json/FastDeserializer.cpp:304-400 | the cursor after an unknown primitive, or a refusal, also at the end of the input |
| `FastSkip.LiteralEnd` | src/oatpp/json/FastDeserializer.cpp:514-524 | counting backslashes back to the start of the buffer ends a string where counting to the start of the string does |
| `FastSkip.SkipDoc` | src/oatpp/json/FastDeserializer.cpp:508-563 | a whole value inside brackets, whatever escapes its strings hold, leaves the counted depth as it was, although only one bracket kind is counted |
| `FastSkip.UnknownValueSkipped` | src/oatpp/json/FastDeserializer.cpp:482-568 | for every value of the wider grammar, and so for every JSON value, followed by any bytes the cursor ends exactly one past it, if and only if it is not a number or the number is ended |
| `FastSkip.SkipsWhatIsFound` | src/oatpp/json/FastDeserializer.cpp:482-568 | wherever the deserializer finds a document, the skipper ends one past it, if and only if it is not a number or the number is ended |
| `FastSkip.SkipsWhatIsRead` | src/oatpp/json/FastDeserializer.cpp:482-568 | where the deserializer parses a value, the skipper ends at the same position, on the same condition |
| `FastSkip.RefusedExactly` | src/oatpp/json/FastDeserializer.cpp:304-400 | of all texts, refused are just the empty one, a string that no quote ends, and a character that starts no value |
| `JsonBeautifier.Beautifier.WriteIndent` | src/oatpp/json/Beautifier.cpp:41-46 | newline and as many indents as the level |
| `JsonBeautifier.IndentCopies` | src/oatpp/json/Beautifier.cpp:41-46 | a level of n is n copies of the indent, each in its place, and none for a level that is not positive |
| `JsonBeautifier.Beautifier.FeedByte` | src/oatpp/json/Beautifier.cpp:54-145 | one byte: new state and text written |
| `JsonBeautifier.Beautifier.Write` | src/oatpp/json/Beautifier.cpp:48-150 | a chunk is a run of the state machine from the stored state |
| `JsonBeautifier.SplitIndependent` | src/oatpp/json/Beautifier.cpp:48-150 | the output does not depend on how the input is split over writes |
| `JsonBeautifier.StripRun` | src/oatpp/json/Beautifier.cpp:48-150 | for blank indent and newline the output is the input apart from blanks outside strings, and ends in the same place of the text |
| `Deserializer.Caret.SkipBlankChars` | src/oatpp/utils/parser/Caret.cpp:218-228 | stops at the first byte that is not blank |
| `Deserializer.Caret.SkipText` | src/oatpp/utils/parser/Caret.cpp:401-423 | moves past a text exactly if it stands at the caret |
| `Deserializer.Caret.FindDecimalSeparator` | src/oatpp/json/Utils.cpp:932-947 | tells whether a separator comes before the number ends and puts the caret back |
| `Deserializer.Caret.ParseNumber` | src/oatpp/json/Deserializer.cpp:42-58 | integer, unsigned or floating node by sign, size and separator |
| `Deserializer.Caret.ParseString` | src/oatpp/json/Utils.cpp:872-903 | the literal at the caret, or an error inside the text |
| `Deserializer.Deserialize` | src/oatpp/json/Deserializer.cpp:179-219 | the recursive parser computes the value function: tree and end position, or which kind of error |
| `Deserializer.DeserializeArray` | src/oatpp/json/Deserializer.cpp:74-121 | the array loop, with its optional commas |
| `Deserializer.DeserializeMap` | src/oatpp/json/Deserializer.cpp:123-177 | the map loop; a repeated key keeps its place and gets the new value |
| `ReadingProof.NumberSound` | src/oatpp/json/Deserializer.cpp:42-58 | the number that is found stands there as one lexeme that what follows does not make longer |
| `ReadingProof.NumberOnly` | src/oatpp/json/Deserializer.cpp:42-58 | a number of the wider grammar that stands there and does not go on is the one that is found |
| `ReadingProof.DocSound` | src/oatpp/json/Deserializer.cpp:34-219 | the document that is found is one of the wider grammar and stands where it was found |
| `ReadingProof.DocOnly` | src/oatpp/json/Deserializer.cpp:34-219 | a document of the wider grammar that stands in a text is the one that is found: the grammar is unambiguous |
| `DeserializerProof.ValueMeans` | src/oatpp/json/Deserializer.cpp:34-219 | the deserializer gives the tree and the end of the document found if all its escapes can be read, and refuses otherwise |
| `DeserializerProof.AcceptedExactly` | src/oatpp/json/Deserializer.cpp:34-219 | a value is parsed to a tree and a position if and only if a readable document of the wider grammar stands there that denotes the tree and ends there |
| `ObjectMeaning.ObjectIsMap` | src/oatpp/json/Deserializer.cpp:123-177 | a sequence of pairs is the tree of an object if and only if it has each key once, in the order of first occurrence, with the value of the last entry of that key |
| `ObjectMeaning.ReadsObject` | src/oatpp/json/Deserializer.cpp:123-177 | so it is for every object the deserializer reads |
| `DeserializerProof.ReportedByCaret` | src/oatpp/json/Deserializer.cpp:74-219 | a refusal is reported by the caret alone exactly if the text itself is a string or a number; otherwise it is on the error stack |
| `JsonAlphabet.DecimalNumbers` | src/oatpp/json/Deserializer.cpp:42-58 | digit strings of numbers are decimal numbers |
| `JsonAlphabet.IntegerIsNearest` | src/oatpp/json/Deserializer.cpp:42-58 | an integer literal becomes the nearest 64-bit number, signed if that is possible |
| `JsonTexts.ValidIsLoose` | src/oatpp/json/Deserializer.cpp:34-219 | every document of RFC 8259 is one of the wider grammar |
| `JsonTexts.ReadValue` | src/oatpp/json/Deserializer.cpp:34-219 | every JSON document standing at the caret (a number if it is delimited) is read to its end with the tree it denotes if its high surrogates are answered, and refused otherwise |
| `JsonTexts.ReadDocument` | src/oatpp/json/Deserializer.cpp:179-219 | every JSON document between blanks is consumed whole if and only if every escape of a high surrogate in it has the digits of a low one two bytes on |
| `JsonTexts.TidyIsValid` | src/oatpp/json/Deserializer.cpp:34-219 | of the documents the deserializer reads, those of RFC 8259 are the tidy ones: commas, digits around a point, no leading zeros, no form feed, legal literals |
| `JsonTexts.JsonExactly` | src/oatpp/json/Deserializer.cpp:34-219 | a text in which a value is parsed is JSON if and only if the document found in it is tidy and only JSON blanks surround it |
| `JsonTexts.CommasOptional` | src/oatpp/json/Deserializer.cpp:83-108 | one such text that is not JSON: an array with a missing and a trailing comma is read |
| `Serializer.Serialize` | src/oatpp/json/Serializer.cpp:165-204 | prints the tree's text, or refuses exactly the trees with an undefined node |
| `Serializer.RefusedExactly` | src/oatpp/json/Serializer.cpp:164-225 | a tree is refused exactly if some path in it leads to an undefined node |
| `Serializer.SerializeArray` | src/oatpp/json/Serializer.cpp:49-83 | the loop writes the items with separators by index |
| `Serializer.SerializeMap` | src/oatpp/json/Serializer.cpp:85-123 | the loop writes the entries with separators by index |
| `Serializer.SerializeToStream` | src/oatpp/json/Serializer.cpp:206-223 | what reaches the stream is the text, or the beautifier's output for it however it was split into writes |
| `TreeRoundTrip.DocMeaning` | src/oatpp/json/Serializer.cpp:33-204 | the documents for a tree, compact or indented, are JSON, can be read, and denote it |
| `TreeRoundTrip.CompactText` | src/oatpp/json/Serializer.cpp:33-204 | the printed text is the compact document |
| `BeautifiedText.DocRun` | src/oatpp/json/Beautifier.cpp:48-150 | from any level, the beautifier turns the text of any document of the wider grammar into that of the indented document |
| `BeautifiedText.PrettyMeaning` | src/oatpp/json/Beautifier.cpp:48-150 | the indented document is of the same grammar, RFC 8259 included, with the same literals and the same meaning |
| `BeautifiedText.BeautifierKeepsMeaning` | src/oatpp/json/Beautifier.cpp:48-150 | the beautifier turns every JSON text into a JSON text, and the deserializer reads the same tree out of both or refuses both |
| `BeautifiedText.PrettyRun` | src/oatpp/json/Beautifier.cpp:48-150 | the beautifier turns the printed text of a tree into its indented document, from any level |
| `JsonRoundTrip.PrintsJson` | src/oatpp/json/Serializer.cpp:33-225 | what reaches the stream is a JSON text of RFC 8259, compact and beautified |
| `JsonRoundTrip.ParseUndoesPrint` | src/oatpp/json/Serializer.cpp:33-225 | for every tree of null, bool, integer, floating-point text with a fraction or an exponent, well-formed string, vector and map, compact and beautified: parsing consumes exactly the text and gives the tree |
| `JsonRoundTrip.ParseGivesBackTheTree` | src/oatpp/json/Deserializer.cpp:42-58 | the tree itself comes back if and only if no unsigned node fits a signed one |
| `JsonRoundTrip.SkippedNullLeavesComma` | src/oatpp/json/Serializer.cpp:60-79 | a text without null elements that cannot be read back |
| `SkippedNulls.PrintsLikeDropped` | src/oatpp/json/Serializer.cpp:49-123 | where no container starts with a null followed by something else, the text without nulls is that of the tree without nulls |
| `RefusedNulls.BadRefused` | src/oatpp/json/Deserializer.cpp:74-177 | elsewhere the text, compact or beautified, is refused wherever it stands |
| `RefusedNulls.ReadableExactly` | src/oatpp/json/Serializer.cpp:49-123 | without null elements, the text, compact or beautified, reads back as the tree without nulls if and only if no container starts with a null followed by something else |
| `Crc32.BitReverse` | src/oatpp/utils/CRC32.cpp:31-39 | the coefficients in the opposite order |
| `Crc32.GenerateTable` | src/oatpp/utils/CRC32.cpp:41-63 | entry k is what eight shift steps of the reversed polynomial make of k |
| `Crc32.StepsXor` | src/oatpp/utils/CRC32.cpp:41-63 | the shift steps are linear under xor |
| `Crc32.OneByte` | src/oatpp/utils/CRC32.cpp:65-75 | one table look-up is eight message bits of division |
| `Crc32.Calc` | src/oatpp/utils/CRC32.cpp:65-75 | for every message and polynomial the table-driven value is that of reflected division, bit at a time |
| `Crc32.CrcIsRemainder` | src/oatpp/utils/CRC32.cpp:65-75 | with zero initial and final values it is the remainder of the message followed by 32 zeros in long division by the polynomial |
| `Crc32.ContinuesExactly` | src/oatpp/utils/CRC32.cpp:65-75 | continuing from a prefix's result is right for all messages if and only if the initial and final values are equal |
| `Fifo.FIFOBuffer.AvailableToRead` | src/oatpp/data/buffer/FIFOBuffer.cpp:46-54 | the length of the queue |
| `Fifo.FIFOBuffer.AvailableToWrite` | src/oatpp/data/buffer/FIFOBuffer.cpp:56-64 | the capacity less the length of the queue |
| `Fifo.FIFOBuffer.Read` | src/oatpp/data/buffer/FIFOBuffer.cpp:70-117 | hands over the min(count, available) oldest bytes and removes them, or refuses, exactly when empty but for one state |
| `Fifo.FIFOBuffer.Peek` | src/oatpp/data/buffer/FIFOBuffer.cpp:119-157 | hands over what read would, and leaves the queue |
| `Fifo.FIFOBuffer.CommitReadOffset` | src/oatpp/data/buffer/FIFOBuffer.cpp:159-202 | same result, contents and positions as read: peek and then commit is read |
| `Fifo.FIFOBuffer.Write` | src/oatpp/data/buffer/FIFOBuffer.cpp:204-247 | appends the first min(count, free) bytes, or refuses, exactly when full but for one state; everything put in is what was taken out followed by the contents |
| `Fifo.FIFOBuffer.ReadAndWriteToStream` | src/oatpp/data/buffer/FIFOBuffer.cpp:249-300 | the stream gets exactly the bytes that leave the queue, in order, whatever it takes |
| `Fifo.FIFOBuffer.ReadFromStreamAndWrite` | src/oatpp/data/buffer/FIFOBuffer.cpp:302-352 | the queue gets exactly the bytes the stream gave |
| `Fifo.FIFOBuffer.FlushToStream` | src/oatpp/data/buffer/FIFOBuffer.cpp:354-373 | empties the buffer; the stream has everything if the result says so |
| `Fifo.Availability` | src/oatpp/data/buffer/FIFOBuffer.cpp:46-64 | readable and writable add up to the capacity |
| `Fifo.TakesAsMany` | src/oatpp/data/buffer/FIFOBuffer.cpp:70-200 | reading hands over the oldest bytes, as many as asked for or all; refused and thrown exactly when |
| `Fifo.PutsAsMany` | src/oatpp/data/buffer/FIFOBuffer.cpp:204-245 | writing takes as many as given or as there is room for; refused and thrown exactly when |
| `Fifo.RefusesRead` | src/oatpp/data/buffer/FIFOBuffer.cpp:70-202 | m_canRead is unset if and only if nothing waits and the read position is not left at the end |
| `Fifo.RefusesWrite` | src/oatpp/data/buffer/FIFOBuffer.cpp:204-213 | writing is refused if and only if no room is left and the write position is not left at the end |
| `Fifo.EmptyNotRefused` | src/oatpp/data/buffer/FIFOBuffer.cpp:249-300 | a stream transfer after which reading an empty buffer is not refused |
| `Fifo.FullNotRefused` | src/oatpp/data/buffer/FIFOBuffer.cpp:302-352 | a stream transfer after which writing to a full buffer is not refused |
| `Fifo.AdvanceQueue` | src/oatpp/data/buffer/FIFOBuffer.cpp:70-117 | moving the read position with its wrap-around drops the oldest bytes |
| `Fifo.StoredQueue` | src/oatpp/data/buffer/FIFOBuffer.cpp:204-247 | copying behind the write position, and the rest to the start, appends the bytes |
| `Fifo.OfferedWithinCount` | src/oatpp/data/buffer/FIFOBuffer.cpp:272-292 | a transfer to a stream respects the count exactly if the read position is not at the end with more than count bytes at the start |
| `Fifo.OfferedIsMost` | src/oatpp/data/buffer/FIFOBuffer.cpp:249-300 | a stream is offered all that waits, or as much as asked for, or all up to the end of the buffer; and something if something waits |
| `Fifo.RoomWithinCount` | src/oatpp/data/buffer/FIFOBuffer.cpp:325-342 | the same for a transfer from a stream |
| `Fifo.RoomIsMost` | src/oatpp/data/buffer/FIFOBuffer.cpp:302-352 | the same for the room a stream is given to fill |
| `AsyncQueue.FastQueue.PushFront` | src/oatpp/async/utils/FastQueue.hpp:81-88 | prepends, links and ends kept |
| `AsyncQueue.FastQueue.PushBack` | src/oatpp/async/utils/FastQueue.hpp:90-100 | appends |
| `AsyncQueue.FastQueue.Round` | src/oatpp/async/utils/FastQueue.hpp:102-109 | the head goes to the back |
| `AsyncQueue.FastQueue.PopFront` | src/oatpp/async/utils/FastQueue.hpp:111-119 | takes the head |
| `AsyncQueue.FastQueue.MoveAll` | src/oatpp/async/utils/FastQueue.hpp:131-151 | appends one queue to another and empties it |
| `AsyncQueue.FastQueue.Unlink` | src/oatpp/async/utils/FastQueue.hpp:153-165 | takes the entry after another one out; first, last and count agree |
| `AsyncQueue.FastQueue.CutEntry` | src/oatpp/async/utils/FastQueue.hpp:153-165 | takes an entry out, at the front or in the middle |
| `TimerWorker.Worker.Visit` | src/oatpp/async/worker/TimerWorker.cpp:83-107 | due or not, kept with its new schedule, or cut and handed to its processor |
| `TimerWorker.Worker.Traverse` | src/oatpp/async/worker/TimerWorker.cpp:72-112 | afterwards the queue is, in order, the handles not due or still waiting; the others were handed over in order with their actions |
| `TimerWorker.EachOnce` | src/oatpp/async/worker/TimerWorker.cpp:72-112 | every handle stays or is handed over, exactly once |
| `TimerWorker.WhoStays` | src/oatpp/async/worker/TimerWorker.cpp:72-112 | just the handles stay that are not due or that ask for another wait, for a time or for an I/O event |
| `TimerWorker.WhoLeaves` | src/oatpp/async/worker/TimerWorker.cpp:72-112 | just the others are delivered, each to its own processor with the action it returned |
| `TimerWorker.WaitsUntil` | src/oatpp/async/worker/TimerWorker.cpp:83-107 | a handle that stays waits for its old time, for the one it asked for, or, for an I/O event, for no later tick |
| `TimerWorker.Worker.Pass` | src/oatpp/async/worker/TimerWorker.cpp:67-112 | after a turn of the outer loop all in the queue wait for a time again |
| `Coroutines.CoroutineHandle.TakeTurn` | src/oatpp/async/Coroutine.cpp:249-327 | one turn of the loop: frames, function pointer, action, and the objects made and deleted |
| `Coroutines.CoroutineHandle.TakeAction` | src/oatpp/async/Coroutine.cpp:249-332 | the loop ends, by frame depth and then pending error, and computes the machine |
| `CoroutineProof.Conservation` | src/oatpp/async/Coroutine.cpp:249-332 | every coroutine and error object on the stack, in the action or made by a handler is still held or deleted exactly once |
| `CoroutineProof.ErrorUnwinds` | src/oatpp/async/Coroutine.cpp:290-319 | an error continues in the frame whose handler took it, or ends the handle |
| `CoroutineProof.NearestHandler` | src/oatpp/async/Coroutine.cpp:290-319 | that frame is the nearest one whose handler does not answer with an error |
| `CoroutineProof.NobodyCatches` | src/oatpp/async/Coroutine.cpp:290-319 | the handle ends if and only if every handler on the stack answers with an error |
| `CoroutineProof.SuccessorsIgnored` | src/oatpp/async/Coroutine.cpp:290-319 | takeAction ends the same whatever pipeline successors the popped frames have |
| `CoroutineProof.PipelineStep` | src/oatpp/async/Coroutine.cpp:249-332 | what one call makes of a pipeline at coroutine k: it keeps its frame, or it finishes and the next one starts in the same place (after the last, the final action is taken in the original frame), or it fails and its error is handled in the original frame; which of these is determined by the stack, the action and the handlers |
| `CoroutineProof.PipelineInOrder` | src/oatpp/async/Coroutine.cpp:195-281 | in every run the coroutines of a pipeline run in append order, each with the same parent and return pointer, then the final action is taken in the original frame; the run leaves early in the calls in which an error comes out of the current coroutine, and in no other |
| `CoroutineCalls.LeavesAtOnce` | src/oatpp/async/Coroutine.cpp:249-327 | an action that starts nothing, ends nothing and is no error leaves the frames and itself as they are; the function pointer moves exactly to where a yield asks |
| `CoroutineCalls.CalledNext` | src/oatpp/async/Coroutine.cpp:249-327 | over every run that keeps a started coroutine: it is called next at the function it yielded to last, or at `act`; unless an error came up into it since, and then where the failed one was |
| `CoroutineCalls.RootCalledNext` | src/oatpp/async/Coroutine.cpp:237-243 | the same for the root coroutine |
| `CoroutineCalls.NotRestored` | src/oatpp/async/Coroutine.cpp:283-318 | a run in which an error leaves the function pointer of the failed coroutine behind |
| `CoroutineStarters.CoroutineStarter.NextAction` | src/oatpp/async/Coroutine.cpp:195-204 | the chain is closed with the action; an empty starter gives just the action |
| `CoroutineStarters.CoroutineStarter.NextStarter` | src/oatpp/async/Coroutine.cpp:206-217 | two chains become one, except that an empty argument loses this one |
| `CoroutineStarters.ChainRepresented` | src/oatpp/async/Coroutine.cpp:195-217 | the linked coroutines are, as a value, the pipeline in append order |
| `CoroutineStarters.NextKeepsAll` | src/oatpp/async/Coroutine.cpp:206-217 | joining keeps the coroutines of both exactly if no non-empty starter is followed by an empty one |
| `CoroutineStarters.NextAssociative` | src/oatpp/async/Coroutine.cpp:206-217 | joining is associative if and only if no empty starter stands between two that are not |
| `LockProtocol.StepKeeps` | src/oatpp/async/Lock.cpp:38-77 | every step keeps: the mutex has one owner, the counter counts, the list agrees with the sleepers, and a sleeper has an active party |
| `LockProtocol.NoLostWakeup` | src/oatpp/async/Lock.cpp:38-77 | in every interleaving a non-empty wait list means an active party, m_counter is the number of parties between ++ and --, and no "Invalid state" is thrown |
| `LockProtocol.ActiveCanGo` | src/oatpp/async/Lock.cpp:38-77 | an active party is never stuck |
| `LockProtocol.NobodyLeftAsleep` | src/oatpp/async/CoroutineWaitList.cpp:50-77 | when every party is idle or asleep, none is asleep |
| `LockProtocol.SleeperCanGetLock` | src/oatpp/async/Lock.cpp:38-77 | from every reachable state, for every sleeper, some run lets that sleeper get the lock |
| `LockProgress.AskedIsServed` | src/oatpp/async/Lock.cpp:38-77 | a party that has asked for the lock is idle again only after it has held it |
| `LockProgress.EveryoneCanGetLock` | src/oatpp/async/Lock.cpp:38-77 | from every reachable state, for every party that has asked, from a thread or a coroutine, awake or asleep, some run lets it hold the lock |
| `LockProgress.TakesFreeLock` | src/oatpp/async/Lock.cpp:57-77 | on a free lock, three steps of its own give a party the mutex and count it; nothing else changes |
| `LockProgress.GivesItBack` | src/oatpp/async/Lock.cpp:62-69 | four steps of its own free the mutex, count it off and take just one entry off the list |
| `LockProgress.FallsAsleep` | src/oatpp/async/Lock.cpp:47-55 | a coroutine that finds the lock held is asleep on the list after steps of its own, and nothing else has changed |
| `LockProgress.SleepsExactlyIf` | src/oatpp/async/Lock.cpp:38-55 | a refused coroutine goes to sleep exactly if somebody is between ++ and --; a check wakes somebody exactly if nobody is |
| `ConditionVariableProtocol.StepKeeps` | src/oatpp/async/ConditionVariable.cpp:35-77 | every step keeps the invariant about flag, list and pending checks |
| `ConditionVariableProtocol.NobodyOversleeps` | src/oatpp/async/ConditionVariable.cpp:35-143 | after a notifyAll that follows the setting of the condition, sleepers never exceed the pending onNewItem checks, and none sleeps once those are done |
| `ConditionProgress.WaitMeansTrue` | src/oatpp/async/ConditionVariable.cpp:43-77 | in every interleaving a waiter whose wait is over owns the lock and the condition is true |
| `ConditionProgress.WaiterCanFinish` | src/oatpp/async/ConditionVariable.cpp:35-143 | after a notifyAll that follows the setting of the condition: from every reachable state, for every waiter, some run ends its wait |
| `ConditionProgress.WaitsNot` | src/oatpp/async/ConditionVariable.cpp:58-77 | where the condition is true and the lock free, a wait is over after steps of its own |
| `ConditionProgress.FallsAsleep` | src/oatpp/async/ConditionVariable.cpp:58-77 | where it is false, a waiter is asleep on the list after steps of its own, with the lock free and m_notified false |
| `ConditionProgress.NotifiesFirst` | src/oatpp/async/ConditionVariable.cpp:135-138 | notifyFirst takes just the entry it picks off the list, and wakes it |
| `ConditionProgress.NotifiesAll` | src/oatpp/async/ConditionVariable.cpp:140-143 | notifyAll empties the list and wakes all sleepers, and nobody else changes |
| `ProcessorProtocol.DispatchCounts` | src/oatpp/async/Processor.cpp:55-113 | a handle in hand is put in exactly one place |
| `ProcessorProtocol.DispatchRoutes` | src/oatpp/async/Processor.cpp:75-113 | and in the place its action asks for |
| `ProcessorProtocol.RoundRobin` | src/oatpp/async/Processor.cpp:55-73 | the next task goes to the next worker, exactly unless the balancer wraps and the number of workers does not divide 2^32 |
| `ProcessorRoutes.StepRoutes` | src/oatpp/async/Processor.cpp:55-280 | every step takes just the handles of its route, in their order, from where they stood to the end of the line at their destination: workers and notifiers to the push list, the push list as a whole to tmpList, the head to where its action asks, a pop queue to its worker |
| `ProcessorRoutes.StepSleeps` | src/oatpp/async/Processor.cpp:75-200 | a handle goes to sleep exactly if its action asks, with the insertion into that list next; only its notifier wakes it |
| `ProcessorRoutes.StepLists` | src/oatpp/async/CoroutineWaitList.cpp:50-77 | a wait list gets just the handle inserted and loses just the one erased, which its notifier has in hand until it is pushed |
| `ProcessorRoutes.WorkersTakeTurns` | src/oatpp/async/Processor.cpp:55-73 | the worker whose turn it was is followed by the next, and only a task of its kind makes that step |
| `ProcessorRoutes.FirstWorkers` | src/oatpp/async/Processor.cpp:55-73 | the first task goes to the worker at place 1 of several |
| `ProcessorRoutes.Submits` | src/oatpp/async/Processor.hpp:170-178 | execute, at any time, counts and submits one task and changes nothing else |
| `ProcessorProtocol.StepConserves` | src/oatpp/async/Processor.cpp:75-280 | every step leaves every live handle in exactly one place, and sleep set and wait lists agree |
| `ProcessorProtocol.NothingLost` | src/oatpp/async/Processor.cpp:75-280 | the same after every interleaving; the task counter is pending submissions plus live handles, so zero means finished |
| `ProcessorProtocol.StepCounts` | src/oatpp/async/Processor.hpp:170-178 | submission, creation, deletion and counting keep the counter right |
| `ProcessorProtocol.NeverBroken` | src/oatpp/async/Processor.cpp:55-73 | with a worker of each kind no handle is lost to an exception |
| `ProcessorProtocol.BoundedWaiting` | src/oatpp/async/Processor.cpp:229-280 | a handle at place k of the run queue is at the head after exactly k turns, whatever the others do |
| `ProcessorProgress.EveryoneCanRun` | src/oatpp/async/Processor.cpp:55-280 | from every state a processor with a worker of each kind reaches, for every live handle, wherever it is, some continuation brings it to the run queue |
| `ProcessorProgress.EverySubmissionStarts` | src/oatpp/async/Processor.cpp:156-177 | and some continuation creates the coroutines of all tasks submitted so far, in the run queue |
| `ProcessorLoop.Processor.PushQueues` | src/oatpp/async/Processor.cpp:163-177 | the loop over the pushed handles is a run of the protocol and leaves none behind |
| `ProcessorLoop.Processor.PopTasks` | src/oatpp/async/Processor.cpp:140-154 | the loops empty every pop queue into its worker |
| `ProcessorLoop.Processor.Iterate` | src/oatpp/async/Processor.cpp:229-280 | the whole call is a run of the protocol, keeps its invariant, and throws only without workers |
| `ResourcePool.StepKeeps` | src/oatpp/provider/Pool.hpp:102-349 | every operation keeps the accounts |
| `ResourcePool.Accounts` | src/oatpp/provider/Pool.hpp:102-399 | over every run the counter is bench plus acquired plus in flight, within 0 and the maximum; no resource is held twice; nothing discarded is on the bench; a stopped pool has an empty bench |
| `ResourcePool.NeverAgain` | src/oatpp/provider/Pool.hpp:102-158 | an invalidated resource is never put back or handed out again |
| `ResourcePool.WaitsExactly` | src/oatpp/provider/Pool.hpp:237-265 | a call waits exactly if the pool runs and users and calls in flight have all the places, never beside a benched resource |
| `PoolHistory.AnswersExactly` | src/oatpp/provider/Pool.hpp:237-325 | after every run: refused if and only if the pool was stopped; waits if and only if it was not and all places are taken; given a benched resource if and only if it was not and that one was released longest ago; else the provider is asked |
| `PoolHistory.BenchByRelease` | src/oatpp/provider/Pool.hpp:136-158 | the bench is in the order of the last releases, with their times |
| `PoolHistory.ReleasedIsHandedOut` | src/oatpp/provider/Pool.hpp:136-158 | a valid resource released to a running pool is the answer of the acquire after those for the resources benched before it |
| `PoolHistory.ProviderAnswers` | src/oatpp/provider/Pool.hpp:237-265 | where the provider is asked, its resource is the caller's, or its failure leaves everything as it was |
| `PoolHistory.NotReused` | src/oatpp/provider/Pool.hpp:136-158 | a resource that is invalid, or comes back to a stopped pool, is counted off and discarded |
| `PoolHistory.YoungStay` | src/oatpp/provider/Pool.hpp:162-184 | a clean-up leaves just the records that are not older than the time to live |
| `PoolHistory.StopsForGood` | src/oatpp/provider/Pool.hpp:372-385 | stopping discards the bench and leaves users what they have; the last clean-up finds nothing |
| `ResourcePool.Pool.Acquire` | src/oatpp/provider/Pool.hpp:237-265 | from the bench if one is there, from the provider, closed, or wait, exactly if users and calls in flight have all the places |
| `ResourcePool.Pool.ProviderFailed` | src/oatpp/provider/Pool.hpp:340-347 | a failure gives the place back; the accounts stay right if and only if a provider call was in flight |
| `ResourcePool.Pool.Release` | src/oatpp/provider/Pool.hpp:136-158 | back to the bench if valid and running, else counted off |
| `ResourcePool.Pool.Cleanup` | src/oatpp/provider/Pool.hpp:162-184 | the erasing loop removes exactly the expired records, in order, and counts them off |
| `ResourcePool.Pool.Stop` | src/oatpp/provider/Pool.hpp:372-385 | clears the bench once |
| `ResourcePool.Pool.FinalCleanup` | src/oatpp/provider/Pool.hpp:186-202 | finds an empty bench |
| `ResourcePool.Pool.OnNewItem` | src/oatpp/provider/Pool.hpp:119-134 | wakes all when stopped, and one exactly if users and calls in flight leave a place |

## Left out

- Floating point: a floating-point node is its lexeme; converting and printing the value is a library call. The round trip is about lexemes with a fraction or an exponent; a library that prints neither makes an integer of the node.
- UTF-8 forms of five and six bytes, overlong forms and stray bytes are in the members that mirror the code, but not in the round trips, which are about well-formed strings; what holds beyond that, without FLAG_ESCAPE_UTF8CHAR, is `EscapeLegal.BytesRoundTrip`.
- Whether a JSON text is well-formed UTF-8 (section 8.1 of RFC 8259) is not part of `Valid`: bytes above 0x7F stand for themselves.
- The `PAIRS` node type, whose printer is the same loop as that of maps, and the narrower integer node types.
- The library calls strtoll, strtoull and strtod are functions of the text; strtoll's handling of leading blanks and signs that cannot occur at the call is not modelled.
- Decimal text of integers, Base64, percent-encoding, case conversion: small codecs that would only add easy members.
- Deserializer.Deserialize: does not state where the caret stands after an error, because no caller looks at it; the texts of error messages are left out, too.
- Deserializer.DeserializeArray: does not state it either.
- Deserializer.DeserializeMap: does not state it either.
- FastSkip.SkipByDepth: does not model the width of the depth counter, which is an int in C++ and unbounded here.
- The object mappers of the fast serializer and deserializer: null fields, casts, enumerations and type dispatch.
- `m_parent` pointers of coroutines are a sequence of frames; the links themselves are left out.
- Dropped, unstarted pipelines (`freeCoroutines`), and `_return` with its callback; the code of coroutines is an arbitrary action at each call.
- Timed waits (`waitUntil`, `m_sleepTimeSet`, `checkCoroutinesSleep`): a timeout between the two insertions breaks the one-place invariant.
- The processor's queues in the state machine are sequences; the intrusive links are those of `AsyncQueue.FastQueue`. The lists of the runtime state machines are sets.
- The condition variable's lock is a plain mutex in its model; the waiting for that lock is the subject of `LockProtocol`.
- Fairness, threads, sockets, clocks and sleeping: which party moves next is arbitrary, and times are parameters.
- Pool wakeups and result callbacks that throw; the provider is assumed to give each resource once.
- `FIFOBuffer` with the asynchronous flush and the synchronized wrapper; memcpy is one assignment.
- I/O workers (epoll, kqueue), the server loop, ORM, logging, code generation macros.
