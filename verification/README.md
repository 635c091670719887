# Verified models of the storage chain

This project models, in Dafny 4.11, the parts of the repository whose correctness is not visible from reading one
function, and proves what their documentation, tests and callers rely on:

- the typed JSON value of the enclave (`sgx/src/include/Json.h`): its "first-in-order" object, its two printers and its
  recursive-descent parser;
- the streaming codecs and the worker pool of the embedded HTTP library (`sgx/src/include/httplib.h`): multipart bodies,
  chunked bodies over streams that move fewer bytes than asked, base64, percent coding, query strings, the path check, and
  the mutex and condition-variable protocol of `ThreadPool`;
- the collator-selection pallet (`pallets/collator-selection/src/lib.rs`): candidates, bonds, sessions, rewards;
- the verifier pallet (`pallets/verifier/src/lib.rs`): the attestation protocol from request to stored result.

Code that updates state is a class or a method with loops, proved equal to a function of its inputs or its old state; the
properties are then proved about those functions, over all inputs, all runs or all interleavings. `dafny verify
dfyconfig.toml` checks the whole project.

## Files

| files | content |
|---|---|
| `Texts`, `Trimming`, `Arithmetic`, `SortedMaps`, `Escapes` | searching and trimming, powers and division, `std::map` as a sorted sequence, JSON escaping |
| `OrderedObjects`, `OrderedHistories` | insertion order simulated on a sorted map by decimal tags; whole histories of such an object |
| `JsonValues`, `JsonPrinters`, `JsonLayout` | stored values and their meaning; the compact and the indented printer; the indented text line by line |
| `JsonGrammar`, `JsonParser` | what the parser computes; the parser with its advancing offset |
| `JsonScalars`, `JsonRoundTrip`, `JsonTheorems` | parsing printed text: scalars, containers, and the main theorems |
| `JsonExact`, `JsonErrors` | a grammar of all texts the parser reads without an error; what it returns for the others, and where it stops |
| `JsonUnescaping`, `JsonLiterals` | what the scanner makes of escapes, against the standard; escaped text, hexadecimal text and typed literals by their characters |
| `Multipart`, `MultipartHeaders` | the six-state parser; what header lines say about a part |
| `MultipartTheorems`, `MultipartExact`, `MultipartRefusals` | chunk independence; its exact condition; refusing callbacks, preambles, epilogues |
| `WorkerPool`, `WorkerPoolSafety`, `WorkerPoolRuns` | the pool as steps of its threads; what every step keeps; deadlock freedom and shutdown |
| `Streams`, `Chunked`, `ChunkSizes` | short-reading streams and the line reader; the chunked reader and writer; every text as `strtoul` reads it |
| `ChunkedExact`, `ChunkedRoundTrip`, `ChunkedWriting` | which texts the reader accepts; round trip; what any content provider makes the writer send |
| `Base64`, `PercentCoding`, `PercentExact` | the small codecs, the last by characters and code points |
| `QueryStrings`, `SplittingExact`, `Paths` | splitting and trimming, and what is put together again; the path check |
| `QueryRoundTrip`, `QueryExact`, `QueryReads` | writing and parsing queries; exactly which multimaps survive it; what any query text is read as |
| `Balances`, `CollatorSelection` | the currency's contracts, the pallet |
| `CollatorRuns`, `CollatorRules` | its runs; who enters, leaves, is kicked and is paid, told from the calls alone |
| `VerifierPallet`, `Attestation`, `AttestationService` | the pallet and its worker; the protocol with a hostile message pool; that keys, requests and signatures have their effect |

## Conventions

- A text is a Dafny `string` with one character for each byte.
- `std::map` is its iteration sequence, `std::multimap` likewise with equal keys in insertion order.
- Where a method can fail half-way (a stream that reports an error), its contract still says what has been delivered.
- What comes from outside is a parameter: the regular expression that reads a Content-Disposition line, the receiver's
  verdicts, how many bytes each call of a stream moves, the currency's own liquidity check, the session pallet's answers,
  the signature scheme, and what the evidence resolver answers each time it is asked.

## Findings

Properties that hold only under a condition. For each, one lemma proves the condition exact and another runs the code's
model on an input that fails it.

- A string prints and parses back to itself if and only if it is not taken for a typed literal: it does not begin with the
  buffer tag, and does not begin with the hash tag at an even length (`JsonScalars.StringRoundTrip`). The string `$&BT&$`
  comes back as an empty buffer (`JsonScalars.TagBecomesBuffer`).
- The indented typed printer keeps a value's meaning if and only if no first-in-order or flat object inside it is empty
  (`JsonTheorems.IndentedTypedRoundTrip`); the compact one always does. An empty first-in-order object comes back as a plain
  one (`JsonTheorems.EmptyKindLost`).
- Looking up a live key of a first-in-order object again finds its entry if and only if `json_escape` leaves the key alone
  (`OrderedObjects.RepeatedLookup`). A key that is a quotation mark, assigned and looked up again, leaves two entries
  (`OrderedObjects.QuotedKeyDoubles`).
- The string scanner gives the bytes that section 7 of RFC 8259 gives if and only if every escape in the text has two
  characters of the standard's list and no control character stands unescaped (`JsonUnescaping.ScanIsMeaningExactly`).
  `\u0041` is kept as six characters (`JsonUnescaping.UnitKept`).
- All ways of cutting a multipart body deliver the same parts if and only if every content is *safe*: each time CRLF and two
  dashes are met in it, as many bytes as the delimiter has are still content (`MultipartExact.ChunkIndependenceExactly`). Content
  without CRLF and two dashes is safe. With the boundary `bb`, CRLF and `--x` is not, and a cut loses it
  (`MultipartExact.ShortContentFails`).
- Nothing may stand before a multipart body's first line or after its last, although section 5.1.1 of RFC 2046 allows both: the
  first is refused without a callback (`MultipartRefusals.StartExactly`), and a byte after the end makes a delivered body
  invalid (`MultipartRefusals.EpilogueInvalidates`). White space behind a delimiter stalls the parser for good
  (`MultipartRefusals.BoundaryStalls`).
- The chunked writer takes an empty piece at the end of a provider's call for the end of the data. It reports success in any case,
  but what it sends is a body that the reader accepts if and only if no call before the last ends with an empty piece
  (`ChunkedWriting.BodyIsWholeExactly`; `ChunkedWriting.EmptyPieceCuts`).
- The chunked reader reports success if and only if the text begins with a complete body (section 4.1 of RFC 7230, sizes as
  `strtoul` reads them), or breaks off: something else than an end of line stands behind a chunk's data. No text does both.
  It delivers the data of the complete chunks, and in the second case that of the broken-off one too
  (`ChunkedExact.AcceptedExactly`). `1 CRLF aX LF 0 CRLF CRLF` is a success with the body `a` (`ChunkedRoundTrip.BrokenOffAccepted`).
- When the pool's shutdown has joined its workers, every job has run if and only if none was pushed after the last worker
  exited (`WorkerPoolRuns.ShutdownExactly`). A program that enqueues nothing after the call of shutdown is on the right side
  (`WorkerPoolRuns.ShutdownDrains`); a later enqueue can always be lost: from every
  reachable state after the call some interleaving joins the workers before it (`WorkerPoolRuns.LateEnqueueLost`; a run
  from the start is `WorkerPoolRuns.LateJobLost`).
- The collators of a session are distinct if and only if the invulnerables are and, of the candidates stored before it, each
  invulnerable one is stale with fewer stale ones before it than may be removed
  (`CollatorRuns.CollatorsDistinctExactly`). Nothing stops `set_invulnerables` from naming a candidate, and the
  next session then lists it twice (`CollatorRuns.NamedTwice`). Where every such call is careful, or none is made, all sessions
  are distinct (`CollatorRules.SessionsDistinct`).
- An author's reward, which the code expects never to fail, is paid if and only if it leaves the author with at least the
  existential deposit (`CollatorRules.RewardExactly`); otherwise the pot keeps it (`CollatorRules.RewardLost`).
- Parsing a written query gives the same pairs back if and only if the pairs are distinct and every key fits: it is not
  empty, has no `=` and no `&`, no space or tab at its ends, and decoding leaves it alone
  (`QueryExact.RoundTripExactly`; `QueryExact.PairExactly` for one pair). Keys are written raw. The empty key with the value
  `x` comes back as the key `x` with an empty value (`QueryRoundTrip.EmptyKeyLost`), a repeated pair comes back once
  (`QueryRoundTrip.RepeatedPairLost`).
- A submitted result is signed without the block number of its call. A signed result can be accepted in a later block `b` if and
  only if the number in the call is at most `b` and at most `EvidenceLifetime` below it (`Attestation.WindowExactly`). So its age
  when accepted is bounded by `EvidenceLifetime` if and only if the call carries no number above the worker's own
  block (`Attestation.AgeExactly`). With a lifetime of 1, a result signed for block 0 is accepted in block 4 under the
  number 3 (`Attestation.AcceptedLate`).

## Model

| member | source | states |
|---|---|---|
| Escapes.JsonEscape | sgx/src/include/Json.h:50-82 | the loop over characters computes the escaping that the lemmas are about |
| Escapes.EscapeFixpoint | sgx/src/include/Json.h:50-82 | escaping leaves a text alone if and only if it has no character that is escaped |
| JsonLiterals.EscapeLeavesExactly | sgx/src/include/Json.h:50-82 | the characters that are rewritten are the codes 34, 92, 8, 12, 10, 13 and 9 |
| JsonLiterals.EscapedMeansExactly | sgx/src/include/Json.h:50-82 | an escaped text is the JSON text of the original if and only if no other control character is in it |
| OrderedObjects.TagClosedForm | sgx/src/include/Json.h:484-501 | the n-th tag is n/10 nines and the digit n%10 |
| OrderedObjects.NextTagCounts | sgx/src/include/Json.h:489-498 | the successor rule, digit plus one or a zero appended after nine, leads from the n-th tag to the next |
| OrderedObjects.RKeyOrder | sgx/src/include/Json.h:478-501 | stored keys with a smaller tag number sort strictly before those with a larger one, whatever the keys |
| OrderedObjects.AssignNew | sgx/src/include/Json.h:464-509 | assigning a key that is not live appends a slot with a tag above all live ones, and keeps key map and value map in bijection |
| OrderedObjects.AssignOld | sgx/src/include/Json.h:473-476 | assigning a live key changes its value in place, at the same position |
| OrderedObjects.EraseOld | sgx/src/include/Json.h:643-658 | erasing a live key removes its slot from both maps and no other |
| OrderedObjects.EraseExactly | sgx/src/include/Json.h:643-658 | erasing a live key always forgets the key, and takes its entry out if and only if escaping leaves the key alone |
| OrderedObjects.EraseNothing | sgx/src/include/Json.h:643-658 | erasing a key that is not live changes nothing |
| OrderedObjects.LostBijection | sgx/src/include/Json.h:473-476 | looking up a live key that escaping changes leaves an entry that no key owns |
| OrderedObjects.RepeatedLookup | sgx/src/include/Json.h:464-509 | a repeated lookup finds the key's own entry if and only if escaping leaves the key alone |
| OrderedObjects.QuotedKeyDoubles | sgx/src/include/Json.h:464-509 | from an empty object, a quotation mark assigned and looked up again has two entries in the value map and one key |
| OrderedHistories.InsertionOrder | sgx/src/include/Json.h:785-801 | after any assignments and erasures, as long as no operation meets a live key that escaping changes, iterating the sorted map lists exactly the live keys with their latest values, in order of latest first insertion |
| OrderedHistories.RunInvariant | sgx/src/include/Json.h:464-658 | after any such history the key map and the value map are in bijection, with tags increasing in the order of first insertion |
| OrderedHistories.TagsWithoutErase | sgx/src/include/Json.h:478-501 | without erasures the i-th entry carries the i-th tag, i/10 nines and the digit i%10 |
| OrderedObjects.OrderedObject.NewStoredKey | sgx/src/include/Json.h:478-501 | the reverse walk over the value map picks the tag after that of the last tagged entry |
| OrderedObjects.OrderedObject.Index | sgx/src/include/Json.h:464-509 | the new state of both maps after a lookup |
| OrderedObjects.OrderedObject.Assign | sgx/src/include/Json.h:464-509 | the new state of both maps after an assignment |
| OrderedObjects.OrderedObject.Erase | sgx/src/include/Json.h:643-658 | the new state of both maps after an erasure |
| OrderedObjects.OrderedObject.FIOObjectRange | sgx/src/include/Json.h:785-801 | the listing of keys without their tags, in map order |
| JsonPrinters.HexString | sgx/src/include/Json.h:112-137 | two hexadecimal digits for each byte, most significant first |
| JsonLiterals.HexIs | sgx/src/include/Json.h:112-137 | the i-th byte's two digits, lower-case, by the table |
| JsonPrinters.DumpScalar | sgx/src/include/Json.h:1028-1075 | text of null, booleans, integers, strings, hashes and buffers, with their type tags |
| JsonPrinters.DumpVector | sgx/src/include/Json.h:909-1081 | the compact text of the document that the value stands for |
| JsonPrinters.DumpArrayVector | sgx/src/include/Json.h:1009-1027 | arrays in the compact text |
| JsonPrinters.DumpObjectVector | sgx/src/include/Json.h:920-940 | plain objects in the compact text |
| JsonPrinters.DumpOrderedVector | sgx/src/include/Json.h:941-1008 | only entries with a numeric tag and a key are printed, in map order, with the kind's marker when typed |
| JsonPrinters.Dump | sgx/src/include/Json.h:1088-1224 | the indented text of the same document |
| JsonLayout.IndentedLines | sgx/src/include/Json.h:1088-1224 | the indented text of any document is its lines: each element or member on a line of its own in its container's column, values one column further, closing brackets two characters less, flat objects on one line, empty objects a pair of braces |
| JsonPrinters.DumpObject | sgx/src/include/Json.h:1098-1114 | plain objects in the indented text |
| JsonPrinters.DumpFio | sgx/src/include/Json.h:1115-1144 | first-in-order objects in the indented text |
| JsonPrinters.DumpFlat | sgx/src/include/Json.h:1145-1173 | flat objects, on one line |
| JsonPrinters.DumpArray | sgx/src/include/Json.h:1174-1187 | arrays in the indented text |
| JsonParser.Parser.ConsumeSpace | sgx/src/include/Json.h:1385-1389 | the offset moves to the next character that is no white space; which those are is told by `JsonExact.ReadExactly` |
| JsonParser.Parser.ParseObject | sgx/src/include/Json.h:1453-1513 | value, offset and status after an object, marker and error cases included |
| JsonParser.Parser.ParseArray | sgx/src/include/Json.h:1554-1591 | value, offset and status after an array; a malformed array is empty |
| JsonParser.Parser.ParseString | sgx/src/include/Json.h:1675-1755 | value, offset and status after a string or typed literal |
| JsonParser.UnicodeEscape | sgx/src/include/Json.h:1709-1725 | a \u escape is kept as it stands, or is an error |
| JsonParser.Parser.ParseNumber | sgx/src/include/Json.h:1821-1883 | value, offset and status after an integer; a number needs a terminator |
| JsonParser.Parser.ParseBool | sgx/src/include/Json.h:1902-1917 | value, offset and status after a boolean |
| JsonParser.Parser.ParseNull | sgx/src/include/Json.h:1932-1943 | value, offset and status after null |
| JsonParser.Parser.ParseNext | sgx/src/include/Json.h:1972-1997 | the choice by the first character |
| JsonParser.Load | sgx/src/include/Json.h:2012-2024 | the first value of a buffer, null for an empty one |
| JsonExact.ReadExactly | sgx/src/include/Json.h:1385-1997 | at any place in any text the parser succeeds with a value up to an offset if and only if white space (codes 9 to 13 and 32) and a node of the grammar with that value stand there up to it, a number before one of these codes, a comma or a closing bracket or brace |
| JsonExact.NodeReads | sgx/src/include/Json.h:1453-1997 | every text of the grammar, at any place, is read as its value, up to its end |
| JsonExact.NextOf | sgx/src/include/Json.h:1453-1997 | whatever is read without an error is white space and a node of the grammar, with its value |
| JsonExact.NextSticks | sgx/src/include/Json.h:1453-1997 | once an error is reported, no later part of the text takes it back |
| JsonErrors.WrongStart | sgx/src/include/Json.h:1972-1997 | where no value begins: null, the offset after the white space, the starting error |
| JsonErrors.WrongWord | sgx/src/include/Json.h:1902-1943 | a word that is none of the three: null at its start, the error of the first letter's kind |
| JsonErrors.NumberRunsOn | sgx/src/include/Json.h:1821-1883 | a number that runs into another character: null, one past that character, the number error |
| JsonErrors.UnicodeBroken | sgx/src/include/Json.h:1709-1724 | after a good beginning of a string, `\u` without four digits: an empty string, at the `u`, the string error |
| JsonErrors.ArrayBreaks | sgx/src/include/Json.h:1554-1591 | good elements and then neither comma nor bracket: an empty array, up to there, the array error |
| JsonErrors.ObjectBreaks | sgx/src/include/Json.h:1453-1513 | good members and then neither comma nor brace: these members, up to there, the object error |
| JsonErrors.ObjectLacksColon | sgx/src/include/Json.h:1480-1488 | good members and then a key without a colon: these members, up to where it should be, the object error |
| JsonErrors.StringRunsOut | sgx/src/include/Json.h:1675-1724 | a text that ends inside a string or an escape is read on past its end |
| JsonLiterals.HexBytesAre | sgx/src/include/Json.h:83-111 | each byte is the value of its two characters, either case, other characters zero, and zero from the first zero byte on |
| JsonLiterals.HashLiteral | sgx/src/include/Json.h:1735-1744 | what is scanned with the hash tag: a string if odd, undefined if too short, otherwise the first 32 bytes |
| JsonLiterals.BufferLiteral | sgx/src/include/Json.h:1745-1752 | what is scanned with the buffer tag: all bytes if even, none for a single character, otherwise undefined |
| JsonLiterals.NoLiteral | sgx/src/include/Json.h:1753-1755 | anything else scanned is a string |
| JsonScalars.ScanEscaped | sgx/src/include/Json.h:1675-1724 | scanning an escaped string gives the string back |
| JsonUnescaping.ScanIsMeaningExactly | sgx/src/include/Json.h:1675-1724 | for every closed string, the scanned bytes are those the standard gives its text if and only if all escapes have two characters and are listed there, and control characters are escaped |
| JsonUnescaping.UnitKept | sgx/src/include/Json.h:1709-1724 | `\u0041` is scanned as its six characters, though it means `A` |
| JsonScalars.HexInverts | sgx/src/include/Json.h:93-137 | `_hexstring_to_bytes` inverts `_hexstring` |
| JsonScalars.NumberInverts | sgx/src/include/Json.h:1821-1883 | `std::stol` inverts `std::to_string` on every long |
| JsonExact.NumberIs | sgx/src/include/Json.h:1046-1050 | an integer is printed in decimal without leading zeros, with a minus sign if and only if it is negative |
| JsonScalars.PlainIsExact | sgx/src/include/Json.h:1725-1755 | a scanned string is a string value if and only if it is not taken for a typed literal |
| JsonScalars.StringRoundTrip | sgx/src/include/Json.h:1675-1755 | a printed string parses to itself if and only if it is not taken for a typed literal |
| JsonScalars.TagBecomesBuffer | sgx/src/include/Json.h:1725-1755 | the printed string `$&BT&$` parses as an empty buffer, wherever it stands |
| JsonScalars.ParseScalar | sgx/src/include/Json.h:1972-1997 | every printable scalar parses to itself wherever its text stands |
| JsonRoundTrip.ParseDoc | sgx/src/include/Json.h:1453-1997 | every printable document in either layout, typed or not, parses inside any text to the value its kind of text can carry, up to its last character |
| JsonTheorems.BuiltMeans | sgx/src/include/Json.h:1453-1513 | the parsed value stands for the document read back: ordered objects keep their entries in order, others are sorted by key |
| JsonTheorems.TypedReadBack | sgx/src/include/Json.h:1088-1224 | typed text carries the document unchanged, except that the indented one loses the kind of empty ordered objects, if and only if there are any |
| JsonTheorems.OrderedWellFormed | sgx/src/include/Json.h:941-1008 | an ordered object made by the library's operations prints exactly its live entries, and the round-trip theorems apply to it |
| JsonTheorems.ShownExactly | sgx/src/include/Json.h:941-1008 | whatever its keys, an ordered object prints its entries in slot order, except one under the empty key |
| JsonTheorems.TypedRoundTrip | sgx/src/include/Json.h:909-1081 | parsing at the start of the typed compact text of any well-formed value, in any surrounding text, succeeds, stops at its end and gives its meaning back |
| JsonTheorems.IndentedTypedRoundTrip | sgx/src/include/Json.h:1088-1224 | the same for the indented typed text, if and only if no ordered object in it is empty |
| JsonTheorems.EmptyKindLost | sgx/src/include/Json.h:1115-1144 | an empty first-in-order object is printed as `{}` by the indented typed printer, which parses as an empty plain object |
| JsonTheorems.TwoPrintersOneMeaning | sgx/src/include/Json.h:1088-1224 | the untyped texts of the two printers, at any depth and indentation, parse to the very same value |
| JsonTheorems.SaveAndLoad | sgx/src/include/Json.h:904-1081 | the printer's output, loaded by the parser, gives the meaning back with success |
| Multipart.MultipartFormDataParser.Parse | sgx/src/include/httplib.h:3590-3722 | one call of parse: result, new state and callbacks, for every input and state |
| Multipart.MultipartFormDataParser.TakeTurn | sgx/src/include/httplib.h:3602-3719 | one pass of the state machine |
| MultipartHeaders.DescribesExactly | sgx/src/include/httplib.h:3619-3652 | the file information after any header lines: name and file name, in that order, of the last line that begins with no `content-type:` in any case and reads as a disposition; as type, what the last line that does has behind these thirteen characters, without the spaces and tabs at its ends; each empty without such a line |
| Trimming.TrimStrips | sgx/src/include/httplib.h:2073-2087 | trimming takes off spaces and tabs at both ends, and no other character |
| Multipart.MultipartFormDataParser.BodyTurn | sgx/src/include/httplib.h:3653-3693 | the content state: what is surely content, the delimiter, or the fallback |
| Multipart.MultipartFormDataParser.FindString | sgx/src/include/httplib.h:3749-3766 | first match, or first start of a match too near the end to tell |
| MultipartTheorems.BytesAccounted | sgx/src/include/httplib.h:3590-3722 | on every input, the passed offset plus the buffer's length is the number of bytes fed |
| MultipartTheorems.RunKeeps | sgx/src/include/httplib.h:3602-3719 | the loop keeps: buffer and input to come are the rest of the message, and delivering it completes the parts |
| MultipartTheorems.ChunkIndependence | sgx/src/include/httplib.h:3590-3722 | a well-formed body with safe contents, cut in any way, delivers exactly its parts in order, each with its content and what its header lines describe, and ends in the final state, valid, with an empty buffer |
| MultipartTheorems.ExpectedExactly | sgx/src/include/httplib.h:3590-3722 | there is exactly one sequence of deliveries that are a body's parts |
| MultipartExact.UnsafeFails | sgx/src/include/httplib.h:3680-3690 | for an unsafe content there is a cut of the body that does not deliver the parts |
| MultipartExact.ShortContentFails | sgx/src/include/httplib.h:3680-3690 | with the boundary `bb` the well-formed content CRLF `--x` is not safe, and a cut of its body does not deliver it |
| MultipartExact.ChunkIndependenceExactly | sgx/src/include/httplib.h:3653-3693 | every cut delivers the parts if and only if every content is safe |
| MultipartExact.OrdinaryContent | sgx/src/include/httplib.h:3653-3693 | content without CRLF and two dashes is safe |
| MultipartRefusals.RefusalStops | sgx/src/include/httplib.h:3622-3693 | on every input a callback that refuses is the last one called, its call of parse fails, and the parser is not valid |
| MultipartRefusals.ValidOnlyAtEnd | sgx/src/include/httplib.h:3602-3719 | on every input the parser is valid only behind the closing line |
| MultipartRefusals.StartExactly | sgx/src/include/httplib.h:3604-3612 | until as many bytes are there as the first line has, the parser waits; if they are another line it fails without a callback |
| MultipartRefusals.BoundaryStalls | sgx/src/include/httplib.h:3694-3713 | after a delimiter, input that begins with neither CRLF nor two dashes and CRLF is buffered for ever, without failure or delivery |
| MultipartRefusals.EpilogueInvalidates | sgx/src/include/httplib.h:3714-3717 | a call with any byte after a delivered body fails and leaves the parser invalid |
| WorkerPool.ThreadPool.constructor | sgx/src/include/httplib.h:513-518 | the pool starts with n workers, each about to lock the mutex, an empty queue and no shutdown |
| WorkerPoolRuns.StateOfSteps | sgx/src/include/httplib.h:513-566 | in every reachable state there are as many workers as the pool was made with, the queue has been given exactly the jobs callers came with, in order, and as many jobs are done as workers finished |
| WorkerPoolRuns.AnyoneMayMove | sgx/src/include/httplib.h:523-564 | the free scheduler: whoever can go on may do so at any time, any waiting worker may be the one notified, and waiting workers may wake up without reason |
| WorkerPoolRuns.JobServed | sgx/src/include/httplib.h:523-566 | before shutdown, from every reachable state some interleaving enqueues a caller's job and comes to rest with every job done |
| WorkerPool.ThreadPool.PushJob | sgx/src/include/httplib.h:523-525 | the state after a job is queued under the mutex |
| WorkerPool.ThreadPool.NotifyOne | sgx/src/include/httplib.h:526-527 | some waiting worker is woken if there is one, and the mutex is released |
| WorkerPool.ThreadPool.TestPredicate | sgx/src/include/httplib.h:554-555 | a worker that holds the mutex finds work, or shutdown, or nothing |
| WorkerPool.ThreadPool.TakeOrExit | sgx/src/include/httplib.h:557-561 | the worker exits on an empty queue after shutdown, or takes the job at the front |
| WorkerPool.ThreadPool.SetShutdown | sgx/src/include/httplib.h:531-534 | the flag is set under the mutex |
| WorkerPool.ThreadPool.NotifyAllWorkers | sgx/src/include/httplib.h:536 | no worker is left waiting |
| WorkerPoolSafety.MutexKept | sgx/src/include/httplib.h:523-564 | over every step, a thread is in its critical section exactly when it owns the mutex |
| WorkerPoolSafety.TestedKept | sgx/src/include/httplib.h:551-561 | what a worker found when it tested still holds when it waits, takes or exits |
| WorkerPoolSafety.AccountedKept | sgx/src/include/httplib.h:523-566 | over every step, jobs start first in first out and none is lost or doubled |
| WorkerPoolSafety.EnoughAwakeKept | sgx/src/include/httplib.h:523-564 | over every step, unblocked workers and owed wake-ups are at least the smaller of queued jobs and live workers |
| WorkerPoolRuns.JobsInOnePlace | sgx/src/include/httplib.h:523-566 | in every reachable state jobs have started in the order enqueued, and each is in exactly one of queued, running and done |
| WorkerPoolRuns.EnoughUnblocked | sgx/src/include/httplib.h:523-564 | no lost wake-up: with no push half-way, unblocked live workers are at least the smaller of queued jobs and live workers |
| WorkerPoolRuns.WorkIsBounded | sgx/src/include/httplib.h:511-579 | without new work the pool takes only a bounded number of steps, under any scheduling |
| WorkerPoolRuns.Quiescent | sgx/src/include/httplib.h:511-579 | deadlock freedom: where nothing but new work can happen, the pool is idle with an empty queue or shutdown has joined all workers |
| WorkerPoolRuns.ShutdownExactly | sgx/src/include/httplib.h:529-542 | when the joins complete, every job has run as often as it was enqueued if and only if none was pushed after the last worker exited |
| WorkerPoolRuns.ShutdownDrains | sgx/src/include/httplib.h:529-542 | with a worker and nothing enqueued after the call of shutdown, the queue is empty and every job has run when the joins complete |
| WorkerPoolRuns.ToRest | sgx/src/include/httplib.h:511-579 | from every reachable state the threads alone can go on until only new work could happen, and once shutdown is called this ends with all workers joined |
| WorkerPoolRuns.LateEnqueueLost | sgx/src/include/httplib.h:529-561 | in every reachable state after the call of shutdown, a later enqueue has an interleaving that is joined with the job still queued and done less often than enqueued |
| WorkerPoolRuns.LateJobLost | sgx/src/include/httplib.h:529-561 | one worker, the call of shutdown and then an enqueue: a legal run from the start that loses the job |
| WorkerPoolRuns.EveryJobRuns | sgx/src/include/httplib.h:511-579 | such a program's pool comes to rest only with every job done |
| WorkerPoolRuns.NeverStarts | sgx/src/include/httplib.h:557 | once all workers have exited no further job ever starts |
| Streams.WriteData | sgx/src/include/httplib.h:3303-3311 | all of the data goes out however little each write moves, or a proper prefix of it before an error |
| Streams.LineReader.Append | sgx/src/include/httplib.h:2161-2172 | the presented line grows by one byte, across the move from the fixed to the growing buffer, and stays closed by a zero byte |
| Streams.LineReader.GetLine | sgx/src/include/httplib.h:2135-2159 | for a fixed buffer of any size from two on, exactly the bytes of the next line are presented and taken from the stream |
| Streams.LineReader.EndWithCrlf | sgx/src/include/httplib.h:2130-2133 | whether the presented line ends with CR and LF |
| Chunked.FromIToHex | sgx/src/include/httplib.h:1846-1854 | hexadecimal without leading zeros |
| Chunked.ReadContentWithLength | sgx/src/include/httplib.h:3114-3134 | however the stream cuts its bytes, the first so many are delivered, or all there are and a failure; a stream error, a refusing receiver or a stopping progress callback ends it with failure after a prefix |
| Chunked.Receiver.Take | sgx/src/include/httplib.h:3125 | the receiver has the bytes it was given, and remembers whether it ever refused |
| Chunked.ReadContentChunked | sgx/src/include/httplib.h:3166-3204 | result, delivered bytes and unread rest depend on the bytes alone, not on how reads cut them; after a stream error or a refusal it fails and a prefix was delivered |
| Chunked.DataSink.WriteSome | sgx/src/include/httplib.h:3398-3417 | one chunk for non-empty data and none for empty data; what went out is always a prefix of what should |
| Chunked.DataSink.Finish | sgx/src/include/httplib.h:3419-3448 | the end marker |
| Chunked.WriteContentChunked | sgx/src/include/httplib.h:3389-3465 | what goes out, and the reported error, for any content provider; after a stream error a prefix went out |
| ChunkedRoundTrip.StrtoulInverts | sgx/src/include/httplib.h:3179 | `strtoul` reads back the size line written for every size |
| ChunkSizes.NumberRead | sgx/src/include/httplib.h:3179 | any white space, sign, optional `0x`, digits and rest are read as the digits' value, the largest if it does not fit, wrapped around if negative |
| ChunkSizes.NoNumber | sgx/src/include/httplib.h:3179 | without a digit behind white space and sign nothing is read |
| ChunkSizes.NumberFound | sgx/src/include/httplib.h:3179 | whatever is read is such a number |
| ChunkedRoundTrip.ReadBack | sgx/src/include/httplib.h:3166-3204 | for every list of pieces the reader returns true, delivers their concatenation and leaves what follows unread |
| ChunkedExact.BodyReads | sgx/src/include/httplib.h:3166-3204 | for every complete body the reader returns true, delivers the data of its chunks and leaves what follows unread |
| ChunkedExact.CutReads | sgx/src/include/httplib.h:3189-3193 | a chunk with something else than an end of line behind it is a success too: the reader delivers the data so far and has taken one line more |
| ChunkedExact.AcceptedParts | sgx/src/include/httplib.h:3166-3204 | every accepted text is taken apart into the chunks of one of these two kinds |
| ChunkedExact.Exclusive | sgx/src/include/httplib.h:3166-3204 | no text is of both kinds |
| ChunkedExact.RefusedParts | sgx/src/include/httplib.h:3166-3204 | every refused text is good chunks and then a place where it goes wrong; just these chunks have been delivered, and of a last one what was there of its data |
| ChunkedExact.AcceptedExactly | sgx/src/include/httplib.h:3166-3204 | for every text the reader returns true if and only if a complete body begins it or it breaks off behind a chunk, never both, with the delivered bytes of each case |
| ChunkedRoundTrip.BrokenOffAccepted | sgx/src/include/httplib.h:3193 | an eleven-byte text that is no complete body, on which the reader returns true and delivers one byte |
| ChunkedRoundTrip.ProvideSends | sgx/src/include/httplib.h:3389-3465 | a provider that writes pieces over several calls and then is done makes the writer send exactly their chunks and the end marker |
| ChunkedWriting.ProvideExactly | sgx/src/include/httplib.h:3389-3465 | any provider is called until a call returns false or does not end with data; what is sent is exactly what these calls did; success unless the last returned false |
| ChunkedWriting.BodyIsWholeExactly | sgx/src/include/httplib.h:3396-3400 | success is reported whatever pieces a provider writes, but the reader accepts what is sent if and only if no call before the last ends with an empty piece |
| ChunkedWriting.EmptyPieceCuts | sgx/src/include/httplib.h:3396-3400 | a provider that writes `a` and an empty piece before it is done sends a body the reader refuses |
| ChunkedRoundTrip.TransferRoundTrip | sgx/src/include/httplib.h:3389-3465 | from the provider's pieces to the wire and back, whatever follows |
| ChunkedRoundTrip.Transfer | sgx/src/include/httplib.h:3166-3204 | the writer's and reader's methods over two streams without errors and a receiver that accepts deliver the pieces, however few bytes each call moves |
| Base64.ShiftIn | sgx/src/include/httplib.h:1898-1902 | the low bits of the 32-bit accumulator after a byte is shifted in, overflow included |
| Base64.PushSymbols | sgx/src/include/httplib.h:1903-1906 | the inner loop writes exactly the symbols a byte completes; the bit position is determined by the byte's place in its group of three |
| Base64.Base64Encode | sgx/src/include/httplib.h:1890-1916 | the accumulator loop computes the encoding defined by section 4 of RFC 4648, for every length |
| Base64.LengthOf | sgx/src/include/httplib.h:1890-1916 | the output has four symbols for every three bytes begun |
| Base64.DecodeInverts | sgx/src/include/httplib.h:1890-1916 | the standard decoder gives every byte string back |
| PercentCoding.EncodeQueryParam | sgx/src/include/httplib.h:1965-1984 | the coding that the lemmas are about |
| PercentCoding.FromHexToI | sgx/src/include/httplib.h:1829-1844 | so many hexadecimal digits at an offset, and nothing at the end of the text |
| PercentExact.HexReads | sgx/src/include/httplib.h:1829-1844 | any digits of either case, anywhere in a text, are read as the number they stand for in base sixteen |
| PercentCoding.DecodeUrl | sgx/src/include/httplib.h:2018-2053 | token by token: two-digit and four-digit escapes, plus signs, and malformed escapes left alone |
| PercentCoding.DecodeInverts | sgx/src/include/httplib.h:2018-2053 | decoding inverts encoding on every byte string, for both treatments of plus |
| PercentCoding.EncodedClean | sgx/src/include/httplib.h:1965-1984 | encoded text has unreserved characters and percent signs only |
| PercentExact.EncodedExactly | sgx/src/include/httplib.h:1965-1984 | wherever a byte stands, a letter, digit or one of nine marks goes as it is, any other byte as a percent sign and two upper-case digits |
| PercentExact.TwoDigits | sgx/src/include/httplib.h:2035-2045 | a percent sign and two digits of either case, before any text, stand for that byte |
| PercentExact.FourDigits | sgx/src/include/httplib.h:2023-2034 | a percent sign, `u` and four digits stand for that code point in UTF-8 |
| PercentExact.OtherChar | sgx/src/include/httplib.h:2022-2053 | any other character, a percent sign without its digits too, stands for itself, a plus sign perhaps for a space |
| PercentExact.Utf8Inverts | sgx/src/include/httplib.h:1856-1886 | the bytes of every code point are the well-formed UTF-8 that decodes to it, and a surrogate has none |
| QueryStrings.Trim | sgx/src/include/httplib.h:2073-2082 | both ends after the spaces and tabs there are skipped |
| QueryStrings.TrimSegment | sgx/src/include/httplib.h:2089-2107 | although trimming scans past a segment on both sides, it leaves the segment trimmed or nothing |
| QueryStrings.SplitText | sgx/src/include/httplib.h:2089-2107 | the callback gets the segments between delimiters, trimmed, without the empty ones, in order |
| SplittingExact.SegmentsExactly | sgx/src/include/httplib.h:2089-2107 | the segments of a text are the one way to join it from texts without delimiters |
| SplittingExact.SplitExactly | sgx/src/include/httplib.h:2089-2107 | splitting a joined text gives its segments stripped of spaces and tabs, in order, without the blank ones, and nothing else |
| QueryRoundTrip.ParamsToQueryStr | sgx/src/include/httplib.h:3501-3511 | pairs joined by ampersands, values percent-coded |
| QueryRoundTrip.ParsePair | sgx/src/include/httplib.h:3520-3532 | first piece the key, last other piece the value, decoded and inserted behind equal keys |
| QueryRoundTrip.ParseQueryText | sgx/src/include/httplib.h:3513-3534 | texts of pairs in order, repeated ones skipped |
| QueryReads.PairReads | sgx/src/include/httplib.h:3520-3532 | for any text joined by equals signs: key the first stripped piece, value the last of the others or empty, both decoded |
| QueryReads.QueryReadsAs | sgx/src/include/httplib.h:3513-3534 | for any text joined by ampersands: its stripped pieces are read in order, each text once |
| QueryReads.InsertExactly | sgx/src/include/httplib.h:3529 | a pair goes behind the last entry whose key is not above its own; nothing else moves and the order is kept |
| QueryRoundTrip.PairTextInjective | sgx/src/include/httplib.h:3515-3518 | different pairs have different texts, so skipping repeated texts skips only repeated pairs |
| QueryRoundTrip.RoundTrip | sgx/src/include/httplib.h:3501-3534 | with keys that fit, parsing a written multimap gives the first occurrence of each pair, and the multimap itself if and only if its pairs are distinct |
| QueryRoundTrip.UnreservedFits | sgx/src/include/httplib.h:1965-1984 | a key of characters the encoder leaves alone fits |
| QueryRoundTrip.RepeatedPairLost | sgx/src/include/httplib.h:3515-3518 | a pair written twice is parsed once |
| QueryRoundTrip.EmptyKeyLost | sgx/src/include/httplib.h:3501-3534 | the empty key with value `x` is written as `=x`, which parses as the key `x` with an empty value |
| QueryExact.PairExactly | sgx/src/include/httplib.h:3504-3532 | a written pair is parsed as itself, into any parameters, if and only if its key is not empty, has no `=`, no outer space or tab, and decodes to itself |
| QueryExact.RoundTripExactly | sgx/src/include/httplib.h:3501-3534 | for every multimap, parsing its written form gives it back if and only if all its keys fit, an ampersand excluded too, and its pairs are distinct |
| Paths.WalkIsStaysBelow | sgx/src/include/httplib.h:1937-1961 | walking without dropping below level zero is the same as counting steps up and down over every prefix |
| Paths.IsValidPath | sgx/src/include/httplib.h:1928-1963 | true if and only if over every prefix of the components that slashes join to the path, empty ones and `.` aside, steps `..` are at most the others; its loops end and its assertion holds |
| CollatorSelection.PositionOf | pallets/collator-selection/src/lib.rs:387-390 | the first candidate entry of an account |
| CollatorSelection.Storage.constructor | pallets/collator-selection/src/lib.rs:222-242 | the storage at genesis |
| CollatorSelection.Storage.SetInvulnerables | pallets/collator-selection/src/lib.rs:284-298 | only the invulnerables change |
| CollatorSelection.Storage.SetDesiredCandidates | pallets/collator-selection/src/lib.rs:301-313 | only the desired number changes |
| CollatorSelection.Storage.SetCandidacyBond | pallets/collator-selection/src/lib.rs:316-324 | only the bond for later registrations changes |
| CollatorSelection.Storage.RegisterAsCandidate | pallets/collator-selection/src/lib.rs:327-363 | every refusal in its order, or the new candidate, its reserved bond and its grace period |
| CollatorRules.RegisterExactly | pallets/collator-selection/src/lib.rs:327-363 | an account enters if and only if there are fewer candidates than desired, it is neither invulnerable nor a candidate, has a registered validator, and the bond is zero or free and liquid; it is then last, under that bond, reserved from its balance alone; a refusal changes nothing |
| CollatorRules.RefusalExactly | pallets/collator-selection/src/lib.rs:330-351 | each error if and only if its condition holds and none before it does |
| CollatorSelection.Storage.LeaveIntent | pallets/collator-selection/src/lib.rs:366-375 | refused at the minimum, otherwise as removal |
| CollatorRules.LeaveExactly | pallets/collator-selection/src/lib.rs:366-398 | a candidate leaves if and only if there are more than the minimum; its first entry is taken out and its deposit goes back; the two errors, and nothing changed by them |
| CollatorSelection.Storage.TryRemoveCandidate | pallets/collator-selection/src/lib.rs:384-398 | the first entry of the account is removed and its recorded deposit given back |
| CollatorSelection.Storage.KickStaleCandidates | pallets/collator-selection/src/lib.rs:409-434 | storage and survivors after walking a snapshot while storage changes |
| CollatorSelection.Storage.NewSession | pallets/collator-selection/src/lib.rs:467-486 | the collators of the next session and the storage left |
| CollatorSelection.Storage.NoteAuthor | pallets/collator-selection/src/lib.rs:442-458 | half of the pot above its deposit goes to the author, whose last block is now |
| CollatorRuns.KickIsGreedy | pallets/collator-selection/src/lib.rs:409-434 | the walk that mutates storage equals removing the first stale candidates within the budget, and none of its removals fails |
| CollatorRuns.SessionIsGreedy | pallets/collator-selection/src/lib.rs:467-486 | exactly the first min(stale, max(0, length - minimum)) stale candidates go, in list order; the result is the invulnerables and then the stored survivors |
| CollatorRuns.StaysExactly | pallets/collator-selection/src/lib.rs:409-434 | an account is a candidate after the session if and only if one of its entries before it is not stale, or is stale with the budget used up before it |
| CollatorRuns.CollatorsDistinctExactly | pallets/collator-selection/src/lib.rs:403-486 | the collators are distinct if and only if the invulnerables are and every candidate stored before the session that is one of them is stale and within the budget |
| CollatorRuns.NamedTwice | pallets/collator-selection/src/lib.rs:284-298 | from genesis, a registration followed by naming the account invulnerable makes a session that lists it twice |
| CollatorRuns.CollatorsDistinct | pallets/collator-selection/src/lib.rs:403-407 | the collators are distinct if the invulnerables were, and none was a candidate |
| CollatorRuns.RunInvariant | pallets/collator-selection/src/lib.rs:284-458 | in every run from genesis candidates are in registration order, each account's reserved balance is its recorded deposit or zero, and its last block is what an observer saw |
| CollatorRuns.MoneyConserved | pallets/collator-selection/src/lib.rs:327-458 | no call changes the total of free and reserved balances, and only a reward moves any between accounts |
| CollatorRuns.RefundExact | pallets/collator-selection/src/lib.rs:384-398 | leaving and being kicked give back exactly the deposit recorded at registration |
| CollatorRuns.MinimumKept | pallets/collator-selection/src/lib.rs:366-434 | no call takes the count of candidates below the minimum it had |
| CollatorRuns.LivenessGrace | pallets/collator-selection/src/lib.rs:412-421 | a kicked candidate last authored at least one threshold ago, or registered at least two ago and never authored since |
| CollatorRuns.GraceOverRuns | pallets/collator-selection/src/lib.rs:347-421 | the same of every run from genesis, through leaving, being kicked and registering again |
| CollatorRules.KickedExactly | pallets/collator-selection/src/lib.rs:409-434 | in every run from genesis a session takes a candidate out if and only if, by the calls, it authored a threshold ago, or entered two ago and never authored since, and more than the minimum are left after the idle ones before it |
| CollatorRules.InOrderOfEntry | pallets/collator-selection/src/lib.rs:344-358 | in every run candidates stand in the order of the calls that made them candidates |
| CollatorRules.CountBounded | pallets/collator-selection/src/lib.rs:331-332 | in every run from genesis there are at most as many candidates as the greatest number ever desired |
| CollatorRules.SessionsDistinct | pallets/collator-selection/src/lib.rs:284-333 | if the invulnerables set are distinct and no candidates when set, or none are set after genesis, no invulnerable is ever a candidate and every session's collators are distinct |
| CollatorRules.SettingsAre | pallets/collator-selection/src/lib.rs:284-324 | in any run from any state the invulnerables, the desired number and the bond are the last ones set |
| CollatorRuns.PotDecay | pallets/collator-selection/src/lib.rs:442-452 | after k rewards the pot's excess e is e/2^k rounded up, and the rest of it is what the authors were paid |
| CollatorRuns.PotFloor | pallets/collator-selection/src/lib.rs:444-451 | a pot at or above the existential deposit stays there through any number of rewards, whoever authors |
| CollatorRules.RewardExactly | pallets/collator-selection/src/lib.rs:442-452 | an author is paid half of what the pot has above its deposit if and only if that leaves it at the existential deposit; no other balance changes, and its last block is now in any case |
| CollatorRules.RewardLost | pallets/collator-selection/src/lib.rs:447-451 | with a deposit of 10 and 14 in the pot, an author that has nothing is not paid |
| Balances.SumSet | pallets/collator-selection/src/lib.rs:344-391 | the total of a balance map after one balance changes |
| Balances.TransferExactly | pallets/collator-selection/src/lib.rs:450 | the transfer goes through if and only if there is enough and both sides are left at the existential deposit, and moves just the amount |
| VerifierPallet.Verifier.Request | pallets/verifier/src/lib.rs:202-211 | the queue after a request |
| VerifierPallet.Verifier.SubmitResultUnsignedWithSignedPayload | pallets/verifier/src/lib.rs:213-236 | refusals and the appended record |
| VerifierPallet.Verifier.AddPubkey | pallets/verifier/src/lib.rs:239-252 | the key list grows at its end |
| AttestationService.StateOfSteps | pallets/verifier/src/lib.rs:202-252 | in any run from any state the keys are those there were and all registered, in order, and the requests are those made, each at its block |
| AttestationService.KeyAccepted | pallets/verifier/src/lib.rs:213-252 | whatever was registered before, once a key is registered a verifying call in its window signed by it is accepted |
| AttestationService.SubmitExactly | pallets/verifier/src/lib.rs:213-236 | refused as InvalidPublic if and only if the key is not in the list, as InvalidSignature if and only if it is and the signature fails, with nothing changed; otherwise the record is appended to its own list only |
| AttestationService.ValidateExactly | pallets/verifier/src/lib.rs:431-445 | the three refusals of the pool, each if and only if its condition holds and none before it does |
| VerifierPallet.Verifier.OffchainWorker | pallets/verifier/src/lib.rs:264-323 | the calls sent for a block's queue, in the iterator's order, entry by entry, up to a trap |
| AttestationService.WorkSigns | pallets/verifier/src/lib.rs:264-323 | a run signs every entry that resolves before the first trap, once, in the iterator's order, nothing else, and sends each to the pool under the run's block |
| AttestationService.WorkMayRun | pallets/verifier/src/lib.rs:264-280 | in every state the worker can run for every block up to the present one, in some order of its entries, whatever its surroundings answer |
| Attestation.StepKeeps | pallets/verifier/src/lib.rs:202-323 | every step of chain, workers and pool keeps the protocol's invariant |
| AttestationService.PoolIsOpen | pallets/verifier/src/lib.rs:502-518 | the hostile pool: any call can be put in at any time but one with an honest key's signature that was not made, and any call in its window that verifies can be included, again and again |
| Attestation.Provenance | pallets/verifier/src/lib.rs:213-323 | every stored result is what the resolver answered a worker run for some block n, about evidence asked about at block n - VerifyDelay, and was stored no earlier than n, however pool messages are repeated, delayed or made up |
| Attestation.VerifiedRecord | pallets/verifier/src/lib.rs:431-518 | every entry names its own account and key, verifies, was signed by a key registered then and since, and was accepted within EvidenceLifetime of the block in its call |
| Attestation.WindowExactly | pallets/verifier/src/lib.rs:431-445 | in every reachable state, a signed result with a registered key can be accepted at a block not yet past, under a number in the call, if and only if the number is at most that block and at most EvidenceLifetime below it |
| Attestation.AgeExactly | pallets/verifier/src/lib.rs:213-236 | for a call that has not expired, a result signed for block n is accepted no later than n + EvidenceLifetime in all continuations if and only if the number in the call is at most n |
| Attestation.AcceptedLate | pallets/verifier/src/lib.rs:431-445 | a run from genesis whose result for block 0 is accepted in block 4 with a lifetime of 1 |
| Attestation.OnlyAppends | pallets/verifier/src/lib.rs:213-252 | result lists and the key list only ever grow at their end |
| Attestation.FrozenQueue | pallets/verifier/src/lib.rs:202-210 | once block n - VerifyDelay has passed the queue for n never changes |
| Attestation.QueueHoldsLast | pallets/verifier/src/lib.rs:202-210 | it holds an entry for an account if and only if that account asked in block n - VerifyDelay: its last evidence, under its own name |
| Attestation.SameWork | pallets/verifier/src/lib.rs:264-280 | with a delay of at least one block, repeated and late worker runs for a block go over the same entries |
| AttestationService.RequestServed | pallets/verifier/src/lib.rs:202-323 | whatever else happens, the run for the block VerifyDelay after a request finds it, and if it resolves and the worker's key is registered the result can be stored at once, behind those there are |

## Left out

- Json.h: floating-point numbers and exponents, pairs, memory management, diagnostics, and the second copy of each parser over `std::string`.
- JsonParser.Parser.ParseNumber: decimals, exponents and the exceptions of `std::stol` are one outcome, `None`; the model has no floating-point values.
- JsonParser.Load: reading past the end of an unterminated text, exceptions of `std::stol`, and undefined behaviour on malformed typed literals are one outcome, `None`.
- JsonTheorems.TypedRoundTrip: keys of plain objects are taken as they are stored and printed, already escaped; keys of ordered objects are non-empty.
- OrderedHistories.InsertionOrder: no operation meets a live key that `json_escape` changes; where one does, `OrderedObjects.LostBijection` says what goes wrong.
- Multipart: regular-expression matching of header lines (an uninterpreted function), and the HTTP plumbing around the parser.
- MultipartTheorems.ChunkIndependence: callbacks accept what they are given; their refusals are modelled in `Multipart.MultipartFormDataParser.Parse`.
- WorkerPool: exceptions thrown by a job, and thread creation failing; jobs are taken to finish.
- Chunked.WriteContentChunked: compression; a write that moves nothing for ever is not modelled; a server that shuts down is one whose provider has no further calls.
- Sockets, TLS, the client, redirects, routing, ranges and file serving of httplib.h.
- CollatorSelection: origins, events, weights, session-key rotation and block-number overflow.
- Balances: the currency is modelled by the contracts of reserve, unreserve and transfer; no other pallet reserves or slashes.
- VerifierPallet: the HTTP call, JSON reading and account decoding of the resolver (its answers are inputs), the signature scheme (a predicate), pool tags and priorities, chain reorganisations, and block-number overflow.
- Attestation.Provenance: registered keys sign only inside the worker and cannot be forged, as its step relation says.
- SGX enclave calls, OpenSSL, logging, node and runtime wiring, and the pallet tests of the former price oracle.
