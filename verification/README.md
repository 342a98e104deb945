# A verified model of the mock tracer

The mock tracer of opentracing-cpp starts spans, carries their contexts between
processes, and prints the finished ones as JSON. This project models that tracer
in Dafny: the wire form of a span context and its Base64 text, the carriers, the
JSON printer, the life of spans over whole runs and under interleaved calls, the
recorder that writes the JSON, and the parser of the tracer's configuration.

Code that updates things in place is a class or a method with loops, and each
method is proved equal to a function on values. The laws are lemmas about these
functions. The files follow the source:

| file | source | content |
|---|---|---|
| `Bytes`, `Seqs`, `StdMap`, `Streams`, `SpanData` | `utility.cpp`, `recorder.h`, standard library | byte order, `std::map` order, streams with sticky state, plain data |
| `Base64` | `base64.cpp` | encoder and decoder on bit vectors against RFC 4648, sections 3.5 and 4 |
| `Wire`, `WireLaws`, `ByteOrder` | `propagation.cpp` | the binary form: round trip, framing, truncation, normal form, byte order |
| `TextMap`, `TextMapLaws` | `propagation.cpp` | text maps and HTTP headers |
| `JsonText`, `SpanText` | `json.cpp` | the printer, with the stream's number base as state |
| `JsonReader`, `JsonLaws`, `SpanTextLaws`, `JsonCompact`, `DocumentLaws` | `json.cpp` | a reader of RFC 8259 texts, and what the printed text means to it, member by member |
| `JsonRecorders` | `json_recorder.cpp` | the recorder and its conservation law |
| `MockSpans`, `SpanRuns`, `FinishRace` | `mock_span.cpp`, `mock_span_context.cpp` | spans, runs of many spans, interleaved finishing |
| `Tracers`, `TracerRuns` | `tracer.cpp` | injection and extraction as callers see them, and runs with a recorder attached |
| `Config` | `tracer_factory.cpp` | the configuration parser |

## Conventions

- A `char` is a character below 256. Its signedness shows in the source only in
  `base64.cpp:68-98`, where a negative one would index the decoding table out of
  bounds; the table's upper half is 64 throughout, so the model gives such
  characters the value 64. The statements about decoding are the source's own
  for ASCII input.
- The byte order of the host is a parameter of everything that depends on it.
- An output stream has the text it took, an optional capacity and a good bit; an
  input stream has the unread bytes and the eof and fail bits, and a short read
  stores what there is.
- Clocks and identifier sources are parameters. Times are 64-bit nanosecond
  counts, and differences that leave that range wrap around.
- A span's copy of its context is indeterminate until the span is finished; nothing
  reads it before, and the model starts it as zero.
- What a move leaves behind in an object is arbitrary: the laws hold whatever it is.
- Dictionaries are given by their entries in iteration order, and the text of a
  finite double is given with it.
- A mutex makes a method one step. Only finishing is also modelled in smaller
  steps, because it does not take the span's mutex.

## Findings

Where a law that one would expect is false of the code, the code is kept, a
lemma gives the exact condition, and another one an input that shows it.

- The size fields of strings are in the writer's byte order
  (`propagation.cpp:14-15`), while identifiers and count are little-endian. A
  context survives between hosts exactly when its pairs, in some order, are laid out
  by the reading host as the writing host lays them out (`ByteOrder.SurvivesExactly`).
  In terms of sizes: where no two strings have sizes that are each other's byte
  reversal, exactly when every size reads the same both ways
  (`ByteOrder.SurvivesBySizes`); below 65536 bytes a string, exactly when the baggage
  holds no byte (`ByteOrder.CrossEndianExactly`). One key of one byte is enough to
  make it fail (`ByteOrder.CrossEndianFailsAt`), and two pairs with mirrored sizes
  can survive by holding the bytes of each other (`ByteOrder.MirroredSurvives`).
- The stream is checked only after each pair of the baggage
  (`propagation.cpp:82`). A context cut inside its 20-byte header is accepted
  exactly when the bytes left of the count are zero (`WireLaws.Truncation`), and
  the tracer then hands out the partial context, from a stream
  (`Tracers.PartialContextExactly`) as from a cut text or header value
  (`Tracers.PartialTextExactly`). Cut after eight bytes, it keeps only its trace
  identifier (`WireLaws.CutAfterTraceId`).
- `LookupKey` at `propagation.cpp:124-131` returns the carrier's own answer and uses
  `key_compare` in the scan only, so a header carrier that looks names up exactly
  does not find a re-cased name that a scan would find. With such a carrier a context
  is extracted exactly when a header has the very name it was put in
  (`TextMapLaws.ByExactName`), and lookup and scan agree on an absent key exactly when
  no other key matches it (`TextMapLaws.LookupsAgree`). A header `K` and the key `k`
  show it (`TextMapLaws.RecasedHeaderMissed`).
- `propagation.cpp:65` sets the eof bit when there is no context, so the next
  extraction reports an error instead of "no span" (`WireLaws.SelfDelimiting`).
- `base64.cpp:44` computes a size in `int`. For texts whose length modulo 2^32 is
  2^31 or more, or is 0 with a padded text, `reserve` throws `length_error`
  (`Base64.DecodingThrows`), which no caller catches; the end-to-end round trips
  have this as a condition of their own. The encodings of 0x6000_0000 octets are
  such texts (`Base64.ReserveThrowsAt`).
- `std::hex` at `json.cpp:39` is never undone. After a control character other
  than `\b`, `\n`, `\r` and `\t`, integers are printed in base 16, on later
  `Close` calls too. A value is read back as meant exactly when no integer
  outside 0..9 comes after such a character (`JsonLaws.ReadsBackExactly`), and so
  is all that a recorder writes (`JsonRecorders.DocumentsReadBackExactly`);
  otherwise a reader may silently get another number (`SpanTextLaws.StickyHex`),
  and one such character in a `Close` spoils the next one
  (`JsonRecorders.EscapeReachesNextClose`).
- `json_recorder.cpp:22-24` clears the pending spans whether or not the stream
  took them. A run is written in full exactly when it prints nothing, or the stream
  is good before it and has room (`JsonRecorders.SinkExactly`); on a full sink the
  spans are lost (`JsonRecorders.FullSinkLoses`).
- `SetBaggageItem` uses `emplace` (`mock_span.cpp:184`): the first binding of a
  key stays, also when it was inherited (`SpanRuns.FirstSetWins`), although the
  interface (`include/opentracing/span.h:142-143`) speaks of setting a pair.
- On a mismatch inside a token the configuration error points one character past
  the mismatch (`tracer_factory.cpp:38-41`, `Config.Consume`); the model keeps that.

## Model

| member | source | states |
|---|---|---|
| Bytes.SwapEndian | mocktracer/src/utility.cpp:11-26 | the result is the number whose bytes in memory are those of the argument in reverse |
| Bytes.IsBigEndianExactly | mocktracer/src/utility.cpp:31-38 | the test on the first byte of 0x01020304 is true on big-endian hosts and only there |
| Bytes.SwapEndianIfBig | mocktracer/src/utility.cpp:40-54 | on either architecture the bytes in memory of the result are the argument in little-endian order |
| Bytes.SwappedIfBigInvolutive | mocktracer/src/utility.cpp:40-54 | converting twice is the identity |
| Bytes.LittleEndianAt | mocktracer/src/utility.cpp:40-54 | byte i of the little-endian layout is digit i of the number in base 256 |
| Base64.DigitIsTableEntry | mocktracer/src/base64.cpp:16-17 | the digit function is the 64-character alphabet |
| Base64.StepKeepsGroups | mocktracer/src/base64.cpp:121-138 | every octet keeps the encoder's invariant: the text is the complete six-bit groups so far and the carry is the leftover bits shifted into place, below 64 |
| Base64.Encode | mocktracer/src/base64.cpp:156-171 | the result is the definition of RFC 4648, section 4, on bit strings, and its length is (n+2)/3*4 |
| Base64.EncodeLast | mocktracer/src/base64.cpp:140-154 | the leftover bits become one digit, and the padding fills the quantum |
| Base64.TestVectors | mocktracer/src/base64.cpp:16-171 | the first vectors of RFC 4648, section 10, in character codes |
| Base64.Decode | mocktracer/src/base64.cpp:37-119 | the loop over groups, with its early returns, computes the decoding function, including the cases where `reserve` throws |
| Base64.DecodeOfEncoding | mocktracer/src/base64.cpp:37-171 | decoding the groups of an encoding gives the input, for every input; whether the decoder gets that far is `Base64.DecodingThrows` |
| Base64.EncodingOfDecode | mocktracer/src/base64.cpp:79-109 | a text that decodes is the encoding of its result, so there is no second spelling |
| Base64.StrictInverse | mocktracer/src/base64.cpp:37-171 | for every text whose length does not make `reserve` throw, the result is non-empty if and only if the text is the encoding of a non-empty input, and then it is that input |
| Base64.DecodingThrows | mocktracer/src/base64.cpp:42-55 | the decoder throws on a text exactly when its length modulo 2^32 is 2^31 or more, or is 0 with padding |
| Base64.ReserveThrowsAt | mocktracer/src/base64.cpp:44-55 | it throws on the encoding of any 0x6000_0000 octets |
| Base64.EncodingPrefix | mocktracer/src/base64.cpp:121-154 | the first 4k characters of an encoding, short of all, are the encoding of the first 3k octets |
| Base64.ReserveThrows | mocktracer/src/base64.cpp:44-55 | the same for encodings, by the length of the input |
| Streams.PutPut | mocktracer/src/propagation.cpp:43-49 | writing in pieces to a limited sink is writing the concatenation, so checking `good` once at the end sees every failure |
| StdMap.AssignAllItems | mocktracer/src/mock_span.cpp:55-59 | copying a map entry by entry with `operator[]` is the right-biased union |
| StdMap.LessExactly | mocktracer/src/mock_span_context.cpp:17 | one key comes before another exactly when they agree on some characters and there it ends or has the smaller byte |
| StdMap.ItemsExactly | mocktracer/src/mock_span_context.cpp:17 | a map is visited in the one sequence of its pairs in which every key comes before all later ones in that sense |
| StdMap.LastPairWins | mocktracer/src/mock_span.cpp:84-87 | assigning pairs with `operator[]`, as for start tags and extracted baggage, binds every key to its last value and no other key |
| Wire.WriteItems | mocktracer/src/propagation.cpp:38-41 | the loop writes the pairs in map order, each string with its size in host order |
| Wire.InjectSpanContext | mocktracer/src/propagation.cpp:26-52 | writes exactly the encoding, and succeeds if and only if the stream was good and had room for all of it |
| WireLaws.EncodingLayout | mocktracer/src/propagation.cpp:29-41 | the encoding byte by byte: both identifiers and the count from low byte to high, then the pairs in ascending order of the keys' bytes |
| Wire.ReadPairs | mocktracer/src/propagation.cpp:77-86 | the counted loop with its late check of the stream computes the pair-reading function from any stream state |
| Wire.ExtractSpanContext | mocktracer/src/propagation.cpp:54-88 | the stream, the context and the result are those of the extraction function for every stream state, short reads included |
| WireLaws.RoundTrip | mocktracer/src/propagation.cpp:26-88 | extraction of an encoding followed by anything merges it over what the context held and stops right behind it |
| WireLaws.RoundTripExactly | mocktracer/src/propagation.cpp:26-88 | the round trip into a new context gives the context back if and only if its sizes fit the wire form (count below 2^31, strings below 2^32) |
| WireLaws.ExtractionFits | mocktracer/src/propagation.cpp:19-24 | no input whatsoever makes extraction produce sizes that injection would cut |
| WireLaws.IdentifiersSurvive | mocktracer/src/propagation.cpp:29-32 | the identifiers survive for every baggage, also one that does not fit, and between any two hosts |
| WireLaws.SelfDelimiting | mocktracer/src/propagation.cpp:26-88 | extracting repeatedly from concatenated contexts gives them in order with the stream good in between; then no span, then an error |
| WireLaws.CutInBaggage | mocktracer/src/propagation.cpp:78-86 | every strict prefix with the full header extracts to an I/O error |
| WireLaws.Truncation | mocktracer/src/propagation.cpp:54-88 | the result of every prefix of an injected context, by its length, and what the context holds where a cut header is accepted: the low bytes that are left of the identifiers |
| WireLaws.AcceptedIsPairs | mocktracer/src/propagation.cpp:68-86 | whatever is accepted after a full header is the bytes of that many pairs, and the baggage is their last-wins map |
| WireLaws.PairsAccepted | mocktracer/src/propagation.cpp:68-86 | conversely every such byte string is accepted |
| WireLaws.NormalForm | mocktracer/src/propagation.cpp:38-41 | re-injecting an extracted context never takes more bytes than were consumed and extracts to the same context |
| ByteOrder.CrossEndianRoundTrip | mocktracer/src/propagation.cpp:13-37 | between byte orders the round trip holds when every size reads the same both ways, in particular for empty baggage |
| ByteOrder.SurvivesExactly | mocktracer/src/propagation.cpp:13-24 | a context that fits survives between two hosts if and only if some order of its pairs is laid out by the reading host in the same bytes |
| ByteOrder.SurvivesBySizes | mocktracer/src/propagation.cpp:13-24 | where no two strings have mirrored sizes, if and only if every size reads the same both ways |
| ByteOrder.MirroredSurvives | mocktracer/src/propagation.cpp:13-24 | two pairs with strings of 0x8080 and 0x8080_0000 bytes that survive although their sizes do not read the same |
| ByteOrder.CrossEndianExactly | mocktracer/src/propagation.cpp:13-37 | with keys and values below 65536 bytes and any number of them, it holds exactly when no key and no value holds a byte |
| ByteOrder.CrossEndianFails | mocktracer/src/propagation.cpp:13-24 | in an encoding below 65536 bytes any byte in the baggage makes extraction on the other host an I/O error |
| ByteOrder.CrossEndianFailsAt | mocktracer/src/propagation.cpp:13-24 | so does one key of one byte |
| WireLaws.CutAfterTraceId | mocktracer/src/propagation.cpp:68-88 | any context cut after eight bytes is accepted with its trace identifier and nothing else |
| TextMap.LookupKey | mocktracer/src/propagation.cpp:120-150 | fast lookup first, then the scan with its success-code exit, computes the lookup function |
| TextMap.ScanAnswers | mocktracer/src/propagation.cpp:133-149 | the scan answers the first matching entry, else the carrier's own error, else key-not-found, and never the code used to leave the loop |
| TextMap.FirstMatchIsFirst | mocktracer/src/propagation.cpp:135-145 | nothing is found exactly when no entry matches, and what is found belongs to the first match |
| TextMap.ExtractSpanContext | mocktracer/src/propagation.cpp:152-181 | every branch: absent key, carrier error, undecodable text, and the decoded bytes read as a stream |
| TextMap.InjectSpanContext | mocktracer/src/propagation.cpp:94-118 | the entry set is the Base64 text of the encoding, or the carrier's refusal is returned and nothing changes |
| TextMapLaws.SettingKeepsOthers | mocktracer/src/propagation.cpp:113 | setting a key leaves every other entry as it was and the key with its value |
| TextMapLaws.IEqualsExactly | mocktracer/src/propagation.cpp:201-208 | header names are equal exactly when their characters are, but for the codes 65 + k and 97 + k of a letter |
| TextMapLaws.CarrierErrorReturned | mocktracer/src/propagation.cpp:126-165 | the carrier's own error, from the lookup or the scan, reaches the caller; an absent key is no error |
| TextMapLaws.NotBase64 | mocktracer/src/propagation.cpp:167-178 | a value that is no Base64 text of any bytes is reported as corrupted |
| TextMapLaws.FromContextText | mocktracer/src/propagation.cpp:167-180 | both layers undone: extraction from a context's text is extraction from its encoding, unless the decoder throws |
| TextMapLaws.TextRoundTrip | mocktracer/src/propagation.cpp:94-188 | with either way of finding the key, the context comes back if and only if its sizes fit and the decoder can reserve for its text |
| TextMapLaws.TextMapRoundTrip | mocktracer/src/propagation.cpp:94-188 | the same after injecting into any map, with the entries offered in any order or looked up by name |
| TextMapLaws.HttpHeadersRoundTrip | mocktracer/src/propagation.cpp:190-211 | the same for headers after any change of the case of their letters and any re-ordering, when no other name differs from the key in case only; a carrier that looks names up has to have the very name |
| TextMapLaws.ByExactName | mocktracer/src/propagation.cpp:124-131 | with a carrier that looks names up exactly, the context comes back if and only if that very name is there and the sizes allow it; without the name there is no span |
| TextMapLaws.LookupsAgree | mocktracer/src/propagation.cpp:120-150 | exactly when a lookup in a map and a scan of its entries agree on an absent key, and when on a present one, under any comparison |
| TextMapLaws.FastLookupRefinesScan | mocktracer/src/propagation.cpp:124-133 | for text maps, where keys are compared as the map does, a carrier that looks keys up in its map extracts the same as one that can only offer the map's entries, in any order |
| TextMapLaws.RecasedHeaderMissed | mocktracer/src/propagation.cpp:124-131 | a header `K` that a scan finds for the key `k` and a lookup does not |
| TextMapLaws.CutText | mocktracer/src/propagation.cpp:167-180 | extraction from every strict prefix of a context's text: undecodable, too long for the decoder, or three quarters as many bytes of the encoding |
| JsonText.WriteEscapedString | mocktracer/src/json.cpp:13-47 | prints the quoted form and leaves the base hexadecimal if and only if it was or a `\u` escape was written |
| JsonText.WriteValue | mocktracer/src/json.cpp:105-174 | the visitor prints the text of the value in the current base at every point, with exact separators, and leaves the base as the value's strings determine |
| JsonLaws.ReadsBack | mocktracer/src/json.cpp:105-174 | a safe value followed by any delimiter is read back as its JSON value, up to exactly its end, at any depth |
| JsonLaws.Misread | mocktracer/src/json.cpp:37-40 | an unsafe value is never read back as what it means, whatever follows |
| JsonLaws.ReadsBackExactly | mocktracer/src/json.cpp:13-174 | read back if and only if no integer outside 0..9 follows a `\u` escape |
| JsonLaws.DecimalStaysSafe | mocktracer/src/json.cpp:36-45 | without characters that need `\u`, a stream that starts in decimal prints every number in decimal |
| JsonLaws.HexIsLarger | mocktracer/src/json.cpp:133-135 | digits that spell i in base 10 spell more in base 16, unless there is only one |
| JsonCompact.EscapeIs | mocktracer/src/json.cpp:17-44 | every character's text, by its code: the short escapes, lower-case four-digit ones for the other control characters, and any other character as it is |
| JsonCompact.TextIsCompact | mocktracer/src/json.cpp:105-174 | a safe value is printed as the compact text of its JSON value: no white space, no other separators, no other escapes |
| DocumentLaws.IntTextValue | mocktracer/src/json.cpp:133-135 | in decimal an integer's text has its value in base 10, and after a `\u` escape that of its two's complement in base 16 |
| DocumentLaws.ValueMeans | mocktracer/src/json.cpp:108-174 | what a value is read back as, kind by kind: numbers by their value, infinities and NaN by name |
| SpanText.SpanPieces | mocktracer/src/json.cpp:209-269 | the pieces a span is written in are the text of one value tree |
| SpanText.PlainId | mocktracer/src/json.cpp:49-57 | an identifier is sixteen characters that need no escape |
| SpanText.Micros | mocktracer/src/json.cpp:176-182 | whole microseconds, rounded towards zero: the rest is below one and has the time's sign |
| SpanText.WriteSpan | mocktracer/src/json.cpp:209-269 | prints the pieces in order, with the base that each member leaves to the next |
| SpanText.ToJson | mocktracer/src/json.cpp:271-282 | prints the array of the spans' trees and leaves the base as they determine |
| SpanTextLaws.DocumentReadsBack | mocktracer/src/json.cpp:271-282 | the document is one valid JSON text for the spans if and only if no integer outside 0..9 follows a `\u` escape |
| SpanTextLaws.PlainDocument | mocktracer/src/json.cpp:271-282 | it is, for any spans without control characters beyond the short ones, on a stream in decimal |
| SpanTextLaws.IdTextValue | mocktracer/src/json.cpp:49-57 | the digits written for an identifier have its value in base 16, in whichever base the writer is |
| SpanTextLaws.DocumentDetermines | mocktracer/src/json.cpp:59-282 | for documents without an integer outside 0..9 after a `\u` escape, equal documents mean equal identifiers, references, names, baggage, tags, logs and times in microseconds of every span |
| DocumentLaws.SpanMeans | mocktracer/src/json.cpp:59-269 | the object of a span, under the literal names of its members in their order: identifiers as sixteen lower-case digits of their value, "CHILD_OF" and "FOLLOWS_FROM" for the two kinds, times as whole microseconds, baggage and tags in key order, logs with their fields |
| DocumentLaws.DocumentMeans | mocktracer/src/json.cpp:271-282 | a reader of a safe document finds an array of these objects, one for each span in order, and the document is its compact text |
| SpanTextLaws.StickyHex | mocktracer/src/json.cpp:37-40 | a concrete array in which 16 is read back as 10 |
| JsonRecorders.JsonRecorder.RecordSpan | mocktracer/src/json_recorder.cpp:10-15 | the span is appended to the pending ones |
| JsonRecorders.JsonRecorder.Close | mocktracer/src/json_recorder.cpp:17-27 | the pending spans are printed as one array and cleared; nothing happens without a stream |
| JsonRecorders.SinkExactly | mocktracer/src/json_recorder.cpp:17-27 | from any state of the stream, the sink takes all arrays of a run if and only if there are none, or the stream is good before the run and has room for them |
| JsonRecorders.ArraysConserve | mocktracer/src/json_recorder.cpp:10-27 | after any run, the spans in the arrays printed followed by the pending ones are the ones pending before and every recorded one, once and in order; the sink has these arrays under the same condition |
| JsonRecorders.DocumentsReadBackExactly | mocktracer/src/json_recorder.cpp:22 | consecutive arrays are read back as what they mean if and only if no integer outside 0..9 follows a `\u` escape of the same or an earlier `Close` |
| JsonRecorders.ReaderFindsAll | mocktracer/src/json_recorder.cpp:10-27 | under exactly that condition, what a reader finds in what a run adds to a sink, followed by the pending spans, is every span once and in order |
| JsonRecorders.PlainRunSafe | mocktracer/src/json_recorder.cpp:10-27 | spans without `\u` escapes always meet it on a stream in decimal |
| JsonRecorders.EscapeReachesNextClose | mocktracer/src/json_recorder.cpp:17-27 | a span with an escape in one `Close` makes a span starting at 10 microseconds or later unreadable in the next |
| JsonRecorders.NoOutput | mocktracer/src/json_recorder.cpp:18-20 | without a stream every recorded span stays pending |
| JsonRecorders.FullSinkLoses | mocktracer/src/json_recorder.cpp:22-24 | on a full sink the pending spans are lost |
| MockSpans.VisitingStops | mocktracer/src/mock_span_context.cpp:13-22 | the first refusal is the last call, also of a callback whose answers depend on the calls before |
| MockSpans.MockSpanContext.ForeachBaggageItem | mocktracer/src/mock_span_context.cpp:13-22 | the loop visits the entries in map order until the callback refuses |
| MockSpans.MockSpanContext.Assign | mocktracer/src/mock_span_context.cpp:6-11 | the data moves over; the other context keeps its identifiers |
| MockSpans.MockSpanContext.CopyData | mocktracer/src/mock_span_context.cpp:24-29 | the copy is the data |
| MockSpans.MockSpanContext.Clone | mocktracer/src/mock_span_context.cpp:31-38 | a new object with the same data |
| MockSpans.StartTimesAgree | mocktracer/src/mock_span.cpp:14-37 | a given start time is kept; a missing one is as far from its clock's present as the other from its own; without any, both are the present |
| MockSpans.SetSpanReference | mocktracer/src/mock_span.cpp:39-62 | null and foreign contexts are refused; otherwise the reference has the context's identifiers and its baggage overrides what was there |
| MockSpans.MockSpan.constructor | mocktracer/src/mock_span.cpp:64-94 | the new span is the one that `Started` describes for the references as they were before |
| MockSpans.MockSpan.SetTag | mocktracer/src/mock_span.cpp:135-142 | one tag is assigned and nothing else changes |
| MockSpans.MockSpan.Log | mocktracer/src/mock_span.cpp:149-179 | one log record is appended and nothing else changes |
| MockSpans.MockSpan.SetBaggageItem | mocktracer/src/mock_span.cpp:181-188 | a new key is bound, a bound one keeps its value, and nothing else changes |
| MockSpans.MockSpan.BaggageItem | mocktracer/src/mock_span.cpp:190-202 | the key's value, or the empty string |
| MockSpans.MockSpan.FinishWithOptions | mocktracer/src/mock_span.cpp:102-125 | the first call hands the snapshot to the recorder, later ones change nothing |
| MockSpans.MockSpan.Destroy | mocktracer/src/mock_span.cpp:96-100 | an unfinished span is finished and recorded, a finished one is not recorded again |
| SpanRuns.StartExactly | mocktracer/src/mock_span.cpp:64-94 | a start adds one span and changes nothing else: its own span identifier, name and times, the last value of each start tag, kinds and identifiers of the valid references in order, the first one's trace identifier or a generated one, and the last binding of each baggage key |
| SpanRuns.DetachedExactly | mocktracer/src/mock_span_context.cpp:31-38 | a clone, or a context that is carried, is what it was made of, and nothing else changes |
| SpanRuns.SpanIdsDistinct | mocktracer/src/mock_span.cpp:92 | with fresh identifiers, no two spans of any run share a span identifier |
| SpanRuns.NothingExcluded | mocktracer/src/mock_span.cpp:64-202 | runs leave out no call, clone, transport or reference to what exists, before or after a finish |
| SpanRuns.FirstSetWins | mocktracer/src/mock_span.cpp:181-188 | after any calls a key has its first value: inherited, or else the first one set |
| SpanRuns.LastReferenceWins | mocktracer/src/mock_span.cpp:55-59 | a new span binds a key to the value of the last valid reference that binds it, and nothing else |
| SpanRuns.InvalidReferencesIgnored | mocktracer/src/mock_span.cpp:44-51 | dropping null and foreign references from a start never changes anything |
| SpanRuns.RunProjects | mocktracer/src/mock_span.cpp:102-188 | what a run does to a span and records from it depends on the calls on that span alone |
| SpanRuns.BaggageStays | mocktracer/src/mock_span.cpp:181-188 | over any run, identifiers never change and bindings never change or disappear |
| SpanRuns.BaggageExactly | mocktracer/src/mock_span.cpp:181-188 | the baggage of a span after any run, key by key |
| SpanRuns.DescendantsHold | include/opentracing/span.h:142-152 | along any path of references, clones and carriable transports begun later, descendants hold every key of the ancestor, and its bindings when each entity on the path has one parent, whatever happens off the path |
| SpanRuns.TraceForest | mocktracer/src/mock_span.cpp:75-93 | with fresh identifiers, two entities of any run, on hosts of any byte order, share a trace identifier if and only if they reach the same root along first valid references, clones and transports |
| SpanRuns.FirstReference | mocktracer/src/mock_span.cpp:73-82 | the stored references are the identifiers of the valid targets, in order |
| SpanRuns.ReceivedIds | mocktracer/src/propagation.cpp:26-188 | a context that arrives on any host has the sender's identifiers, and is the sender's context if its sizes can be carried and read alike |
| SpanRuns.RecordedSnapshot | mocktracer/src/mock_span.cpp:102-124 | the first finish, and only it, records: logs before it in order and then the option's, last name, last value per tag, identifiers, and baggage that the live context holds ever after |
| SpanRuns.SnapshotInRun | mocktracer/src/mock_span.cpp:102-124 | the same within a run of many spans |
| SpanRuns.RecordedOnce | mocktracer/src/mock_span.cpp:103-106 | a run records a span once if it finishes it and never otherwise |
| SpanRuns.RunAccounts | mocktracer/src/mock_span.cpp:103-124 | runs keep it that every span has one record if it is finished and none otherwise |
| FinishRace.RecordedExactlyOnce | mocktracer/src/mock_span.cpp:96-125 | in every interleaving a recorder gets the span at most once, and exactly once when the destructor has returned; the record is the snapshot of one of the calls |
| FinishRace.StepKeeps | mocktracer/src/mock_span.cpp:102-125 | every step of every thread keeps the invariant |
| FinishRace.OneInside | mocktracer/src/mock_span.cpp:103-106 | no two threads are ever past the exchange and not returned |
| FinishRace.AloneIsCall | mocktracer/src/mock_span.cpp:102-125 | uninterrupted, the steps amount to the single call |
| FinishRace.CanEnd | mocktracer/src/mock_span.cpp:96-125 | no schedule gets stuck: it can be run to the destructor's end, and then the recorder has got the span exactly once |
| Tracers.MockTracer.Inject | mocktracer/src/tracer.cpp:19-32 | the configured error, then a foreign context, leave the carrier alone; otherwise the codec's effect and result |
| Tracers.MockTracer.Extract | mocktracer/src/tracer.cpp:34-56 | the configured error first, with the carrier left alone; then the codec's error, null or a new context, never both |
| Tracers.MockTracer.StartSpanWithOptions | mocktracer/src/tracer.cpp:62-70 | a new span with the tracer's recorder |
| Tracers.StreamRoundTrip | mocktracer/src/tracer.cpp:78-98 | injected into a stream and extracted, a context comes back if and only if its sizes fit |
| Tracers.HeadersRoundTrip | mocktracer/src/tracer.cpp:88-106 | the same through headers in any case and order, with the decoder's condition; a carrier that looks names up has to have the very name |
| Tracers.NoPartialContext | mocktracer/src/tracer.cpp:48-55 | a context cut in its baggage is an error and exposes nothing |
| Tracers.PartialContextExactly | mocktracer/src/tracer.cpp:48-55 | exactly which cuts of a stream are handed out as a context, and with which contents |
| Tracers.PartialTextExactly | mocktracer/src/tracer.cpp:48-55 | the same for cuts of a text or header value, looked up or scanned for: at 4, 8, ..., 20 characters, and at 24 when the low half of the count is zero |
| Tracers.NoSpanExactly | mocktracer/src/tracer.cpp:48-55 | text and header carriers have no span if and only if the key is not found |
| Tracers.TransportIsInjectExtract | mocktracer/src/tracer.cpp:78-98 | the transport step of the runs is the tracer's injection on one host and extraction on another |
| TracerRuns.HandedIsRecorded | mocktracer/src/mock_span.cpp:122-124 | the recorder is handed exactly the spans that the run records, in that order |
| TracerRuns.FinishedSpansAreRead | mocktracer/src/tracer.cpp:72-76 | over whole runs of spans and closes, every span is recorded once if it is finished and never otherwise, and a reader of the output finds the recorded spans once each and in order, followed by those not closed yet, if and only if no integer outside 0..9 follows a `\u` escape; closing leaves none behind |
| Config.Consume | mocktracer/src/tracer_factory.cpp:31-44 | accepts exactly the given text, and otherwise reports the position and the rest at the first difference |
| Config.ConsumeWhitespace | mocktracer/src/tracer_factory.cpp:46-52 | stops at the first character that is no white space, or at the end |
| Config.ParseFilename | mocktracer/src/tracer_factory.cpp:59-80 | the run of filename characters up to the quotation mark, or the position and kind of the first character that cannot be in one |
| Config.ParseConfiguration | mocktracer/src/tracer_factory.cpp:82-94 | accepts what the parser on values accepts, with the same name, and otherwise reports its error, whose position lies within the text |
| Config.Accepted | mocktracer/src/tracer_factory.cpp:82-94 | every rendering of a filename, with any white space, parses back to it |
| Config.MissingToken | mocktracer/src/tracer_factory.cpp:31-57 | at whichever token the text fails, the error is at the token's place when too little text is left and else one past the first difference, with what was still expected |
| Config.UnendedFilename | mocktracer/src/tracer_factory.cpp:59-80 | a name that does not end is reported where it stops, by the kind of character there |
| Config.TrailingText | mocktracer/src/tracer_factory.cpp:88-91 | text after a configuration is reported where it starts |
| Config.ParsedExactly | mocktracer/src/tracer_factory.cpp:82-94 | the accepted texts are exactly the language, and the result is the name written there |

## Left out

- Dynamic loading and version checks: they call the operating system's loader.
- The no-op tracer, the global tracer registry, the in-memory recorder, error-category tables and tag constants: each is settled by reading one branch.
- The rest of `MakeTracer` after parsing: opening the file and its error messages.
- Random generation of identifiers and the clocks: the source's values are parameters, with freshness required only where `SpanRuns.TraceForest` says so.
- Formatting of finite doubles: the default precision is lossy and locale-dependent, so their text is taken as given and only required to be a JSON number.
- Failures of allocation and the exceptions caught to drop a call; of the exceptions only `length_error` is modelled, because it is decided by the input.
- Overlapping `Log`, `SetTag` or `SetOperationName` with a finish: `FinishWithOptions` does not take the span's mutex, so these are data races in the source.
- Character encoding: strings are bytes, and the JSON reader takes a byte above 127 as one character where RFC 8259 wants UTF-8.
- Streams other than sinks with a capacity: `flush` has no effect of its own here, and writes do not fail and recover.
- `ToTraceID` and `ToSpanID`: decimal renderings of the identifiers.
- ByteOrder.SurvivesBySizes: contexts in which no two strings have different sizes that are each other's byte reversal; where two have, sizes alone do not decide (`ByteOrder.MirroredSurvives`), and `ByteOrder.SurvivesExactly` gives the condition on the bytes.
- SpanTextLaws.DocumentDetermines: values that have the same JSON, such as a signed and an unsigned 5, are not told apart, because the text does not tell them apart; and documents that cannot be read back are not covered, because one of these may be the same text as a document that can (`SpanTextLaws.StickyHex`).
- SpanRuns.DescendantsHold: of an entity on the path with several parents only keys are promised, because a later reference may override a binding; `SpanRuns.LastReferenceWins` says to what.
