# A HomeKit accessory server, modelled and proved

The repository is a HomeKit accessory server for a small Wi-Fi chip. This project models
the parts where a mistake would be hardest to see: the request parser, the JSON writer and
the JSON tree parser and printer, the TLV8 and Base64 codecs, the stream cipher with its
authenticated mode and the encrypted frames of a session, the record log in flash memory,
the event queue, the sessions themselves, the button recogniser and the numbering of
characteristics. Main results are about whole inputs or whole runs.

Code that works by changing things is modelled by classes, arrays and loops, and every such
method is proved equal to a function or a state machine on values; what the repository
promises is then proved about that function.

* **Requests.** `HttpMachine` is the parser one byte at a time, with the marks, the header
  byte counter and the local variables of the inner loops made explicit; `HttpParser` is
  the object with its pointer, its `memchr` jump and its bulk body reads, equal to the
  machine on every input, errors and early returns included. `HttpInvariant` shows that no
  internal assertion can fail, `HttpCut` that cutting the input anywhere changes nothing as
  long as every value byte is one the value loop accepts and no piece overflows, `HttpLimit`
  exactly which cuts overflow the header counter, with one that does. `HttpMethod`,
  `HttpHeader`, `HttpConnection`, `HttpMessage` and `HttpTrailer` say what is accepted as a
  method, recognised as a header, heard in a list of connection options, and read as a length,
  a chunk with its extension, a body and a trailer. `HttpRequest` puts them together: requests
  sent one after the other on a connection, cut anywhere, give each callback exactly its bytes.
* **JSON.** `JsonWriter` is the streaming writer with its flush buffer; `JsonDocument`
  shows that exactly the calls of a tree reach the end, and when the blocks add up to the
  printed tree. `CJsonText`, `CJsonGrammar`, `CJsonParser`, `CJsonPrinter`, `CJsonUnicode`
  and `CJsonRoundTrip` do the same for the tree library: printing fails only when the text
  does not fit, and parsing what was printed gives the tree back exactly up to the nesting
  limit. `ChunkEncoder` and `SecureDocument` follow a document through chunks, encrypted
  frames and back out of the request parser.
* **Codecs.** `Tlv8`, `TlvList`, `Base64` and `ValuePath`: what survives fragments, Base64
  text and a JSON string, and what is glued together on the way.
* **Cryptographic framing.** `ChaCha`, `Aead` and `Framing`. Poly1305 is a parameter.
* **State.** `PairingLog` and `PairingStore` (a log on memory whose bits can only be
  cleared), `RingQueue` and `Events` (what a client is told), `Sessions`, `PairedSessions`
  (which sessions end when a device is removed), `Button`, `Identifiers`.

Where the code departs from what its comments or tables suggest, the model follows the code:

* `unhex` lists 128 entries only, so bytes above 127 count as the digit 0 of a chunk size.
* The header name and value matchers compare with `c | 0x20`, which also changes
  characters that are no letters, and `parser->index` has seven bits.
* The value matcher starts anew on a folded line, as on a header it does not know, so a
  `Transfer-Encoding: chunked` folded onto a second line announces nothing
  (`HttpHeader.FoldedCodingValue`).
* In a Connection list the comma after an unfinished word is taken for a wrong letter, so
  in "c,close" the word close is not heard (`HttpConnection.MissedClose`); a tab, or anything
  else that begins no token, ends the reading of the list. The words heard are those of the
  items the matcher reaches, and of no others (`HttpConnection.ReachedHeard`).
* The length limits of Content-Length and chunk sizes are conservative: a length is refused
  as soon as the digits before its last exceed the limit.
* `nread` is not reset after the trailers of a chunked message, and a call that ends inside
  a header field or value is charged one byte more; the `memchr` skip of a general value
  checks only the first byte it meets.
* `parse_hex4` returns 0 for characters that are no hexadecimal digits, so a malformed
  `\u` escape is read as a NUL character (`CJsonUnicode.BadDigitsAreNul`).
* Coalescing through a queue that gives its newest record first leaves the oldest of the
  queued values of a characteristic, not the newest (`Events.OldestOfLastFour`).
* For one to seventeen bytes of a frame the room `client_decrypt_` asks for is a number
  below zero taken as unsigned (`Framing.ShortInput`).
* Compacting the pairing store erases it. `homekit_storage_reset` answers 1 once it has
  formatted the sector, `compact_data` takes that for a failure, and the records it has
  gathered are not written back; the accessory's id and key are erased with them. This
  happens when no slot is blank and fewer than sixteen hold records: after sixteen pairings,
  one removed, a seventeenth device ends up alone (`PairingStore.LostByAdding`), and a change
  of permissions leaves the changed record alone, or nothing when it stood in the first slot
  (`PairingStore.LostByUpdating`).
* A session remembers the slot of its device. An update moves the record to another slot, so
  removing the device afterwards does not end its sessions (`PairedSessions.MarkedExactly`).
* Of several frames that arrive in one read each is decrypted over the one before, and the
  bytes of all are counted as received (`Framing.FramesInOneRead`).
* An `update` of a pairing that stops between its two writes leaves two records, and a later
  `remove` takes out one of them (`PairingLog.RemovedWhenSingle`).

## Model

| member | source | states |
|---|---|---|
| HttpParser.HttpParser.Execute | src/http_parser.c:635-2090 | the call on any data leaves the fields, makes the callbacks and returns the count of the byte-at-a-time machine, errors, overflow and upgrades included |
| HttpParser.HttpParser.Jump | src/http_parser.c:1536-1560 | the two `memchr` searches stop at the nearest CR or LF within the window, or at the end of the data |
| HttpParser.HttpParser.ReadBody | src/http_parser.c:1883-1917 | a body or chunk is taken in one stride equal to feeding its bytes one by one |
| HttpParser.HttpParser.ScanField | src/http_parser.c:1299-1411 | the name loop is the machine's, byte for byte |
| HttpParser.HttpParser.ScanValue | src/http_parser.c:1507-1696 | the value loop, with its skip, is the machine's, byte for byte |
| HttpParser.HttpParser.EndLine | src/http_parser.c:1511-1526 | a value ends on CR or LF with the callback and the overflow check in the source's order |
| HttpParser.SkipRun | src/http_parser.c:1536-1560 | everything a `memchr` jump passes over, the machine's skip swallows, and nothing else |
| HttpInvariant.AssertsNeverFail | src/http_parser.c:1937-2041 | in a sound run each state's assertion holds when it is reached |
| HttpInvariant.AssertsNeverFailInAnyRun | src/http_parser.c:1888-2076 | no internal assertion fails in any series of calls from a new parser; at most one mark is ever set |
| HttpInvariant.StepGood | src/http_parser.c:703-2060 | one byte keeps the invariant of states, header states, lengths, flags and marks, or fails with an error code |
| HttpInvariant.SwitchSound | src/http_parser.c:711-2053 | each state's action leaves a sound parser or an error other than overflow |
| HttpInvariant.SwitchFlow | src/http_parser.c:105-152 | each action takes the mark its state may have to the mark its next state may have |
| HttpInvariant.ExecuteKeepsInv | src/http_parser.c:635-2090 | a call that reports no error leaves the invariant for the next |
| HttpCut.CutIndependence | src/http_parser.c:678-701 | a clean input parsed without error in one call ends in the same fields (but the byte counter), with the same callbacks once pieces of data are joined, however it is cut, unless a piece overflows |
| HttpCut.UncleanCutFails | src/http_parser.c:1528-1560 | cleanness is needed: an accepted input with a byte the value loop refuses has a cut that fails |
| HttpLimit.UncleanAccepted | src/http_parser.c:1528-1560 | there are such inputs: a request whose value holds a refused byte behind two letters or more is accepted whole and fails with the header-token error when it is cut right before that byte |
| HttpCut.ExecuteOwes | src/http_parser.c:1691-1696 | a call charges the counter no more than one byte beyond the bytes it consumed |
| HttpLimit.CutExactly | src/http_parser.c:154-162 | of an input accepted whole, a cut is accepted exactly when its header bytes, counted from reset to reset, one more for each piece that ends inside a name or value, stay within the limit; every other cut ends in HEADER_OVERFLOW |
| HttpLimit.CutIndependenceWithinLimit | src/http_parser.c:154-162 | so a cut changes nothing when the header bytes between resets leave as much of the limit as there are cuts inside names and values; bodies and chunks of any size are not counted |
| HttpLimit.FullHeaderOverflows | src/http_parser.c:1691-1696 | a request that fills the counter to its last byte is accepted whole, and overflows when it is cut anywhere inside its value |
| HttpLimit.StepAccounted | src/http_parser.c:703-2060 | a byte is charged once, or resets the counter; beyond the limit the call fails at once or at the end of the loop |
| HttpRequest.RequestsMessage | src/http_parser.c:635-2090 | any number of requests on one connection, in any pieces, are accepted exactly when the pieces fit the header limit; then the callbacks, joined, are for each request its begin, URL, every name and value, end of headers, body and completion, and the connection stays open exactly if the last request asks for that |
| HttpRequest.RequestRun | src/http_parser.c:903-1932 | the same for one request met anywhere in a call, the header counter back at zero after it |
| HttpRequest.FieldsStand | src/http_parser.c:1249-1736 | any list of ordinary, Connection and Content-Length fields gives its names and values to the callbacks, and the length and flags it says |
| HttpRequest.UrlText | src/http_parser.c:1054-1125 | the URL is accepted when the URL table allows each character, and reaches on_url whole |
| HttpRequest.HeadersStand | src/http_parser.c:1776-1881 | the empty line announces the headers and then awaits a body of the length said, or completes the message |
| HttpMessage.SizeDigits | src/http_parser.c:1935-1986 | hexadecimal digits are accepted exactly when those before the last are within the limit, and give their value, below the sentinel |
| HttpMessage.SizeLine | src/http_parser.c:1935-2013 | a size line, with or without an extension, leaves the size its digits say and announces the chunk |
| HttpMessage.ExtensionRun | src/http_parser.c:1988-1997 | an extension, from a semicolon or space up to CR, changes nothing |
| HttpMessage.WholeChunk | src/http_parser.c:1935-2053 | a chunk of any size text, extension and bytes makes the three callbacks with exactly those bytes |
| HttpMessage.LastChunk | src/http_parser.c:1776-1835 | the empty chunk, with any extension, and the empty line end the message once |
| HttpMessage.DataRun | src/http_parser.c:2016-2041 | chunk bytes are taken under one mark, whatever they are, until the length is used up |
| HttpMessage.BodyRun | src/http_parser.c:1883-1932 | exactly content_length bytes go to on_body and then the message is complete |
| HttpMessage.ContentLengthBody | src/http_parser.c:1883-1932 | across any cut, on_body gets exactly the announced bytes in order, then one message_complete |
| HttpMessage.ChunkedBody | src/http_parser.c:1935-2053 | across any cut, the bytes of every chunk, with whatever extensions, reach on_body once, in order, and the message completes once |
| HttpTrailer.TrailerRun | src/http_parser.c:1249-1835 | whatever trailer is accepted after the last chunk, on_body gets nothing more and the message completes once |
| HttpTrailer.ChunkedMessage | src/http_parser.c:1776-2053 | chunks with extensions and any accepted trailer, in pieces: accepted exactly when the pieces fit the header limit, and then on_body has the chunks' bytes and the message completes once |
| HttpTrailer.FieldsAreTrailer | src/http_parser.c:1249-1835 | every list of fields other than Content-Length that the limit has room for is such a trailer |
| HttpMessage.ContentLengthValue | src/http_parser.c:1566-1591 | a Content-Length is accepted exactly when all but its last digit are within the limit; then it is the decimal value, not wrapped and not the sentinel |
| HttpMethod.MethodToken | src/http_parser.c:955-1052 | a request line's method is accepted exactly when it is one of the listed names, and becomes that method |
| HttpMethod.RerouteKeepsPrefix | src/http_parser.c:1014-1034 | changing the method while its letters arrive never contradicts the letters consumed |
| HttpHeader.HeaderName | src/http_parser.c:1249-1426 | after the request line or another header, a header is taken for connection, content-length, transfer-encoding or upgrade exactly when its name spells that word in any case |
| HttpHeader.TransferEncodingValue | src/http_parser.c:1592-1600 | on a line ended by CR LF or LF alone, with another header or the end of the headers behind it, the chunked flag is set exactly when the value is the word "chunked" with nothing but spaces after it; the next byte is refused only where a bare LF ends headers that announce a length as well |
| HttpHeader.FoldedCodingValue | src/http_parser.c:1709-1736 | a value folded onto a second line sets no flag, whatever its first line says |
| HttpConnection.ConnectionValue | src/http_parser.c:1602-1682 | the flags a Connection value sets are those of the words heard in its comma-separated items |
| HttpConnection.ReachedHeard | src/http_parser.c:1602-1682 | for every value, each flag is the old one or set by a word in an item that is reached: no item reached before it is empty or begins no token, and it is not right behind a reached item that breaks off inside a word |
| HttpConnection.AllHeard | src/http_parser.c:1602-1682 | all the words a list holds are heard exactly when each of them stands in an item that is reached |
| HttpConnection.WellFormedValue | src/http_parser.c:1602-1682 | so in a value that is a list whose items begin tokens and break off inside no word, exactly the words it contains are heard |
| HttpConnection.MissedClose | src/http_parser.c:1630-1640 | in "c,close" nothing is heard |
| JsonWriter.JsonStream.Write | src/json.c:74-97 | a piece is appended, or the buffer flushed first, or dropped when it cannot fit; the blocks so far stay |
| JsonWriter.JsonStream.Flush | src/json.c:65-72 | what waits becomes one block; nothing happens when nothing waits |
| JsonWriter.JsonStream.BeginObject | src/json.c:99-119 | the new place, nesting and output of the call, or the error state |
| JsonWriter.JsonStream.EndObject | src/json.c:121-149 | the new place, nesting and output of the call, or the error state |
| JsonWriter.JsonStream.BeginArray | src/json.c:151-171 | the new place, nesting and output of the call, or the error state |
| JsonWriter.JsonStream.EndArray | src/json.c:173-201 | the new place, nesting and output of the call, or the error state |
| JsonWriter.JsonStream.Scalar | src/json.c:203-231 | numbers, booleans and null: place and output |
| JsonWriter.JsonStream.Str | src/json.c:281-317 | strings, as keys or values: place and output |
| JsonWriter.JsonStream.Uint64 | src/json.c:255-265 | an unsigned number: place and output of its decimal digits |
| JsonWriter.Digits | src/json.c:255-265 | the backward loop writes the decimal digits and stays inside 21 bytes for every 64-bit number |
| JsonWriter.NextKeepsInv | src/json.c:99-377 | the state always agrees with the innermost container |
| JsonDocument.WritesValue | src/json.c:99-377 | the calls of a tree are accepted wherever a value may stand and write its text |
| JsonDocument.OnlyTrees | src/json.c:99-377 | any calls that reach the end are the calls of a tree |
| JsonDocument.NestingBound | src/json.c:9-44 | the nesting never exceeds the depth of the tree, so 30 levels suffice for depth 30 |
| JsonDocument.PutAllText | src/json.c:65-97 | nothing is lost, repeated or reordered between pieces and blocks but the pieces too long for the buffer |
| JsonDocument.DocumentText | src/json.c:65-97 | for every buffer, of one byte too, the writer ends well, blocks are non-empty and leave room for the terminator, and they join to the printed tree exactly when the widest piece fits |
| JsonDocument.WriteTree | src/json.c:99-377 | the object driven over a tree stands where the calls of the tree lead, with their text put out |
| JsonDocument.WriteDocument | src/arduino_homekit_server.cpp:748-769 | a new writer driven over a tree of depth 30 or less sends exactly the blocks of the document |
| JsonDocument.NestingGrows | src/json.c:9-44 | each container begun inside another nests one level deeper, so a 31st would pass the end of the array |
| ChunkEncoder.ClientSendChunk | src/arduino_homekit_server.cpp:709-726 | the payload is size line, data, line end, within eight bytes more than the data |
| ChunkEncoder.HexIsSize | src/arduino_homekit_server.cpp:719 | the size line is read back as the size |
| ChunkEncoder.BlocksArrive | src/arduino_homekit_server.cpp:709-726 | blocks sent as chunks, cut anywhere, come out of the parser's body callback as they were |
| ChunkEncoder.DocumentArrives | src/arduino_homekit_server.cpp:748-769 | a tree written, chunked, cut and parsed is its text exactly when its widest piece fits the buffer, with one completion |
| SecureDocument.DocumentArrivesSecurely | src/arduino_homekit_server.cpp:688-702 | through the encrypted frames of a session and any cut of what is decrypted, the body is the tree's text exactly when its widest piece fits the buffer, with one completion |
| CJsonText.CompactIsText | src/cJSON.c:1283-1354 | the unformatted printer and the streaming writer agree on trees whose strings need no escape |
| CJsonParser.ParseBuffer.SkipWhitespace | src/cJSON.c:979-997 | blanks are passed, and the offset steps back at the end |
| CJsonParser.ParseBuffer.ParseNumber | src/cJSON.c:276-348 | at most 63 characters are copied and the longest decimal number at their front is taken |
| CJsonParser.ParseBuffer.FindQuote | src/cJSON.c:728-750 | the scan finds the closing quote and counts the escapes before it |
| CJsonParser.ParseBuffer.WriteUtf8 | src/cJSON.c:593-711 | the bytes written are the UTF-8 form of the escaped code point |
| CJsonParser.ParseBuffer.CopyString | src/cJSON.c:760-818 | the loop writes the decoded bytes and no more than the literal has characters |
| CJsonParser.ParseBuffer.ParseString | src/cJSON.c:714-840 | the string or the offset of the failure; never beyond the room allocated |
| CJsonParser.ParseBuffer.ParseValue | src/cJSON.c:1228-1280 | the value and the offset after it, or the offset of the failure; the depth is restored on success |
| CJsonParser.ParseBuffer.ParseItems | src/cJSON.c:1389-1438 | the loop over elements builds the list the grammar describes |
| CJsonParser.ParseBuffer.ParseMembers | src/cJSON.c:1543-1609 | the loop over members builds the list the grammar describes |
| CJsonParser.Parse | src/cJSON.c:1016-1091 | byte order mark, blanks, value, and nothing behind it when that is asked; on failure the place of the error, at most that of the terminator |
| CJsonUnicode.Utf8Decodes | src/cJSON.c:656-705 | what is written decodes to the character by the table of RFC 3629 |
| CJsonUnicode.OnlyUtf8 | src/cJSON.c:656-705 | and nothing else does |
| CJsonUnicode.EveryCharacter | src/cJSON.c:593-705 | every character, escaped by its UTF-16 code units, is read as itself |
| CJsonUnicode.OnlyCharacters | src/cJSON.c:609-654 | with hexadecimal digits, only escapes of characters are accepted |
| CJsonUnicode.StringRoom | src/cJSON.c:727-818 | a decoded string has no more bytes than its literal has characters, whatever the literal holds |
| CJsonUnicode.BadDigitsAreNul | src/cJSON.c:576-579 | a malformed escape is read as a NUL character |
| CJsonRoundTrip.StringRoundTrip | src/cJSON.c:714-962 | parsing a printed NUL-free string gives that string |
| CJsonRoundTrip.NumberRoundTrip | src/cJSON.c:276-348 | parsing a printed number token gives that token |
| CJsonRoundTrip.ValueRoundTrip | src/cJSON.c:1228-1733 | anywhere in a text and at any depth, a printed value parses to itself exactly within the nesting limit |
| CJsonRoundTrip.TreeRoundTrip | src/cJSON.c:1228-1733 | every printed tree, in either format, parses back to itself exactly when it is nested at most 1000 deep |
| CJsonPrinter.PrintBuffer.Ensure | src/cJSON.c:383-468 | room is granted exactly when the text to come fits the limit; what was printed stays |
| CJsonPrinter.PrintBuffer.UpdateOffset | src/cJSON.c:471-481 | the offset moves to the end of what was printed |
| CJsonPrinter.PrintBuffer.CountEscapes | src/cJSON.c:870-894 | the length computed beforehand is that of the escaped string |
| CJsonPrinter.PrintBuffer.PrintString | src/cJSON.c:843-962 | the escaped string between quotes, the closing quote right behind it, in the room reserved |
| CJsonPrinter.PrintBuffer.PrintArray | src/cJSON.c:1451-1510 | the printed array, or failure exactly when it does not fit |
| CJsonPrinter.PrintBuffer.PrintObject | src/cJSON.c:1622-1733 | the printed object, or failure exactly when it does not fit |
| CJsonPrinter.PrintBuffer.PrintValue | src/cJSON.c:1283-1354 | the printed value, or failure exactly when it does not fit |
| CJsonPrinter.Print | src/cJSON.c:1103-1165 | the whole text, whenever text and terminators can be held at all |
| CJsonPrinter.PrintPreallocated | src/cJSON.c:1208-1225 | two bytes more than the text are needed, and are enough |
| Tlv8.FormattedSize | src/tlv.c:139-153 | the announced size is the bytes written, short by two for each empty value |
| Tlv8.RoundTrip | src/tlv.c:139-222 | reading what was written gives the list with same-type neighbours glued where the left size is a multiple of 255 |
| Tlv8.IdentityWhenSeparate | src/tlv.c:139-222 | it is the identity exactly on lists without such neighbours |
| Tlv8.ReadBack | src/tlv.c:184-222 | whatever was read is written and read back unchanged |
| Tlv8.IntegerBytes | src/tlv.c:60-111 | an integer is read back modulo 256 to the number of bytes, as a 32-bit int |
| Tlv8.IntegerRoundTrip | src/tlv.c:60-111 | four bytes hold every int; fewer the numbers that fit |
| TlvList.TlvValues.Format | src/tlv.c:139-181 | the bytes written, or -1 and the size needed with the buffer untouched |
| TlvList.TlvValues.Parse | src/tlv.c:184-222 | the list grows by exactly the values read; scanning and copying stay inside the text |
| TlvList.TlvValues.ScanRun | src/tlv.c:191-201 | the accumulated size is that of the value glued from its fragments |
| TlvList.TlvValues.Get | src/tlv.c:87-95 | the first value of the type, or none |
| TlvList.TlvValues.GetInteger | src/tlv.c:98-109 | the number of the first value of the type, or the default |
| TlvList.TlvValues.AddInteger | src/tlv.c:60-69 | the list grows by the low bytes of the number |
| TlvList.TlvValues.LowBytes | src/tlv.c:60-69 | the low bytes of the number, lowest first |
| Base64.Encode | src/base64.c:39-62 | the encoded text and its size, for every length |
| Base64.Decode | src/base64.c:64-86 | the decoded bytes, or -1 when the length is no multiple of four |
| Base64.RoundTrip | src/base64.c:26-86 | decoding what was encoded gives the bytes back |
| Base64.SizesAgree | src/base64.c:26-37 | the two size functions are exact for encoded text |
| Base64.DecodedFits | src/base64.c:30-37 | decoding any text stays within the announced size, and fills it exactly when the padding is canonical |
| ValuePath.ReadValue | src/arduino_homekit_server.cpp:469-493 | a characteristic read sends the Base64 text of the formatted list |
| ValuePath.WriteValue | src/arduino_homekit_server.cpp:2237-2267 | a write gives the list of the decoded text, or refuses text too long or no multiple of four |
| ValuePath.PathRoundTrip | src/arduino_homekit_server.cpp:2252-2267 | a list read and written back is the list, glued, with exact sizes on both sides |
| ValuePath.ThroughJson | src/arduino_homekit_server.cpp:469-493 | the same with the JSON string in between, parsed by the tree parser |
| ChaCha.ChaCha.Process | src/wolfcrypt/src/chacha.c:970-995 | byte i is xored with byte i%64 of the block at counter plus i/64, modulo 2^32, also in place; the counter moves by the blocks begun |
| ChaCha.ChaCha.WordToByte | src/wolfcrypt/src/chacha.c:383-411 | the in-place rounds on the word array compute the block function |
| ChaCha.QuarterRound | src/wolfcrypt/src/chacha.c:97-101 | four words of the array take the values of the quarter round, the others stay |
| ChaCha.ChaCha.Start | src/wolfcrypt/src/chacha.c:284-376 | keys of 16 and 32 bytes, nonce and counter are laid out as section 2.3 of RFC 8439 and the tau constants say; other key sizes are refused |
| ChaCha.RotateMovesBits | src/wolfcrypt/src/misc.c:79-82 | the rotation takes bit k to bit k + n round the end of the word |
| Bits.XorBitwise | src/wolfcrypt/src/chacha.c:92-93 | the exclusive or used for words and octets is that of the single bits |
| Bits.AndBitwise | src/storage.c:307-310 | what a flash write leaves in an octet is the conjunction of the single bits |
| Bits.OrBitwise | src/wolfcrypt/src/misc.c:213-214 | the inclusive or that gathers differences is that of the single bits |
| ChaCha.StreamTwice | src/wolfcrypt/src/chacha.c:970-995 | the stream applied twice gives the message back |
| ChaCha.StreamCut | src/wolfcrypt/src/chacha.c:975-994 | two calls make one stream when the first ends on a block |
| Aead.MacInputInjective | src/wolfcrypt/src/chacha20_poly1305.c:171-259 | the authenticated text is whole blocks and determines additional data and ciphertext |
| Aead.CalculateAuthTag | src/wolfcrypt/src/chacha20_poly1305.c:171-259 | the pieces fed to Poly1305 join to that text |
| Aead.SealOpens | src/wolfcrypt/src/chacha20_poly1305.c:59-168 | opening what was sealed gives every non-empty message back |
| Aead.OnlySealedOpens | src/wolfcrypt/src/chacha20_poly1305.c:115-168 | only what the same key and nonce seal is opened |
| Aead.Encrypt | src/crypto.c:310-333 | the sealed message in the output exactly when there is room and something to seal |
| Aead.Decrypt | src/crypto.c:280-306 | the plaintext, or nothing written when the text is too short or the tag wrong |
| Aead.ConstantCompare | src/wolfcrypt/src/misc.c:207-217 | the bits in which the two texts differ anywhere are gathered from all bytes; the sum is 0 exactly when the texts are equal |
| Aead.NoDifference | src/wolfcrypt/src/misc.c:207-217 | the differing bits of all places are none exactly when the texts are equal |
| Framing.WriteCounter | src/arduino_homekit_server.cpp:582-587 | written over the last nonce of the call, never cleared, the counter's digits make this counter's nonce |
| Framing.DigitsGrow | src/arduino_homekit_server.cpp:582-587 | a later counter never has fewer digits |
| Framing.NonceInjective | src/arduino_homekit_server.cpp:582-587 | no two counters share a nonce |
| Framing.NoncesDistinct | src/arduino_homekit_server.cpp:567-600 | no nonce repeats under a key over any number of frames |
| Framing.FrameNonce | src/arduino_homekit_server.cpp:567-600 | the k-th frame of a send is sealed under the k-th counter |
| Framing.FramesArrive | src/arduino_homekit_server.cpp:550-654 | a send is received whole by a peer that opens its frames in order |
| Framing.SendsArrive | src/arduino_homekit_server.cpp:550-654 | so is any series of sends, counters in step, each frame of 1 to 1024 bytes of payload |
| Framing.Transport.SendEncrypted | src/arduino_homekit_server.cpp:550-600 | exactly these frames are written and the counter moves by their number |
| Framing.Transport.Decrypt | src/arduino_homekit_server.cpp:605-654 | input of any number of frames: the size needed, -2 when there is less room, otherwise how far the frames were opened or -1 at one that is forged or too long, each chunk written over the one before and nothing else, the counter moved by the frames tried |
| Framing.FramesInOneRead | src/arduino_homekit_server.cpp:605-654 | non-empty chunks that arrive in one read are all opened and counted, but the output holds all of them exactly when there is one at most |
| Framing.DeliveredAlone | src/arduino_homekit_server.cpp:638-650 | texts written each over the one before are delivered exactly when there is one at most |
| Framing.RoomForFrame | src/arduino_homekit_server.cpp:610-618 | the room asked for is that of the chunk in a frame |
| Framing.ShortInput | src/arduino_homekit_server.cpp:610-618 | for input shorter than an empty frame the room asked for is within eighteen of 2^32 |
| PairingStore.Store.Write | src/storage.c:307-310 | a write clears bits of its own bytes and touches no others |
| PairingStore.Store.AppendRecord | src/storage.c:280-313 | a record written to a blank slot is stored exactly; in the first blank slot it is appended to the log |
| PairingStore.Store.FindEmptyBlock | src/storage.c:260-278 | the first blank slot, or -1 when there is none |
| PairingStore.Store.Add | src/storage.c:280-313 | -2 and nothing written when all sixteen slots hold records; otherwise the log grows by the record exactly if a blank slot was left or nothing was stored, and else holds only the record, the accessory's id and key being erased too |
| PairingStore.Store.Update | src/storage.c:316-352 | -1 for an unknown device, -2 for sixteen records, nothing written; otherwise the log is that of an update when a blank slot was left, and else only the changed record, or nothing when the device had the first slot, the accessory's id and key being erased too |
| PairingStore.Store.Compact | src/storage.c:218-258 | sixteen records stay as they are; any other store is erased with nothing written back, and the answer is -1 |
| PairingStore.Store.Init | src/storage.c:94-128 | a sector with its magic stays as it is; any other is formatted, and the answer says so |
| PairingStore.Store.Reset | src/storage.c:131-141 | the sector is formatted, and the answer is 1 |
| PairingLog.AddActs | src/storage.c:280-313 | for slots in any state the code can leave them in, adding acts as on the log exactly if a blank slot is left or the log is empty; otherwise only the record is left |
| PairingLog.UpdateActs | src/storage.c:316-352 | likewise updating acts as on the log exactly if a blank slot is left, or the device is the only one and not in the first slot; otherwise only the changed record is left, or nothing when the device had the first slot |
| PairingLog.RemoveActs | src/storage.c:355-373 | removing takes the first record of the device out of the log, in any state of the slots |
| PairingLog.RunActs | src/storage.c:280-373 | a run that writes no more than there are blank slots acts as on the log |
| PairingStore.LostByAdding | src/storage.c:218-313 | sixteen devices paired, the last one removed, another added: only that one is left |
| PairingStore.LostByUpdating | src/storage.c:218-352 | sixteen devices paired, the last one removed, the first one changed: none is left |
| PairingStore.Store.RunAll | src/storage.c:280-401 | any run of adds, updates and removes leaves the slots of the run, and the log of the run when it writes no more than there are blank slots |
| PairingStore.RunFromEmpty | src/storage.c:94-401 | from a formatted sector, a run that writes at most sixteen records leaves in flash what a map from device to record holds |
| PairingStore.Store.Remove | src/storage.c:355-373 | the first record of the device leaves the log |
| PairingStore.Store.FindPairing | src/storage.c:376-401 | the first record of the device with its slot; -1 for an unknown device, -2 when its key cannot be imported |
| PairingStore.Iterator.Next | src/storage.c:413-437 | the records whose keys can be imported come in the order of the log, each once |
| PairingStore.Store.Format | src/storage.c:94-128 | after formatting the log is empty and all slots are blank |
| PairingStore.DecodesRecord | src/storage.c:84-92 | a stored record is read back |
| PairingLog.Appends | src/storage.c:260-313 | writing the first blank slot appends to the log and leaves no record behind a blank slot |
| PairingLog.Drops | src/storage.c:355-373 | zeroing the first record of a device takes exactly it out of the log |
| PairingLog.MapSteps | src/storage.c:280-401 | adding a new device, removing and updating are those of a map and keep devices distinct |
| PairingLog.RunIsMap | src/storage.c:280-401 | over every run of adds of new devices, updates and removes, what is found is what a map from device to record holds |
| PairingLog.Interrupted | src/storage.c:333-347 | stopped between its two writes, update leaves the device with its old permissions and every other device as it was |
| PairingLog.RemovedWhenSingle | src/storage.c:355-373 | a removed device is gone exactly if it had at most one record |
| RingQueue.Queue.Push | src/cQueue.c:78-95 | a full queue refuses, or drops exactly its oldest record |
| RingQueue.Queue.Pop | src/cQueue.c:97-118 | the oldest record of a FIFO, the newest of a LIFO, and the others stay |
| RingQueue.Queue.Peek | src/cQueue.c:120-141 | the record the next pop takes |
| RingQueue.Queue.Drop | src/cQueue.c:143-153 | as a pop without its record |
| RingQueue.Queue.PeekIdx | src/cQueue.c:155-173 | the i-th record of a FIFO always, of a LIFO while its oldest is in the first place |
| RingQueue.LifoPeekAfterOverwrite | src/cQueue.c:155-173 | one push over any full LIFO queue puts the newest record where the oldest was, and a peek at that place finds it |
| RingQueue.PlacesAgree | src/cQueue.c:155-173 | in a LIFO queue, full or not, over an array of distinct records the places hold the records of their numbers exactly while the oldest is in the first place |
| RingQueue.HoldsLast | src/cQueue.c:78-95 | an overwriting queue holds the last pushes, as many as it has places |
| Events.Drain | src/arduino_homekit_server.cpp:3027-3078 | the queue is emptied into a list that sums up what was popped |
| Events.MergeSumsUp | src/arduino_homekit_server.cpp:3050-3076 | each characteristic once, in the order of its first pop, with the value of its last |
| Events.OldestOfLastFour | src/arduino_homekit_server.cpp:3027-3078 | a client is told of the characteristics of the last four pushes, and of each the oldest value |
| Sessions.Server.Accept | src/arduino_homekit_server.cpp:2982-3024 | a new client at the head of the list, none beyond the eighth |
| Sessions.Server.Close | src/arduino_homekit_server.cpp:2947-2980 | the client is out of the list, of the pairing context and of every characteristic's callbacks |
| Sessions.Server.ClearCallbacks | src/accessories.c:594-612 | exactly that client's callbacks are gone from every characteristic |
| Sessions.Server.PairSetup | src/arduino_homekit_server.cpp:958-1398 | which step is reached and who owns the pairing context afterwards |
| Sessions.Server.PairVerify | src/arduino_homekit_server.cpp:1405-1780 | a session is verified only by the second message after the first, and then without verify context |
| Sessions.Server.Subscribe | src/accessories.c:530-591 | a client's callback is added once or removed wherever it stands; other characteristics keep theirs |
| Sessions.Server.SubscribeAll | src/arduino_homekit_server.cpp:2361-2500 | any number of subscription changes, one after the other |
| Sessions.LastOfSubscribed | src/accessories.c:530-591 | after them a client is called back for a characteristic exactly if the last change of it said so, or, without one, if it was before |
| Sessions.Server.RemovePairing | src/arduino_homekit_server.cpp:2575-2648 | exactly the clients verified with that slot number are marked |
| Sessions.Server.Message | src/arduino_homekit_server.cpp:2782-2852 | a request changes the sessions only as its endpoint allows; a verified session stays verified, and the invariant of sessions, pairing context and callbacks holds after it |
| Sessions.Server.Run | src/arduino_homekit_server.cpp:2782-3024 | any sequence of connections, requests and disconnections keeps the invariant of sessions, pairing context and callbacks, up to a third or fifth message of pair setup without a context; a verified session stays verified under its slot number until it is closed |
| PairedSessions.MarkedExactly | src/arduino_homekit_server.cpp:2575-2648 | over any run that fits the blank slots, the slot a session remembers is that of the device removed now exactly if it was verified as that device and the device was neither updated nor removed since |
| PairedSessions.RecordStays | src/storage.c:316-373 | the slot of a device keeps its record until the device is updated or removed, and holds none from then on |
| PairedSessions.RemoveDevice | src/arduino_homekit_server.cpp:2575-2648 | the first record of a known device is gone, exactly the sessions with its slot are marked, and with the last administrator whose key can be imported the accessory may be paired again; otherwise nothing changes |
| PairedSessions.FindAdmin | src/arduino_homekit_server.cpp:2617-2640 | whether any stored device whose key can be imported is an administrator |
| Sessions.RemovedSize | src/accessories.c:562-591 | removing a client removes exactly it |
| Button.PressesConserved | examples/Example03_StatelessProgrammableSwitch/ESPButton.h:156-262 | over any run, stable presses are single and long clicks, twice the double ones, and the one still undecided |
| Button.StableFlips | examples/Example03_StatelessProgrammableSwitch/ESPButton.h:156-187 | the stable level flips exactly when the raw level was the same at every tick since it changed, for longer than the threshold |
| Button.ButtonEntry.TickEntry | examples/Example03_StatelessProgrammableSwitch/ESPButton.h:156-187 | the fields and the notified click of one tick |
| Identifiers.GiveInstanceIds | src/accessories.c:409-424 | services and characteristics take their ids from one 32-bit counter in order |
| Identifiers.GiveAccessoryIds | src/accessories.c:397-408 | accessories take their ids from one 32-bit counter in order |
| Identifiers.IncreasingWhenInOrder | src/accessories.c:397-440 | ids come out strictly increasing exactly when every id set by hand is beyond all before it and the counter does not wrap while entries are left |
| Identifiers.AssignedTwice | src/accessories.c:397-440 | a second run changes no id, when none came out 0 |
| Identifiers.SecondRun | src/accessories.c:397-440 | so it is whenever the ids came out increasing |
| Identifiers.ByAidAndIid | src/accessories.c:475-495 | a characteristic with both ids, or none if there is none |
| Identifiers.OneMatch | src/accessories.c:475-495 | with increasing ids there is no other it could have meant |

## Left out

- Responses, non-strict mode and URL parsing of http_parser.c: the server parses requests in strict mode only.
- Callbacks that return a non-zero value, pause the parser or ask to skip the body; every callback is present and returns 0.
- JsonDocument.DocumentText: a buffer of no bytes at all, which the source would write outside of, is not considered.
- HttpHeader.TransferEncodingValue: an empty value, and blanks at the front of a folded line, are not considered.
- HttpRequest.RequestsMessage: methods but CONNECT, versions of one digit each, lines ended by CR LF and values that are not empty; Transfer-Encoding and Upgrade fields are left to HttpTrailer and the machine.
- JsonWriter.JsonStream.BeginObject: a 31st nested container, whose mark the source writes past the end of its nesting array, is excluded.
- JsonWriter.JsonStream.BeginArray: the same.
- JsonWriter.JsonStream.Scalar: numbers are given texts; the float and signed integer writers and their short buffers are not modelled.
- ChunkEncoder.ClientSendChunk: sizes from 65536 on would overrun the payload array, so they are excluded; allocation never fails anywhere in the model.
- CJsonParser.ParseBuffer.ParseNumber: the double that strtod computes is not modelled, only how much text it takes, with a point as decimal sign.
- CJsonParser.ParseBuffer.WriteUtf8: the bit masks are written as division and remainder by 64.
- CJsonPrinter.PrintBuffer.PrintValue: raw items, null keys and numbers that are not finite are not modelled; a number is the text sprintf gave.
- TlvList.TlvValues.Parse: input whose lengths are missing, zero or run past the end makes the source read outside the buffer or loop; it is excluded.
- ValuePath.ReadValue: lists that hold an empty value, for which the source formats two bytes more than it has allocated, are excluded.
- ValuePath.WriteValue: text of fewer than two characters, for which the source reads before its start, and text whose padding is not canonical are excluded.
- ChaCha.ChaCha.Start: the assembly path is not modelled.
- Framing.Transport.Decrypt: the partial frame carried over between reads is not modelled.
- Framing.Transport.SendEncrypted: counters from 2^31 on are excluded; writing never fails.
- PairingStore.Store.Compact: the copy of the sector in memory is not modelled, only how many records are gathered: some of them are copied to places outside it, and it is never used; erasing and writing flash memory never fail, nor does allocation.
- PairingStore.Store.Add: device ids are the padded fields of the records, keys are bytes.
- Sessions.Server.PairSetup: the third and fifth message without a pairing context, which the source does not check for, are excluded; the contents of messages and responses are parameters.
- Button.ButtonEntry.TickEntry: the two clock readings of a tick are parameters; a click overwritten before the main loop reads it still counts as notified.
- SRP, Ed25519, Curve25519, HKDF, Poly1305 and SHA-512: parameters or not needed.
- Sockets, Wi-Fi, mDNS, the watchdog, logging and heap tracking: no logic of their own.
- Accessory id and key storage, query parameters, value copying and response headers: they would add only easy members.
