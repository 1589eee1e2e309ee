# Verification of the log server

`log-server/` is a WebSocket server that tails log files for browser clients. This project models its
logic in Dafny and proves what the server rests on: that bytes coming off a socket are turned into the
right messages whatever way they are cut, that the handshake answers as RFC 6455 asks, and that three
threads which share a client map and a subscription list never send a line to the wrong connection.

`dafny verify dfyconfig.toml` checks the whole project.

## How the project is laid out

Three parts, each proved against an independent description.

**Accept key.** `Fips180.dfy` is SHA-1 as FIPS 180-4 writes it: the recursive 80-word schedule, the 80
rounds, padding on bits. `Sha1.dfy` is `sha1.c`: a class `Context` whose arrays are updated in place, the
16-word circular schedule, the register shift, the byte-order changes, the length counter that is
compensated by 512, and the extra padding block. `Base64.dfy` has the loops of `base64_enc.c` and a strict
decoder after RFC 4648. `Accept.dfy` puts them together in the reused `responseKey` buffer.
`KnownAnswers.dfy` calculates the handshake of section 1.3 of RFC 6455, round by round, so that no constant and no
word function is trusted.

**Octets to messages and back.** `Rfc6455.dfy` is written from sections 5.2 and 5.3 of RFC 6455 alone.
`Frames.dfy` has the in-place parser and the frame printer, with `size_t` subtraction that wraps around and
lengths copied in host order. `Handshake.dfy` has the request parser with its cursor loop, against a
declarative description of acceptable requests (`CStrings.dfy` models the C string functions).
`Streams.dfy` states what one `Receive` call and runs of calls do and proves them against a decoder of the
whole stream; `Client.dfy` is the class with `frame_buf`, `frame_buf_pos`, `handshaked` and `send_buf`
whose methods do exactly that. A ghost field `wire` records what has been written. `Connections.dfy`
puts a browser's whole connection together, from its request to its last text frame. `FrameExamples.dfy`
has the frames of section 5.7 of RFC 6455 octet by octet, and `Texts.dfy` the source's constants as text.

**Threads.** `Subscriptions.dfy` has the list operations of `LogServer` as loops over a mutable list, and
`Ids.dfy` has `GenerateID`. `Server.dfy` is a labelled step system: the acceptor, the message thread and
the log reader, each with a program counter; two mutexes, two condition variables with spurious wake-ups;
one atomic step for each lock, map or list operation. Connections carry a session number and subscriptions
a serial number, which exist only in the model, as client ids are reused; a history records the events.
`ServerSafety.dfy` and `ServerHistory.dfy` prove that every step keeps the inductive invariant, and
`ServerRuns.dfy` draws the conclusions for every run. `ServerTurns.dfy` joins the two models of the list: with
the other threads in between, the turns of the step system come to what the methods of `LogServer` leave.
`ServerRounds.dfy` does the same for the loop over the clients and the codes of `Receive`, and for accepts and the
end of the threads.
`ServerExamples.dfy` has runs at the edges of the results about sessions. `EndToEnd.dfy` joins the threads
with the octets on both sides of a session.

## What the code does where a reader might expect something else

- The frame parser announces a frame whose masking key has not arrived, for two reasons. `websocket.c:308`
  subtracts unsigned numbers, and on two to five octets of a good header the difference wraps around, so no
  length from 1 to 125 is found too long. And `websocket.c:307` skips the comparison for a length of 0.
  `Frames.ParserAgreesIff` proves that this is the only disagreement for 7-bit lengths, `Frames.ShortHeaderCauses`
  tells the two apart, `Frames.ParserStableIff` says when an answer is taken back, and
  `Clients.SizeAssertFailsIff` when the assertion at `client.cpp:223` ends the server. Results about runs carry
  the hypothesis `HeaderWhole` that the parser is not run there, and nothing stronger about where reads cut.
- `websocket.c:110` joins its two end-of-header tests by `&&`, so a header line whose first octet is CR, or whose
  second octet is LF, ends the loop. `Handshake.OpeningIff` speaks of the lines before the first such line,
  which are all lines exactly when there is none (`Handshake.SeenIsAll`). Header lines may hold any octets
  there but NUL and CRLF.
- `websocket.c:263` and `:268` copy extended lengths in host order, and `:255` tests the top bit of the wrong
  octet. `Frames.ParserAgrees16Iff` and `Frames.ParserAgrees64Iff` say exactly on which buffers the parser
  agrees with the standard all the same; the lengths themselves agree exactly when their octets read the same
  backwards.
- `sha1.c:177-180` does not clear the unused bits of a partial octet. `Sha1.SourceTailIsPaddedTailIff` is the
  exact condition; every message of whole octets meets it.
- The comment at `log-server.cpp:434-436` wonders whether the check for a missing client can go. It is of use
  exactly after the map has been cleared (`ServerRuns.DefensiveBranchIff`).
- `web_socket_server.cpp:263` disconnects a client before `OnDisconnect` takes `logs_mutex`. A reader in the
  middle of its pass can still call `Send` on that client, whose socket is closed and set to -1
  (`client.cpp:117-118`, `:406`); it does so exactly while the message thread waits for the purge
  (`ServerRuns.SendReachesIff`, `ServerRuns.LateLines`), and `ServerExamples.LineAfterDisconnect` gives such
  runs. What `SendFrame` does with a socket of -1, while the reader holds `logs_mutex`, is left out.
- `web_socket_server.cpp:157-163` clears the map at shutdown and leaves the list. Before the clearing every line
  goes to the `Client` of the session that added its entry, and after it none goes to anybody
  (`ServerRuns.SessionIsolation`); `ServerExamples.LineAfterShutdown` gives runs with such a line.

## Model

| member | source | states |
|---|---|---|
| Sha1.Rotl32IsRotateLeft | log-server/cwebsocket/sha1.c:55-57 | the shift-and-or rotation is the rotation of FIPS 180-4 for the three amounts used |
| Sha1.ChangeEndianLoadIsWordOf | log-server/cwebsocket/sha1.c:59-61 | a host load followed by the endianness change is the big-endian word of the four octets |
| Sha1.GroupTablesAgree | log-server/cwebsocket/sha1.c:93-97 | the function and constant picked by the group counter are those the standard gives for each of the 80 rounds |
| Sha1.MixedIsRecurrence | log-server/cwebsocket/sha1.c:130-131 | the word computed from four slots of the circular buffer is word t of the 80-word schedule |
| Sha1.WindowAdvance | log-server/cwebsocket/sha1.c:125-135 | overwriting one slot moves the window of the last sixteen schedule words on by one |
| Sha1.RoundInPlace | log-server/cwebsocket/sha1.c:138-141 | the temporary, the register shift and the in-place rotation are one round of section 6.1.2 |
| Sha1.RunRounds | log-server/cwebsocket/sha1.c:123-157 | the loop with its two counters ends with the working variables after 80 rounds, for every block and chaining value |
| Sha1.Context.NextBlock | log-server/cwebsocket/sha1.c:88-164 | one compression of the chaining value by the block, and 512 more bits counted modulo 2^64 |
| Sha1.Context.LastBlock | log-server/cwebsocket/sha1.c:168-198 | for a remainder of up to 65535 bits the chaining value becomes that of the whole message with its padding; the length stored is exact although the counter is compensated |
| Sha1.Context.FinishBlock | log-server/cwebsocket/sha1.c:175-197 | both padding shapes: the length in the same block, or in a block of its own when more than 447 bits remain |
| Sha1.SourceTailIsPaddedTailIff | log-server/cwebsocket/sha1.c:177-180 | the padding written is that of section 5.1.1 if and only if the partial octet is clean |
| Sha1.DirtyOctetIsMisread | log-server/cwebsocket/sha1.c:177-180 | one bit of message in an octet of ones is padded wrongly |
| Sha1.SplitDigest | log-server/cwebsocket/sha1.c:168-198 | any split into whole blocks and a remainder gives the digest of the whole message |
| Sha1.Ctx2Hash | log-server/cwebsocket/sha1.c:202-214 | the twenty octets of the digest, and nothing behind them changes |
| Sha1.Sha1 | log-server/cwebsocket/sha1.c:221-231 | for every message of less than 2^32 bits the digest of FIPS 180-4 |
| Sha1.StoreLength | log-server/cwebsocket/sha1.c:187-193 | the loop stores the counter behind the message, and the eight octets read back as a big-endian number are the counter |
| Fips180.DigestReadBack | log-server/cwebsocket/sha1.c:202-214 | the twenty octets read back as big-endian words are the five words of the digest |
| Fips180.ChChooses | log-server/cwebsocket/sha1.c:65-67 | bit by bit, `ch` chooses the second word where the first has a 1 and the third where it has a 0 |
| Fips180.MajVotes | log-server/cwebsocket/sha1.c:69-71 | `maj` sides with the two that agree |
| Fips180.ParityIsOdd | log-server/cwebsocket/sha1.c:73-75 | `parity` of two equal words and a third is the third |
| KnownAnswers.SampleDigest | log-server/cwebsocket/sha1.c:221-231 | the digest of the key of section 1.3 of RFC 6455 with the GUID, calculated through both blocks and all 160 rounds |
| Base64.Base64Enc | log-server/cwebsocket/base64_enc.c:78-116 | the in-place writer produces exactly the encoding and one NUL, for every input up to 65535 octets, and touches nothing else |
| Base64.DecodeEncode | log-server/cwebsocket/base64_enc.c:78-116 | a strict decoder after section 4 of RFC 4648 inverts the encoding of every input |
| Base64.EncodeInjective | log-server/cwebsocket/base64_enc.c:78-116 | different inputs have different encodings |
| Base64.EncodeAlphabet | log-server/cwebsocket/base64_enc.c:53-74 | every character is of the alphabet, except exactly the final padding |
| Texts.Alphabet | log-server/cwebsocket/base64_enc.c:53-74 | the 64 characters are those of table 1 of RFC 4648, and the padding is '=' |
| Texts.Vectors | log-server/cwebsocket/base64_enc.c:78-116 | the seven vectors of section 10 of RFC 4648 |
| Accept.GetHandshakeAnswer | log-server/cwebsocket/websocket.c:174-206 | for every key of 1 to 219 octets, the fixed response with Base64(SHA-1(key and GUID)) as in section 4.2.2 of RFC 6455 |
| Accept.EncodeKey | log-server/cwebsocket/websocket.c:181-189 | the reused buffer of the key and the GUID always has room for the 29 octets written over it |
| Accept.ResponseLength | log-server/cwebsocket/websocket.c:191-205 | every response has 129 octets |
| Accept.AcceptValueDecodes | log-server/cwebsocket/websocket.c:186-189 | a client that decodes the accept value gets the digest of its own key |
| KnownAnswers.SampleAcceptValue | log-server/cwebsocket/websocket.c:174-189 | the key `dGhlIHNhbXBsZSBub25jZQ==` of section 1.3 of RFC 6455 has the accept value `s3pPLMBiTxaQ9kYGzzhZRbK+xOo=` |
| Texts.ResponseText | log-server/cwebsocket/websocket.c:191-200 | the response to every key as text, line by line |
| Handshake.CopyMeaning | log-server/cwebsocket/websocket.c:54-65 | the copy is a prefix of the value: all of it exactly below 256 octets, and empty exactly at multiples of 256 |
| Handshake.AbortedIff | log-server/cwebsocket/websocket.c:57-58 | the assertion ends the process exactly when a line looked at has a recognised value whose length is a multiple of 256 |
| Handshake.TagOfIff | log-server/cwebsocket/websocket.c:111-157 | the chain of comparisons picks a field exactly when the line starts with its name: the order of the tests does not matter |
| Handshake.StepMeaning | log-server/cwebsocket/websocket.c:111-157 | one turn of the loop sets exactly the flags its own line calls for |
| Handshake.ScanMeaning | log-server/cwebsocket/websocket.c:110-160 | after the loop a flag is set if and only if some line calls for it, and the last key wins |
| Handshake.WsParseHandshake | log-server/cwebsocket/websocket.c:67-172 | the cursor loop terminates with the answer that the lemmas about accepted, refused and cut requests speak of |
| Handshake.TestLine | log-server/cwebsocket/websocket.c:111-157 | one turn makes the step for its own line, and its cursor stays between the start and the end of that line |
| Handshake.LineEnd | log-server/cwebsocket/websocket.c:159 | the line end found from the cursor is never behind the blank line |
| Handshake.ParsePrinted | log-server/cwebsocket/websocket.c:67-172 | for a printed request the answer depends on its header lines alone, whatever octets follow |
| Handshake.OpeningIff | log-server/cwebsocket/websocket.c:162-171 | OPENING if and only if Host, Key, Connection with "upgrade", Upgrade starting "websocket", no Protocol and no Version that does not start "13"; otherwise ERROR; with the last key and the length of the request |
| Handshake.SeenIsAll | log-server/cwebsocket/websocket.c:110 | all header lines are looked at if and only if none starts with CR or has LF as its second octet |
| Handshake.StopperHidesRequest | log-server/cwebsocket/websocket.c:110 | a line of either kind in front makes every request an ERROR |
| Handshake.ParseStable | log-server/cwebsocket/websocket.c:73-172 | an answer does not change when octets are appended |
| Handshake.PrefixIncomplete | log-server/cwebsocket/websocket.c:73-77 | every proper prefix of an acceptable request is INCOMPLETE |
| Handshake.PrintedPrefixIncomplete | log-server/cwebsocket/websocket.c:73-77 | ... and every proper prefix of any printed request, acceptable or not |
| Handshake.BadRequestLines | log-server/cwebsocket/websocket.c:79-98 | without "GET ", without a second space or with nothing but spaces behind it, a request is an ERROR whatever its header lines are |
| Texts.ShortNames | log-server/cwebsocket/websocket.h:61-67 | the names of Host, Origin, Connection and Upgrade are their texts |
| Texts.KeyName | log-server/cwebsocket/websocket.h:68 | the name of the key line is its text |
| Texts.ProtocolName | log-server/cwebsocket/websocket.h:69 | the name of the subprotocol line is its text |
| Texts.VersionName | log-server/cwebsocket/websocket.h:70 | the name of the version line is its text |
| Texts.Values | log-server/cwebsocket/websocket.h:62-71 | the values looked for are "upgrade", "websocket" and "13" |
| Texts.ToLowerMeaning | log-server/cwebsocket/websocket.c:105 | values are compared with capital letters made small and every other octet as it is |
| Connections.TextRequestOpens | log-server/cwebsocket/websocket.c:67-172 | the request of a browser written as text, with "WebSocket", "keep-alive, Upgrade" and a Sec-WebSocket-Extensions line, is accepted with its key for every resource, host, key and extensions |
| Connections.ProtocolIsRefused | log-server/cwebsocket/websocket.c:121-123 | any request with a line that starts "Sec-WebSocket-Protocol: " is refused |
| Rfc6455.MaskTwice | log-server/cwebsocket/websocket.c:321-323 | unmasking undoes masking |
| Rfc6455.XorLaws | log-server/cwebsocket/websocket.c:322 | what masking does to an octet: 0 exactly for equal octets, neutral 0, commutative and associative |
| Rfc6455.HeaderBits | log-server/cwebsocket/websocket.c:242-301 | the bits and the length field of the header octets as numbers |
| Rfc6455.GoodFirstOctets | log-server/cwebsocket/websocket.c:279-301 | exactly five first octets are good, each with its opcode |
| FrameExamples.MaskedTextMessage | log-server/cwebsocket/websocket.c:279-334 | the masked "Hello" of section 5.7 of RFC 6455: the parser finds a text frame of eleven octets and unmasks it to "Hello" |
| FrameExamples.UnmaskedMessages | log-server/cwebsocket/websocket.c:208-240 | the unmasked text, ping and closing frames of section 5.7, octet by octet |
| FrameExamples.LongHeaders | log-server/cwebsocket/websocket.c:216-233 | its headers of messages of 256 and of 65536 octets, whatever the message |
| Frames.UnmaskInPlace | log-server/cwebsocket/websocket.c:313-323 | the loop replaces the data by its masking with the four octets before it and changes nothing else |
| Frames.ParseInputFrame | log-server/cwebsocket/websocket.c:279-334 | answer and unmasking in place; nothing is unmasked unless a whole frame is reported |
| Frames.ParserAgreesIff | log-server/cwebsocket/websocket.c:294-333 | for 7-bit lengths the parser agrees with section 5.2 of RFC 6455 if and only if the buffer holds less than two octets, or a whole masked header, or no good header |
| Frames.ShortHeaderCauses | log-server/cwebsocket/websocket.c:307-329 | on two to five octets of a good header a whole frame is announced: a length of 0 is not compared, any other with a difference that has wrapped around |
| Frames.WrapAroundExample | log-server/cwebsocket/websocket.c:308 | two octets of a frame of eleven: 2 - 6 wraps around, and the whole frame is announced |
| Frames.EmptyFrameExample | log-server/cwebsocket/websocket.c:307-329 | two octets of an empty frame, which is announced without a comparison |
| Frames.ParserStableIff | log-server/cwebsocket/websocket.c:279-334 | an answer other than INCOMPLETE stays when octets are appended if and only if the header was whole, or not good, or that of an empty frame |
| Frames.UnstableExample | log-server/cwebsocket/websocket.c:308 | a text frame announced on two octets that is INCOMPLETE again on six |
| Clients.SizeAssertFailsIff | log-server/client.cpp:160-226 | with short frames the assertion on the frame size fails if and only if the parser is run on two to five octets of a good text header |
| Frames.ParseClientFrame | log-server/cwebsocket/websocket.c:279-334 | for every opcode, key and payload up to 125 octets, and whatever follows: the opcode, the payload unmasked, and the length payload + 6 |
| Frames.ParsePrefix | log-server/cwebsocket/websocket.c:279-334 | a proper prefix of such a frame is INCOMPLETE if and only if it is shorter than two octets or holds the whole header |
| Frames.HostOrder16Iff | log-server/cwebsocket/websocket.c:260-264 | the 16-bit length read is that of the standard if and only if its two octets are equal |
| Frames.HostOrder64Iff | log-server/cwebsocket/websocket.c:265-274 | the 64-bit length read is that of the standard if and only if its eight octets read the same backwards |
| Frames.ParserAgrees16Iff | log-server/cwebsocket/websocket.c:242-329 | for 16-bit lengths the parser agrees with the standard if and only if the length has not arrived, or the whole header has and the two byte orders give the same length or two that exceed what has arrived |
| Frames.ParserAgrees64Iff | log-server/cwebsocket/websocket.c:242-329 | the same for 64-bit lengths, and when the tested octet has its top bit set, if and only if the length is too big by the standard |
| Frames.MakeFrame | log-server/cwebsocket/websocket.c:208-240 | -1 exactly when header and data do not fit, otherwise the frame and its size |
| Frames.MadeFrameIsServerFrame | log-server/cwebsocket/websocket.c:216-233 | up to 65535 octets the frame is that of the standard in minimal length form |
| Streams.TakeFrameRefines | log-server/client.cpp:193-242 | taking a frame from the buffer takes exactly the front of the stream, whatever follows |
| Streams.HandshakeRefines | log-server/client.cpp:245-324 | the handshake takes exactly the request off the front of the stream, or fails when the whole stream has no acceptable one |
| Streams.RunRefines | log-server/client.cpp:122-324 | for any reads and writes, failing ones too: a run and what is still to come make up the decoding of the whole stream, and a run that fails has delivered a prefix of it |
| Streams.CutIndependence | log-server/client.cpp:122-324 | for any octets, any cutting that meets the hypotheses, and any failures: messages delivered are a prefix of those of the whole-stream decoder, all of them once a call does not ask to be repeated, and a failure that neither the socket nor a write has caused ends the stream with the same code |
| Streams.CuttingsAgree | log-server/client.cpp:122-324 | two cuttings of the same octets that have come to rest have delivered the same messages and have the same failure |
| Streams.TextConnection | log-server/web_socket_server.cpp:248-267 | one acceptable request and text frames up to 125 octets, cut anyhow under the header hypothesis, with any close or failure: the messages are a prefix of the payloads that have arrived, exactly those after each drain, and no call fails unless the socket or a write does |
| Streams.NothingLeft | log-server/client.cpp:193-237 | a call that does not ask to be repeated leaves no whole frame in the buffer |
| Streams.RepeatUsesOctets | log-server/web_socket_server.cpp:248-267 | a call that asks to be repeated has used up at least four octets |
| Clients.Client.Receive | log-server/client.cpp:122-243 | the buffer, the code and the message are those the standard calls for, and what is written is the reply to the request or nothing |
| Clients.Client.Handshake | log-server/client.cpp:245-324 | 101 with the accept value for an acceptable request, 400 for a bad one or one that fills the buffer, and the octets after the request stay in the buffer |
| Clients.Client.ReceiveFront | log-server/client.cpp:193-242 | both size assertions hold, the frame is unmasked once, and the rest moves to the front of the buffer |
| Clients.Client.Drain | log-server/web_socket_server.cpp:248-267 | the inner loop terminates, also when the peer closes or a read or write fails; it hands on the messages of a run, writes its replies, and leaves no whole frame at a non-negative end |
| Connections.BrowserRequestOpens | log-server/cwebsocket/websocket.c:67-172 | for every resource, host and key, a browser's request is accepted with that key |
| Connections.RepliesOnce | log-server/client.cpp:282-323 | over any cutting and any failures, what the server writes on its own is one response if it opens the connection and nothing otherwise; it opens it only on the complete request, and always then when nothing fails |
| Connections.BrowserConnection | log-server/client.cpp:122-324 | for every key, payloads up to 125 octets, cutting and failures: exactly the response for the browser's own key when the connection is opened, and the payloads that have arrived in order, none missing after a drain |
| Connections.RefusedOnce | log-server/client.cpp:282-294 | a request that is not acceptable, cut anyhow: one 400 response when its last octet has come, nothing before, and the connection is given up |
| Connections.FullBufferIsRefused | log-server/client.cpp:283-293 | 8192 octets without a blank line are answered in the same way |
| Texts.BadRequestText | log-server/client.cpp:287-291 | the 400 response as text |
| Texts.Numbers | log-server/client.h:5-17 | the buffer sizes and the result codes |
| Clients.Client.Send | log-server/client.cpp:381-393 | one frame of the standard on the wire, or a refusal for exactly the messages longer than 15996 octets |
| Clients.Client.SendAll | log-server/log-server.cpp:452-455 | successive sends, each write with its own outcome: what they add to the wire is read back, by a decoder that insists on minimal lengths, as exactly the messages that got through |
| Clients.AcceptedDecode | log-server/client.cpp:381-393 | the same of the frames alone, for every list of messages and outcomes |
| Clients.Client.Disconnect | log-server/client.cpp:395-408 | an empty closing frame on the wire when the write succeeds |
| Subscriptions.CommandNameHasNoDots | log-server/log-server.cpp:228-236 | no message, whatever its octets, yields a command whose name has ".." |
| Subscriptions.ParseCommandIff | log-server/log-server.cpp:307-336 | a message is a command with this name if and only if it starts "add" or "del", has no two dots in a row, and the name is what follows its first space |
| Subscriptions.LogServer.StartReadingLog | log-server/log-server.cpp:243-285 | an entry at the end of the list, and a signal exactly when the list was empty |
| Subscriptions.LogServer.StopReadingLog | log-server/log-server.cpp:287-305 | the iterator loop removes the oldest entry with the client's id and the name, if there is one |
| Subscriptions.RemoveFirstMeaning | log-server/log-server.cpp:291-303 | exactly one entry goes, the earliest with that client and name, and none when there is none |
| Subscriptions.RemoveFirstKeepsOthers | log-server/log-server.cpp:293 | every entry of another client or with another name stays |
| Subscriptions.WithoutRemoveFirst | log-server/log-server.cpp:291-303 | ... as many of each and in their order |
| Subscriptions.LogServer.DeleteRequestsFromClient | log-server/log-server.cpp:346-362 | the erasing loop filters the list by client and keeps the order |
| Subscriptions.WithoutMeaning | log-server/log-server.cpp:346-362 | what the filter leaves: exactly the entries of other clients |
| Subscriptions.WithoutCounts | log-server/log-server.cpp:346-362 | ... as many of each as there were |
| Subscriptions.WithoutConcat | log-server/log-server.cpp:346-362 | ... and in their order: the filter of a list is that of its front followed by that of its back |
| Subscriptions.LogServer.OnMessage | log-server/log-server.cpp:307-344 | the new list for an add, a del and every other message |
| Subscriptions.LogServer.ReaderPass | log-server/log-server.cpp:430-467 | the pass visits every entry once although it erases as it goes, whatever the client map holds at each visit: the lines sent, and the entries kept, in order |
| Ids.IdSource.GenerateID | log-server/web_socket_server.cpp:91-104 | the least free id from the counter on, which becomes the counter; -1 and no change when it is too far away |
| Ids.TwoProbes | log-server/web_socket_server.cpp:91-104 | when no id exceeds the counter, the counter or its successor is free |
| ServerSafety.AKeepsKeys | log-server/web_socket_server.cpp:134-139 | every key is its client's own id and at most the counter, which never exceeds the number of accepts; two sessions never share a number |
| ServerSafety.MTakesFree | log-server/web_socket_server.cpp:241-280 | the message thread takes a mutex only when nobody owns it |
| ServerSafety.MKeepsCursorM | log-server/log-server.cpp:287-362 | the loops over the list have passed no entry they look for, and none is left between the purge and the erase |
| ServerHistory.MKeepsHistory | log-server/log-server.cpp:272-362 | turn by turn, with the reader interleaved, add, del and disconnect leave the list that their events describe |
| ServerHistory.RKeepsHistory | log-server/log-server.cpp:430-467 | an erase of the reader leaves the list that its event describes |
| ServerHistory.RKeepsIsolated | log-server/log-server.cpp:437-455 | a send is recorded with the session that added the entry, or with nobody once the map has been cleared |
| ServerHistory.MKeepsRequested | log-server/log-server.cpp:307-344 | whatever is added, or about to be, has been asked for by a message of the session it is added for |
| ServerHistory.MKeepsObedient | log-server/log-server.cpp:307-344 | step by step: a command that has been taken is carried through by the message thread's next event, and nothing else adds or deletes |
| ServerRuns.EveryRunIsSafe | log-server/log-server.cpp:365-470 | the whole invariant holds after every run of the three threads, from the start |
| ServerRuns.SessionIsolation | log-server/log-server.cpp:429-468 | every line sent in any run goes to the `Client` of the connection that added its entry if and only if the map had not been cleared before, and otherwise to nobody; the entry was added before any closing of that connection, and no del, disconnect or exception has removed it since |
| ServerRuns.LateLines | log-server/web_socket_server.cpp:259-265 | a line sent after its connection was closed falls between `Disconnect` and the purge in `OnDisconnect` |
| ServerRuns.SendReachesIff | log-server/log-server.cpp:451-455 | a line about to be sent goes to the `Client` that added its entry if and only if the map has not been cleared; and then the connection of that client is closed if and only if the message thread waits to purge it |
| ServerRuns.LinesWereAskedFor | log-server/log-server.cpp:307-344 | a line sent to a session is of a log that a message of this same session has asked for before |
| ServerHistory.MKeepsClosings | log-server/web_socket_server.cpp:259-276 | a closed session is in the map only while the message thread purges and erases it, and nothing is added for it |
| ServerRuns.AddedByTheClientServed | log-server/log-server.cpp:272-276 | an added entry bears the id and session of the client whose message asked for it, which is in the map |
| ServerRuns.GotFromTheClientServed | log-server/web_socket_server.cpp:253-255 | a message is handed on as it is, with the id and the session of the client whose turn it is |
| ServerRuns.CommandsAreObeyed | log-server/log-server.cpp:307-344 | in every run the message thread's next event after a message is what the message asks for: the deletion for its client and name, the addition for its client, session and name when the file opens, and otherwise neither |
| ServerRuns.MessagesComeFirst | log-server/log-server.cpp:307-344 | every addition and deletion comes directly after a message |
| ServerRuns.CommandsAreServedToTheEnd | log-server/web_socket_server.cpp:248-267 | when the message thread takes the next message or turns to the next client, every command taken before has been carried out |
| ServerRuns.CommandsAreOnMessage | log-server/log-server.cpp:307-344 | the event makes of the list what `LogServer.OnMessage` makes of it |
| ServerRuns.DeletionsAreOwn | log-server/log-server.cpp:291-303 | in every run a deletion leaves all entries of all other clients |
| ServerRuns.LookupStaysValid | log-server/log-server.cpp:437-454 | from the reader's find to its send no step of another thread touches the client found, without `clients_mutex`, except exactly the clearing at shutdown |
| ServerRuns.DefensiveBranchIff | log-server/log-server.cpp:437-443 | the reader finds the client of an entry if and only if the map has not been cleared |
| ServerRuns.OrphansComeLast | log-server/log-server.cpp:438-443 | in every history an entry is dropped for its missing client only after the clearing |
| ServerRuns.SubscriptionsBelongToLiveClients | log-server/log-server.cpp:346-362 | every entry's client is in the map under its own id and in the same session if and only if the map has not been cleared, and its name has no ".." |
| ServerRuns.ListRefinesHistory | log-server/log-server.cpp:243-362 | in every state the list is the replay of the events in order of addition, or on the way there during a purge |
| ServerRuns.NoLostWakeUp | log-server/log-server.cpp:212-225 | a thread that waits has an empty list to wait for, or the signalling thread holds the mutex and its next step wakes it, on both condition variables |
| ServerRuns.IdleThreadsWait | log-server/web_socket_server.cpp:190-198 | in every run the test for work is made under the mutex, and a thread begins to wait, and gives the mutex up, if and only if there is none; the same for the reader |
| ServerRuns.WokenBySignals | log-server/web_socket_server.cpp:141-144 | in every run a waiting thread is moved by the signal for the first client, or the first entry, or a spurious wake-up, and by nothing else |
| ServerRuns.GeneratedIdIsFree | log-server/web_socket_server.cpp:134-139 | in every run two probes suffice, the id is never -1, and it labels no client and no subscription although ids are reused |
| ServerRounds.SessionsAreAccepts | log-server/web_socket_server.cpp:125-155 | in every run each accept that succeeds becomes exactly one connection in the map, and nothing else does |
| ServerRuns.OnlyTheOwnerUnlocks | log-server/web_socket_server.cpp:166-188 | every change of a mutex's owner is the stepping thread taking a free mutex or releasing its own |
| ServerRuns.WaitingEndsAtARunner | log-server/web_socket_server.cpp:218-280 | the wait-for graph has no cycle: each path ends after one edge or two at another thread that can step |
| ServerRuns.BlockedMeans | log-server/log-server.cpp:189-220 | what keeps a thread from stepping: its end, a condition variable, the bound on accepts, or a mutex another thread owns |
| ServerRuns.NoDeadlock | log-server/web_socket_server.cpp:218-280 | when all threads are blocked, none is blocked on a mutex |
| ServerExamples.LineAfterDisconnect | log-server/web_socket_server.cpp:263-264 | for every add command and line, a run without shutdown in which the line is sent to a client whose connection has been closed |
| ServerExamples.LineAfterShutdown | log-server/web_socket_server.cpp:157-163 | for every add command and line, a run in which the line goes to a client that the shutdown has removed |
| ServerTurns.ScanEnds | log-server/log-server.cpp:287-305 | whatever the other threads do in between, the turns of a del come to the list that `StopReadingLog` leaves |
| ServerTurns.PurgeEnds | log-server/log-server.cpp:346-362 | ... and those of a disconnect to the list that `DeleteRequestsFromClient` leaves |
| ServerTurns.PassEnds | log-server/log-server.cpp:429-468 | ... and a pass of the reader, for some outcomes of its visits, to the list and the lines of `ReaderPass` |
| ServerRounds.LoopFollowsReceive | log-server/web_socket_server.cpp:251-267 | one turn of the inner loop after any `Receive` call: its message is handed on, the call is repeated for exactly the two codes that ask for it, and a failure closes the connection |
| ServerRounds.CommandReturns | log-server/web_socket_server.cpp:251-267 | whatever the other threads do during a command or a disconnect, the loop goes on where the code of the call has sent it |
| ServerRounds.EveryClientHasItsTurn | log-server/web_socket_server.cpp:241-278 | every client in the map when a round begins has its turn before the round ends, although others are erased on the way |
| ServerRounds.TurnsAscend | log-server/web_socket_server.cpp:241-278 | the turns of a round come in the order of the ids, and no client has two |
| ServerRounds.EveryEntryHasItsVisit | log-server/log-server.cpp:429-468 | every entry on the list when a pass of the reader begins is visited before it ends, and read if it is readable, whatever is erased on the way |
| ServerRounds.StopIsHonoured | log-server/web_socket_server.cpp:215 | once a stop is asked for, no thread begins another turn of its outer loop |
| EndToEnd.OutboxIsAskedFor | log-server/log-server.cpp:307-455 | every line sent to a session is of a log that one of the messages taken from it has asked for |
| EndToEnd.LinesAnswerTheSession | log-server/log-server.cpp:243-468 | end to end, for every run, cutting and outcomes of writes: what a session reads after the response is text frames, each with a line of a log that a text frame of the same session, already arrived, has asked for, and at most one closing frame, at the end |
| EndToEnd.WireDecodes | log-server/client.cpp:381-408 | what successive sends and then perhaps a `Disconnect` put on the wire is read back frame by frame |

## Left out

- TLS, sockets, `select`, `accept`: their results are choices of the environment (`Streams.Io`, `Server.MInput`, `Server.RInput`). A write to a client either takes the whole frame or fails.
- Files and processes of `LogDescription`: opening succeeds or fails, a read gives a line or not. `Cleanup` is not modelled, and neither is the pacing of `GetNextLine`.
- The shutdown path beyond clearing the map: `Stop`, the closing frames it sends, and threads that wait while it happens.
- `send_buf` of one client is filled by the reader in `Send` and by the message thread in `Disconnect`, under no common mutex: each call is one step, and the closing frame comes after the lines.
- `SendFrame` on a connection that has been closed, and sends that block: a send is one step of the reader.
- Data races inside `std::map` and `std::list`: every map and list operation is one step.
- Incoming frames with 16-bit and 64-bit lengths in the results about streams: the host byte order decides them. What the parser makes of them is characterised exactly.
- The 64-bit outgoing form as a claim about the standard: `Send` cannot reach it.
- Header values of 0 or more than 255 octets: an empty copy ends the process by an assertion, which the model calls `Aborted`; theorems about accepted requests assume lengths from 1 to 255.
- Keys longer than 219 octets: the length of key and GUID would not fit 8 bits.
- The resource of the request: `sscanf` is modelled as finding something that is not a space, and its target buffer not at all.
- Values shorter than the constant `memcmp` compares them with: the model compares the octets that are there.
- Clients.Client.Receive: after a failing call the buffer is not described, because the connection is erased.
- ServerRuns.GeneratedIdIsFree: the number of accepts is below 2^31 - 1, beyond which the source's `int` counter could overflow.
- EndToEnd.LinesAnswerTheSession: takes as a hypothesis that the messages of a session in the step system are those its `Receive` calls deliver, as the step system chooses them freely.
- Fair scheduling and progress over time: the results are about what can be reached, not about when.
- The web interface, its templates and build scripts, and the duplicate headers under `log-server/include`.
