# Verification model of purse-first's codecs, analyzers and protocol cores

This project models five cores of the purse-first repository in Dafny and proves what they are
for. To verify: `dafny verify dfyconfig.toml`.

**Bech32** (`Words`, `Strings`, `Bech32Checksum`, `Bech32Bits`, `Bech32Codec`, `Bech32Vector`). The checksum
register of BIP 173 works on exclusive or, which `Words.Xor` defines on naturals bit by bit. A
step of the register loses nothing, because the low five bits of the generators are linearly
independent, and the last six symbols enter it unreduced. From that follow the existence and
uniqueness of checksums and the detection of every burst of up to six symbols, at any length.
`convertBits` is specified on bit strings; `Encode` and `Decode` are proved inverse to each
other, with the exact condition under which letter case survives.

**Repool path search** (`Repool`). The depth-first search over the blocks of a control-flow
graph is proved exact against paths, and the whole check exact against execution node by node.

**Request and response correlation** (`JsonRpcId`, `StreamableHttp`, `JsonRpcConn`,
`McpHandler`, `McpServer`). Each is a state machine whose steps are the lock regions, channel operations and
writes of the goroutines; the results hold in every state that any interleaving reaches.

**Text limiting and framing** (`Utf8`, `TextLimits`, `Decimal`, `Framing`). Truncation keeps
UTF-8 well-formed (section 4 of RFC 3629) and respects every limit; the `Content-Length` framing
is proved to read back what was written, from streams cut off anywhere.

**Operation tree and flag parser** (`Operation`, `CliFlags`). Nested operations with panics as
control flow and cleanup callbacks; flag parsing and positional arguments.

Methods that loop or change state are written as such and proved equal to a function; the lemmas
are about the functions. Proofs use `hide` to keep definitions they do not need out of the way.

Where the code falls short of what one might expect, the model keeps the code and says exactly
when it does well:

- Requests are matched by the string form of their ids, which is the same for the number 1 and
  the string "1" (`FormsAgree`). An HTTP client is sure of its own reply, of its entry in
  `pending`, and of not losing that entry to another, exactly when no other request has its id
  or such a spelling of it (`OwnReplyExactly`, `PendingExactly`, `DroppedExactly`). In every case
  `pending` drains (`PendingDrains`). That is for all interleavings; in one run it is enough that
  those with the same key take turns (`TurnsGetOwnReply`).
- A call on a connection likewise can return a response exactly when that has its id or is a
  string that spells it (`ReturnsExactly`). It is sure of its very id, in all runs, exactly when
  the peer sends no such string (`OwnIdExactly`).
- A server survives a set of messages, in every run, exactly when each has the id that its
  method needs; otherwise a nil dereference ends the process (`CrashesExactly`).
- A positional argument is dropped without a Variadic parameter to take it, and overwritten when
  the Variadic parameter has the same name as the parameter that took it (`AssignedInOrder`).
- Call keys of a connection repeat only after 2^64 calls (`KeyRepeats`).
- Encoding what was decoded gives back the very string unless it was upper case and its
  human-readable part has no letter (`Canonical`).
- `LimitText` without limits changes texts that end in two newlines, and no others (`NoLimits`),
  although its documentation says that zero limits mean unlimited.

## Model

| member | source | states |
|---|---|---|
| Bech32Checksum.Polymod | libs/dewey/internal/0/bech32/main.go:34-48 | the register loop computes the fold of single steps from 1, and stays 30 bits wide, so no shift loses bits |
| Bech32Checksum.TapsInjective | libs/dewey/internal/0/bech32/main.go:32-45 | the sums of generators that two values of the five top bits select differ in their low five bits |
| Bech32Checksum.StepInjective | libs/dewey/internal/0/bech32/main.go:36-46 | two different 30-bit registers that take in the same value stay different |
| Bech32Checksum.FoldInjective | libs/dewey/internal/0/bech32/main.go:36-46 | two different registers stay different over any common continuation |
| Bech32Checksum.StepAbsorbs | libs/dewey/internal/0/bech32/main.go:36-46 | a difference below the top five bits moves up unreduced, with the new symbol below it |
| Bech32Checksum.FoldSymbols | libs/dewey/internal/0/bech32/main.go:34-48 | up to six symbols change the register exactly by the number they are the base-32 digits of |
| Bech32Checksum.ExpandHrp | libs/dewey/internal/0/bech32/main.go:50-61 | high parts of the lower-cased characters, a zero, low parts |
| Bech32Checksum.HrpExpanded | libs/dewey/internal/0/bech32/main.go:50-61 | high parts in front of a zero, low parts behind it, which together spell the lower-cased characters |
| Bech32Checksum.VerifyChecksum | libs/dewey/internal/0/bech32/main.go:63-65 | accepts exactly when the fold over expanded prefix and data is 1 |
| Bech32Checksum.CreateChecksum | libs/dewey/internal/0/bech32/main.go:67-77 | the shifts and masks give the six base-32 digits of the register |
| Bech32Checksum.ChecksumUnique | libs/dewey/internal/0/bech32/main.go:63-77 | of all six-symbol suffixes exactly the created one makes the data verify, for every prefix and data |
| Bech32Checksum.BurstDetected | libs/dewey/internal/0/bech32/main.go:34-65 | two equally long data parts that both verify and differ only within six adjacent symbols are equal |
| Bech32Bits.ConvertBits | libs/dewey/internal/0/bech32/main.go:79-105 | the loop over the wrapping 32-bit accumulator computes the regrouping of the bit string, for all widths up to eight, with the same three errors |
| Bech32Bits.OrBits | libs/dewey/internal/0/bech32/main.go:89 | or-ing a value in puts its bits behind those pending |
| Bech32Bits.TakesIn | libs/dewey/internal/0/bech32/main.go:84-89 | taking in a value keeps every pending bit although the accumulator wraps at 32 bits |
| Bech32Bits.RegroupRoundTrip | libs/dewey/internal/0/bech32/main.go:79-105 | eight to five bits padded, then five to eight unpadded, is the identity on all byte sequences |
| Bech32Bits.RegroupKeepsNumber | libs/dewey/internal/0/bech32/main.go:79-105 | input and output are the digits of one number but for zero bits, fewer than a group, added with padding or dropped without |
| Bech32Bits.AcceptsExactly | libs/dewey/internal/0/bech32/main.go:98-103 | without padding exactly those inputs are accepted whose left-over bits are too few for a value, and zero |
| Bech32Bits.RegroupCanonical | libs/dewey/internal/0/bech32/main.go:79-105 | whatever five to eight bits unpadded accepts, eight to five padded gives back |
| Bech32Codec.Encode | libs/dewey/internal/0/bech32/main.go:109-140 | computes the encoding or the first error that applies, for every string and byte sequence |
| Bech32Codec.Decode | libs/dewey/internal/0/bech32/main.go:144-173 | computes the decoding or the first error that applies, for every ASCII string |
| Bech32Codec.RoundTrip | libs/dewey/internal/0/bech32/main.go:109-173 | decoding an encoding succeeds with the same prefix, case kept and digits 1 included, and the same data |
| Bech32Codec.DecodesAnyCase | libs/dewey/internal/0/bech32/main.go:142-173 | an encoding written in either single case decodes to the same data |
| Bech32Codec.Canonical | libs/dewey/internal/0/bech32/main.go:109-173 | re-encoding what decoded gives the string up to case, and the string itself exactly when it is lower case or its prefix has a capital letter |
| Bech32Codec.EncodesExactly | libs/dewey/internal/0/bech32/main.go:109-125 | exactly the non-empty visible prefixes of one letter case are accepted, and which error the others get |
| Bech32Codec.DecodesExactly | libs/dewey/internal/0/bech32/main.go:144-173 | exactly the encodings are accepted, each in lower or in upper case |
| Bech32Codec.DecodeErrors | libs/dewey/internal/0/bech32/main.go:145-171 | why each other ASCII string is rejected: mixed letters, the place of the last separator, the first wrong character, no values that assemble to it, or wrong padding |
| Bech32Codec.BurstOfCharacters | libs/dewey/internal/0/bech32/main.go:144-173 | two strings that both decode and differ only in six adjacent data characters, none a separator, agree up to case |
| Bech32Vector.EncodesEmpty | libs/dewey/internal/0/bech32/main.go:30-140 | the encoding of nothing under "a" is the shortest valid string of BIP 173, which fixes generators, initial and final value, and charset |
| Repool.SearchUnused | libs/dewey/internal/0/analyzer_repool/analyzer.go:244-271 | started with an empty map, returns a block exactly when some path avoids v and ends in a return; terminates and visits each block once, cycles included |
| Repool.NoPathLeft | libs/dewey/internal/0/analyzer_repool/analyzer.go:244-271 | once the search has left nothing behind at any block seen, no leaking path exists |
| Repool.LeaksExactly | libs/dewey/internal/0/analyzer_repool/analyzer.go:222-238 | execution, node by node, can reach a return untouched exactly when the rest of the block is unused and the block returns or a path over blocks exists |
| Repool.FindDefinition | libs/dewey/internal/0/analyzer_repool/analyzer.go:203-220 | finds the first node in block order that is the definition, if any |
| Repool.HasSuppressComment | libs/dewey/internal/0/analyzer_repool/analyzer.go:439-454 | finds a suppressing comment exactly when one is on the line of the definition or the line above, in any file |
| Repool.DeferUsesVar | libs/dewey/internal/0/analyzer_repool/analyzer.go:320-362 | exactly when a top-level defer uses v |
| Repool.CheckVarUsedOnAllPaths | libs/dewey/internal/0/analyzer_repool/analyzer.go:170-242 | reports exactly when no comment suppresses it, no top-level defer uses v, the definition is found, and execution can go from behind it to a return without touching v |
| JsonRpcId.FormsAgree | libs/go-mcp/jsonrpc/message.go:59-67 | two ids have the same string form exactly when they are equal, or one is a string that spells the other, a number or null |
| StreamableHttp.StreamableHttp.TakePending | libs/go-mcp/transport/streamablehttp/streamablehttp.go:178-184 | the lock region of Write finds the channel and removes the entry in one step |
| StreamableHttp.StreamableHttp.RegisterPending | libs/go-mcp/transport/streamablehttp/streamablehttp.go:277-282 | a later registration of the same key replaces the earlier one |
| StreamableHttp.StepKeepsInv | libs/go-mcp/transport/streamablehttp/streamablehttp.go:163-308 | every atomic step of handlers, writers and readers keeps the correlation invariant |
| StreamableHttp.SendNeverBlocks | libs/go-mcp/transport/streamablehttp/streamablehttp.go:173-191 | in every interleaving, repeated ids included, the send in Write finds an empty buffer and each channel is sent to at most once |
| StreamableHttp.PendingDrains | libs/go-mcp/transport/streamablehttp/streamablehttp.go:284-308 | with no active handler left the map is empty, repeated ids included |
| StreamableHttp.ReadInOrder | libs/go-mcp/transport/streamablehttp/streamablehttp.go:163-170 | in every run each message put into the queue was read once and in order or is still in it, at most 64 of them |
| StreamableHttp.ReadsDelivered | libs/go-mcp/transport/streamablehttp/streamablehttp.go:163-170 | the server knows exactly the requests it was delivered, and the transport is closed exactly after a Close |
| StreamableHttp.NeverStuck | libs/go-mcp/transport/streamablehttp/streamablehttp.go:276-308 | a handler can always go on or give up, takes a reply that was sent, and a Write can always go on |
| StreamableHttp.OwnReply | libs/go-mcp/transport/streamablehttp/streamablehttp.go:276-308 | if no other handler of the run has the key of this one, a reply it gets is the one to its own request |
| StreamableHttp.PendingExact | libs/go-mcp/transport/streamablehttp/streamablehttp.go:276-308 | if no other handler has its key, the map lists a handler exactly while it is registered, has not left and no Write has found its channel |
| StreamableHttp.DroppedReply | libs/go-mcp/transport/streamablehttp/streamablehttp.go:178-190 | if no other handler has its key, a reply to a handler finds no channel only if one was found before or its client has gone |
| StreamableHttp.NoReplyLost | libs/go-mcp/transport/streamablehttp/streamablehttp.go:173-191 | if no other handler has its key, the reply to a waiting handler, once written, is in its channel or with a Write that is looking for it or about to send to it |
| StreamableHttp.RivalsSpent | libs/go-mcp/transport/streamablehttp/streamablehttp.go:173-191 | handlers that were all answered used up the replies to all of them, by counting |
| StreamableHttp.TurnsGetOwnReply | libs/go-mcp/transport/streamablehttp/streamablehttp.go:173-191 | if no reply is written twice, nor before its request is read, and each other handler with the key of this one was answered before this one registered or registered after this one was answered, a reply it gets is its own; the others may overlap each other |
| StreamableHttp.RepeatedIdMisroutes | libs/go-mcp/transport/streamablehttp/streamablehttp.go:276-308 | for any two handlers whose ids are equal or spell each other, a run, with one write of one reply, in which one gets the reply to the other |
| StreamableHttp.RepeatedIdStarves | libs/go-mcp/transport/streamablehttp/streamablehttp.go:284-308 | and a run in which one disconnects and the other, still waiting, has no entry left |
| StreamableHttp.OwnReplyExactly | libs/go-mcp/transport/streamablehttp/streamablehttp.go:276-308 | for any assignment of ids to handlers: in all runs a handler gets only its own reply, if and only if no other has its id or a spelling of it |
| StreamableHttp.PendingExactly | libs/go-mcp/transport/streamablehttp/streamablehttp.go:276-308 | on the same condition, and only then, the map lists it exactly while its reply is due, in all runs |
| StreamableHttp.DroppedExactly | libs/go-mcp/transport/streamablehttp/streamablehttp.go:178-190 | on the same condition, and only then, its reply never finds the entry gone while it waits, in all runs |
| JsonRpcConn.KeyRepeats | libs/go-mcp/jsonrpc/conn.go:32-34 | the string forms of two ids are equal exactly when the calls are a multiple of 2^64 apart |
| JsonRpcConn.FirstIds | libs/go-mcp/jsonrpc/conn.go:32-34 | the ids are one, two and so on until the 64-bit counter wraps around |
| JsonRpcConn.Conn.NextID | libs/go-mcp/jsonrpc/conn.go:32-34 | the wrapping counter gives the id of the next call |
| JsonRpcConn.Conn.TakePending | libs/go-mcp/jsonrpc/conn.go:58-64 | the lock region of handleResponse finds the channel and removes the entry in one step |
| JsonRpcConn.ChannelUsedOnce | libs/go-mcp/jsonrpc/conn.go:58-70 | in every interleaving each call channel gets at most one send and one close, and neither blocks or panics |
| JsonRpcConn.ChannelDone | libs/go-mcp/jsonrpc/conn.go:66-69 | a channel that was found has been sent to and closed, once each, when the reader goes on |
| JsonRpcConn.CallNeverStuck | libs/go-mcp/jsonrpc/conn.go:91-123 | a call that has not returned can always go on or give up |
| JsonRpcConn.ReturnsOwnResponse | libs/go-mcp/jsonrpc/conn.go:111-122 | whatever response a call returns has its own id or a string that spells it, and is never the nil of a closed channel |
| JsonRpcConn.NoResponseLost | libs/go-mcp/jsonrpc/conn.go:58-70 | a response that has found a waiting call is in its channel or about to be sent there |
| JsonRpcConn.ReturnsExactly | libs/go-mcp/jsonrpc/conn.go:58-70 | for every call and response: some run returns it to the call, if and only if it has the id of the call or spells it |
| JsonRpcConn.OwnIdExactly | libs/go-mcp/jsonrpc/conn.go:58-123 | for any set of responses the peer may send: in all runs the call returns only one with its very id, if and only if none of them spells it |
| JsonRpcConn.OutcomeTells | libs/go-mcp/jsonrpc/conn.go:94-122 | a call returns the marshalling, write or context error exactly if that failed, and otherwise a response that was read |
| JsonRpcConn.DistinctKeys | libs/go-mcp/jsonrpc/conn.go:91-102 | up to 2^64 calls have pairwise distinct keys |
| JsonRpcConn.PendingExact | libs/go-mcp/jsonrpc/conn.go:91-123 | up to 2^64 calls, a key is pending exactly while its call is registered, has not returned and was not answered |
| JsonRpcConn.ReturnedLeavesNothing | libs/go-mcp/jsonrpc/conn.go:104-122 | by whichever exit a call returned, its key is not pending and later responses to it change nothing |
| JsonRpcConn.DuplicateDropped | libs/go-mcp/jsonrpc/conn.go:58-70 | a second response to a call changes nothing |
| JsonRpcConn.NeverListsReturned | libs/go-mcp/jsonrpc/conn.go:91-123 | after any number of calls, an entry of the map belongs to a call that has not returned |
| McpHandler.CallsExactly | libs/go-mcp/server/handler.go:26-81 | which methods call a provider |
| McpHandler.ProviderByName | libs/go-mcp/server/handler.go:26-81 | which provider each of them calls |
| McpHandler.ParamsByName | libs/go-mcp/server/handler.go:161-369 | all but the listings answer undecodable parameters with an error |
| McpHandler.V1ByName | libs/go-mcp/server/handler.go:161-369 | the methods of tools, resources and prompts have a V1 form, but for reading a resource |
| McpHandler.V1ProvidersExactly | libs/go-mcp/server/handler.go:83-104 | some V1 provider exists exactly if one exists only in V1 or implements it |
| McpHandler.Handler.Handle | libs/go-mcp/server/handler.go:26-81 | returns nothing for what is owed nothing, else a response with the id of the request or an error, and dereferences nil exactly when a request method comes without an id; only initialize changes the handler; which error code or result, case by case |
| McpHandler.Handler.HandleInitialize | libs/go-mcp/server/handler.go:113-155 | V1 is negotiated exactly when it is requested and some V1 provider exists, and the response names the version stored |
| McpServer.HandleMessage | libs/go-mcp/server/server.go:83-98 | writes exactly what is owed, with the content that the handler decided on case by case and the internal error for what does not marshal, unless the id is missing and the process ends |
| McpServer.NeverMoreThanOwed | libs/go-mcp/server/server.go:41-98 | in every state of every run, nothing beyond what is owed has been written for a message |
| McpServer.WritesWhatHandled | libs/go-mcp/server/server.go:83-98 | in every run, what is written for a message is what the handler returned for it, or the internal error for an error |
| McpServer.AllServedBeforeClose | libs/go-mcp/server/server.go:41-105 | after the exit every message read got exactly what it is owed, all of it before the one closing of the transport |
| McpServer.LogTells | libs/go-mcp/server/server.go:41-105 | the log shows the messages read, the progress reported and the closing, and no others |
| McpServer.ShutdownProgresses | libs/go-mcp/server/server.go:100-105 | a shutdown that has begun can always go on |
| McpServer.StepsLeftDrops | libs/go-mcp/server/server.go:83-105 | while the shutdown waits, each step but a progress notification leaves fewer steps to be taken |
| McpServer.ShutdownEnds | libs/go-mcp/server/server.go:100-105 | so from its beginning to its end a shutdown takes at most as many steps as its goroutines have left, and the closing |
| McpServer.ExitIsFinal | libs/go-mcp/server/server.go:52-81 | after the exit or the end of the process no goroutine does anything any more |
| McpServer.CrashesExactly | libs/go-mcp/server/server.go:75-94 | for any set of messages: no run over them ends in a nil dereference, if and only if each has the id its method needs |
| Utf8.TruncateUtf8 | libs/go-mcp/output/text.go:151-167 | the loop drops trailing bytes until the string is well-formed, four tries at most |
| Utf8.ValidExactly | libs/go-mcp/output/text.go:160 | the strings taken for well-formed are exactly the encodings of sequences of characters, surrogates excluded |
| Utf8.CutBackThree | libs/go-mcp/output/text.go:156-164 | a well-formed string cut anywhere is well-formed after dropping at most three more bytes |
| Utf8.BackUpLongest | libs/go-mcp/output/text.go:156-166 | so on pieces of well-formed strings the four tries find the longest well-formed prefix |
| Utf8.BackUpAny | libs/go-mcp/output/text.go:156-166 | on any string the four tries find the longest well-formed prefix, or give up four bytes shorter |
| TextLimits.TruncateAt | libs/go-mcp/output/text.go:131-148 | cuts behind the last newline after the first byte, else at a rune |
| TextLimits.LimitText | libs/go-mcp/output/text.go:36-102 | the stepwise reassignment keeps the lines, position and counts that the limits describe in closed form |
| TextLimits.LinesKept | libs/go-mcp/output/text.go:50-73 | head and max lines keep the first lines of the input, tail the last, max lines bounds either, and exactly so many; else all lines stay |
| TextLimits.ContentKept | libs/go-mcp/output/text.go:50-78 | these lines are the content unless the limit on bytes cuts |
| TextLimits.ReportsCuts | libs/go-mcp/output/text.go:47-102 | position and line counts reported are those of the cut made |
| TextLimits.ContentIsSubstring | libs/go-mcp/output/text.go:36-127 | the content is a contiguous piece of the input, for all inputs and limits |
| TextLimits.TruncatedExactly | libs/go-mcp/output/text.go:84-101 | truncated is reported exactly when the content differs from the input |
| TextLimits.WithinLimits | libs/go-mcp/output/text.go:50-101 | content and kept lines respect every positive limit and the original count, also after the recount |
| TextLimits.StaysValid | libs/go-mcp/output/text.go:36-167 | well-formed input gives well-formed content for all limits |
| TextLimits.CutsLongest | libs/go-mcp/output/text.go:140-167 | without a usable newline the content is the longest well-formed prefix that fits |
| TextLimits.CutsAtLine | libs/go-mcp/output/text.go:142-145 | with a usable newline the content ends at the last one within the limit |
| TextLimits.NoLimits | libs/go-mcp/output/text.go:106-127 | without limits the input comes back unchanged exactly when it does not end in two newlines |
| Decimal.AtoiOfInt | libs/go-mcp/jsonrpc/stream.go:50-57 | parsing a printed number gives the number back on the whole 64-bit range |
| Decimal.AtoiSigned | libs/go-mcp/jsonrpc/stream.go:50-57 | digits with or without a sign give their value if it fits into 64 bits |
| Decimal.AtoiRejects | libs/go-mcp/jsonrpc/stream.go:50-57 | nothing but digits, with at most a sign before them, is a number |
| Framing.Stream.Read | libs/go-mcp/jsonrpc/stream.go:28-74 | the header loop reads one frame off the input, or fails with the first error that applies, a length too large to allocate included |
| Framing.Stream.Write | libs/go-mcp/jsonrpc/stream.go:76-95 | appends the header with the length of the body, and the body |
| Framing.WideSpaceExactly | libs/go-mcp/jsonrpc/stream.go:37-48 | besides ASCII white space exactly the encodings of Unicode white space are trimmed |
| Framing.ReadWritten | libs/go-mcp/jsonrpc/stream.go:28-95 | reading what was written gives the body and stops at its end, whatever follows, exactly if a buffer for the body can be allocated |
| Framing.HeaderIgnored | libs/go-mcp/jsonrpc/stream.go:43-56 | a frame reads the same behind any other header line |
| Framing.OtherHeader | libs/go-mcp/jsonrpc/stream.go:43-56 | other headers change nothing, a later length replaces an earlier one, and one that is no number is an error |
| Framing.AnyCaseOfName | libs/go-mcp/jsonrpc/stream.go:50 | the length is recognized under its name in any case |
| Framing.MalformedHeaders | libs/go-mcp/jsonrpc/stream.go:38-61 | a line without a colon is an error unless blank, and a blank line without a length before it is |
| Framing.CutFrameFails | libs/go-mcp/jsonrpc/stream.go:32-66 | a frame cut short anywhere is never taken for a message |
| Framing.StreamRoundTrip | libs/go-mcp/jsonrpc/stream.go:28-95 | any sequence of written messages, cut off anywhere in the next one, reads back as exactly the complete messages in order |
| Operation.Context.Run | libs/go-mcp/operation/ctx.go:38-101 | for every finite tree of bodies, appends the trace of the operation and returns the error of a failed return or an abort |
| Operation.Context.RunMust | libs/go-mcp/operation/cleanup.go:17-26 | runs the callbacks in reverse, collects their errors, and fails only a success |
| Operation.Context.RunAfter | libs/go-mcp/operation/cleanup.go:11-15 | runs the callbacks in reverse |
| Operation.WellBracketed | libs/go-mcp/operation/ctx.go:43-63 | the log of every run is well bracketed, with depth equal to nesting |
| Operation.CleanupOrder | libs/go-mcp/operation/ctx.go:59-63 | directly before the End event come the Afters in reverse order, and before them the Musts in reverse order |
| Operation.RunsOnce | libs/go-mcp/operation/cleanup.go:3-26 | in a whole run each callback runs exactly as often as it was registered |
| Operation.MustOnlyFailsSuccess | libs/go-mcp/operation/cleanup.go:17-26 | the outcome is success exactly when the body returned and no Must failed; no other outcome changes |
| Operation.ReturnsErrorOf | libs/go-mcp/operation/ctx.go:66-101 | the error returned is that of the body or the cause of an abort; other panics return none |
| Operation.EndReports | libs/go-mcp/operation/ctx.go:61-101 | what the End event reports, by how the body ended |
| Operation.EndReportsExtras | libs/go-mcp/operation/ctx.go:47-58 | diagnostics set are reported with the value set last, over those of the ending |
| Operation.BodyInOrder | libs/go-mcp/operation/ctx.go:38-92 | operations run in the order in which the body comes to them |
| Operation.CallbacksInOrder | libs/go-mcp/operation/cleanup.go:3-9 | callbacks are registered in that order |
| Operation.ErrorsInOrder | libs/go-mcp/operation/cleanup.go:17-26 | their errors are collected last registered first |
| CliFlags.ParseFlags | libs/go-mcp/command/cli.go:312-446 | the index loop computes the recursive parse of the arguments, errors included |
| CliFlags.Conserves | libs/go-mcp/command/cli.go:322-446 | each argument is a known flag, the value it consumes, or remains, in order |
| CliFlags.SpacedForm | libs/go-mcp/command/cli.go:330-446 | a flag followed by its value parses like the flag, an equals sign and the value, in all three spellings |
| CliFlags.SwitchForms | libs/go-mcp/command/cli.go:389-396 | a switch without a value is on, like one with any value but "false" |
| CliFlags.Spellings | libs/go-mcp/command/cli.go:330-365 | two dashes and the name, one dash and a longer name, or one dash and the short form stand for a parameter |
| CliFlags.FlagsAreSpelled | libs/go-mcp/command/cli.go:330-372 | and nothing else is a flag |
| CliFlags.SpellingIrrelevant | libs/go-mcp/command/cli.go:330-446 | whichever way a parameter is spelled it parses the same, but for the label in an error |
| CliFlags.LastDeclared | libs/go-mcp/command/cli.go:313-321 | of parameters with one name or one short form the last counts |
| CliFlags.FlagErrors | libs/go-mcp/command/cli.go:296-306 | a missing value and one that is no number are errors that show the flag as typed |
| CliFlags.ParseRendered | libs/go-mcp/command/cli.go:312-446 | parsing rendered settings among words that are no known flag gives back the words in order and every typed value |
| CliFlags.CollectsAll | libs/go-mcp/command/cli.go:377-432 | Array and Variadic parameters end with all their values in order |
| CliFlags.KeepsLast | libs/go-mcp/command/cli.go:390-442 | any other parameter ends with the value set last |
| CliFlags.AssignPositionals | libs/go-mcp/command/cli.go:109-139 | the loop computes the assignment and leaves over what it did not hand out |
| CliFlags.AssignedInOrder | libs/go-mcp/command/cli.go:105-139 | positionals go to the open parameters in order, the rest to the Variadic one behind its prior values, and nothing else changes; some are dropped only without it, and one is overwritten exactly when its parameter has the name of the Variadic one |

## Left out

- Decode: strings with characters outside ASCII, whose case folding changes byte lengths in Go (the Kelvin sign folds to k and is accepted). BIP 173 itself excludes them. `Encode` covers all strings.
- BurstOfCharacters: changes to the human-readable part, insertions and deletions, which BIP 173 does not promise to detect; and a replacement that is itself a separator.
- CheckVarUsedOnAllPaths: which nodes and statements use the variable comes from the Go type checker, and positions from the parser; neither is part of this model.
- The other analyzers, the generated facades and everything that reads or writes files.
- Headers, sessions, origins, server-sent events, timeouts and the HTTP server; only the correlation of requests and replies is modelled. Messages without an id that reach `Write` do nothing and are left out, as are POSTs with neither id nor method, which fail before they touch the shared state.
- DistinctKeys: assumes at most 2^64 calls on one connection; `KeyRepeats` says what happens beyond.
- Panicking providers, a second `Server.Close`, and `Conn.Close`, which only selects the error that the reader of a connection ends with.
- HandleMessage: errors that the transport returns on writing are ignored, as in the code.
- JSON is an opaque codec: a frame carries a body, whatever it encodes. Floats in flags are parsed and printed by two functions that the caller supplies.
- Framing.Stream.Read: the longest buffer that can be allocated is a parameter; Go panics beyond it.
- Utf8 looks at bytes as naturals below 256; strings elsewhere are sequences of characters.
- In operations: source locations, stack contents, `helpers`, callbacks registered during cleanup, and bodies that use the context of an ancestor. A body is a finite tree, so what it decides from a returned error is already decided.
- In the command line: dispatch to commands, help, pass-through arguments, and aliasing between slices that share a backing array.
