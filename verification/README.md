# PierCloud: a verified model of the tunnel and the code under it

PierCloud gives a machine without a public address a name on a public web
server. A browser's request starts a `Pier` CGI process on the server. It takes
the lock of the id, prints the request as a frame (its pid on a line, a header
block, the body) into a FIFO, and waits on a FIFO of its own. One `Connect`
process relays the shared FIFO to the client daemon, one write of `Connect` being
one HTTP chunk, with a `0` now and then as a ping. The client reads the chunked
stream, puts the frames together again, asks its local web server, and sends the
answer to a `Respond` process, which feeds the private FIFO of the `Pier` with
that pid.

The project models this in Dafny and proves that it works, and exactly when it
does not.

- `Tunnel.dfy` is the whole system for one id as a transition system: any number
  of Piers, the lock, the FIFOs, the chunks in flight, the client's parser, the
  Respond processes. `TunnelSafety.dfy` and `TunnelSteps.dfy` hold the invariant,
  `TunnelHistory.dfy` what the histories say, `TunnelTheorems.dfy` the results
  over all runs, `TunnelProgress.dfy` work and deadlock, `TunnelFailure.dfy` the
  exact condition for service, `TunnelCauses.dfy` what each failing run shows.
- `Request.dfy` is the incremental parser of the client as a function of state and
  chunk, `RequestParser.dfy` the same parser as it runs, on growing and shrinking
  buffers. `Frame.dfy` is the printer in `Pier` and `addHeader`,
  `FrameRoundTrip.dfy` printer and parser together, `FrameLines.dfy` the text of
  frame and request line by line.
- `Sockets.dfy` is the buffered framing layer over a transport that cuts as it
  likes, `Chunks.dfy` chunked coding over it, `ChunkReader.dfy` the two loops of
  the client that decode it, `AnswerHeader.dfy` the length that the header sent on
  announces, `AnswerBody.dfy` what becomes of the rows and bytes of a plain answer.
- `Base64.dfy`, `Liblst.dfy`, `LiblstSplit.dfy`, `LiblstTrim.dfy`, `Transfer.dfy`
  are the encoder, the string engine, and the retry loops with the SOCKS5 messages
  that go through them. `CString.dfy` and `CNumber.dfy` hold what the C library
  does for all of them, `Numerals.dfy` says which number a text reads as.

Where the original updates things in place the model does: buffers, sockets,
descriptors and the parser are classes, working copies and groups of bytes are
arrays, and each method is proved against a function whose properties are proved
in turn. A `char` stands for one byte and no statement depends on the number of
its values; base64 works on `bv8`.

What the tunnel assumes: one `Connect` and one client session for the id; distinct
live pids; one HTTP chunk for each write of `Connect`, read by the client under the
condition of `Chunks.DecodesExactly`; an open, read or write of a
FIFO as one step, and `Connect` reopening an empty FIFO without a writer as no step
at all; bodies of the announced length; variables and environment entries without
CR and LF; a local web server that is an arbitrary function from request to
response. Pings may come at any time, also where `select` would not time out. That
the header fits one read of `Connect` is not assumed: what happens otherwise is
part of the result.

Four results say where the code falls short, each with the exact condition:
`TunnelFailure.ServesExactlyWhenAllFit` (a header of 4096 bytes or more ends
the client daemon, and a body byte `0` that travels in a chunk by itself is taken
for a ping, after which nobody is served), `AnswerHeader.AnnouncesExactly` (a
chunked answer with a content length of its own goes out with both lengths),
`Chunks.NextChunkExactly` (a read that runs past a chunk loses what it brought of
the next), and `FrameRoundTrip.NameInverse` (which header names survive).

## Model

| member | source | states |
|---|---|---|
| TunnelTheorems.Routing | server/linux/src/piercloud-cgi.c:265-390 | in every reachable state of any number of Piers, what a Pier has printed is a prefix of the response to its own request, and all of it from the end of its read loop on |
| TunnelTheorems.Quiescence | server/linux/src/piercloud-cgi.c:265-387 | while the lock is free the FIFO, the data in flight, the parser and the Respond processes are empty; never more than one request outstanding; each request is emitted once, unchanged, in lock order |
| TunnelTheorems.MutualExclusion | server/linux/src/piercloud-cgi.c:265-387 | a Pier is between lock and unlock exactly when the lock is its own |
| TunnelTheorems.NoInterleaving | server/linux/src/piercloud-cgi.c:324-351 | the bytes written to the shared FIFO are whole frames in lock order, then a prefix of the holder's frame |
| TunnelTheorems.Conservation | client/linux/src/piercloud.c:479-500 | bytes written = bytes the client has taken + data in flight + FIFO; bytes taken = bytes given to the parser exactly when no chunk taken is a single `0`; those are consumed bytes + the parser's buffer, and the parser state is that of a run over them |
| TunnelTheorems.PingTransparency | server/linux/src/piercloud-cgi.c:178-184 | taking every ping out of a run, wherever it was, leaves a run to the same state: same bytes to the parser, same requests, same output |
| TunnelTheorems.FlatKept | client/linux/src/piercloud.c:186-192 | dropping the single-`0` chunks keeps the byte stream exactly when there is none |
| TunnelTheorems.FedConserves | client/linux/src/piercloud.c:491-500 | over a whole run the parser's buffer is the end of all bytes it was given |
| TunnelSteps.StepKeeps | server/linux/src/piercloud-cgi.c:99-395 | every enabled step of Pier, Connect, Respond and client keeps the invariant |
| TunnelSteps.TransitTake | client/linux/src/piercloud.c:242-315 | the next data chunk takes the parser to the next place in the holder's frame, or completes that frame with its own pid and request, or is a cut header of a head of 4096 bytes or more |
| TunnelSteps.TransitLost | client/linux/src/piercloud.c:186-192 | a data chunk taken for a ping is a `0` of the body, and fewer bytes are left than the parser waits for |
| TunnelSafety.FeedPiece | client/linux/src/piercloud.c:249-312 | the parser, given the next piece of a frame, is at the next place in it, and emits exactly at the end |
| TunnelSafety.TransitRead | server/linux/src/piercloud-cgi.c:191-210 | a read of Connect keeps parsed bytes, chunks in flight and FIFO in order, and a header of less than 4096 bytes in one chunk |
| TunnelHistory.SeparateStep | server/linux/src/piercloud-cgi.c:324-351 | every step keeps "whole frames in lock order, then a prefix of the holder's" |
| TunnelHistory.AccountedStep | client/linux/src/piercloud.c:155-195 | every step keeps the account of bytes relayed, in flight, dropped as pings and given to the parser |
| TunnelHistory.InOrderStep | client/linux/src/piercloud.c:207-237 | every step keeps "requests emitted once, in lock order" |
| TunnelHistory.EmitsForHolder | client/linux/src/piercloud.c:207-231 | a chunk that completes a request completes the lock holder's request |
| TunnelProgress.StepWork | server/linux/src/piercloud-cgi.c:99-395 | every step but a ping uses up work, a ping adds one unit |
| TunnelProgress.RunIsBounded | server/linux/src/piercloud-cgi.c:99-395 | a run is no longer than the work at its start and two steps for each ping |
| TunnelProgress.GoesOn | server/linux/src/piercloud-cgi.c:99-395 | no deadlock: a tunnel that is not stuck can take a step other than a ping until every Pier is done |
| TunnelFailure.ServesExactlyWhenAllFit | server/linux/src/piercloud-cgi.c:190-207 | from every state that any run reaches, some continuation serves every Pier its own response, if and only if every header has less than 4096 bytes and no body holds a `0` |
| TunnelFailure.NeverStuckExactlyWhenAllFit | server/linux/src/piercloud-cgi.c:190-207 | under exactly the same condition no run reaches a state where the client has exited or waits for more bytes than will come |
| TunnelCauses.StuckExactly | client/linux/src/piercloud.c:186-192 | run by run: stuck exactly when the client has taken a data chunk that is the single byte `0`, or has exited; then no continuation serves everyone |
| TunnelCauses.LongHeadNeverServed | client/linux/src/piercloud.c:254-265 | a Pier with a header of 4096 bytes or more is served in no run: no part of its frame ever stays with a living client |
| TunnelFailure.FailingRun | client/linux/src/piercloud.c:186-192 | for every frame that does not fit there is a run from the start that ends stuck on it |
| TunnelFailure.StuckForever | client/linux/src/piercloud.c:242-315 | once stuck, in every continuation the holder prints nothing and keeps the lock |
| TunnelFailure.Service | server/linux/src/piercloud-cgi.c:219-395 | when every frame fits, runs are bounded, and one that has come to a stop has printed every Pier its own response |
| Request.ChunkingIndependence | client/linux/src/piercloud.c:200-315 | for any stream and any cut into chunks the requests emitted are the front of those of a one-shot parse of the whole stream, in order, and the final state holds exactly what is left |
| Request.WholeStream | client/linux/src/piercloud.c:200-315 | a session that ends between frames has emitted exactly the requests of the one-shot parse |
| Request.FeedAhead | client/linux/src/piercloud.c:242-315 | one chunk takes exactly the request it emits off what is to be found |
| Request.FeedConserves | client/linux/src/piercloud.c:479-500 | what a call leaves in the buffer is the end of buffer and chunk |
| Request.AbortsExactlyWithoutHeader | client/linux/src/piercloud.c:254-265 | the daemon exits exactly when a chunk that begins a frame leaves the buffer without the blank line that ends the header block |
| Request.HeaderCompleteIff | client/linux/src/piercloud.c:254-302 | the line loop finishes the header block exactly when the text holds a blank line behind the pid line |
| Request.FeedAllSnoc | client/linux/src/piercloud.c:200-240 | a run over one more chunk is the run before it and one call |
| Request.FeedAllDies | client/linux/src/piercloud.c:254-265 | behind an exit no chunk is read |
| Request.LineText | client/linux/src/piercloud.c:463-477 | a line is the text in front of the first newline, cut at a NUL and without CR |
| RequestParser.Buffer.Increase | client/linux/src/piercloud.c:479-489 | the buffer holds the old bytes and the chunk, NUL behind them |
| RequestParser.Buffer.Cut | client/linux/src/piercloud.c:491-500 | the first bytes are gone, the others stay |
| RequestParser.Buffer.GetLine | client/linux/src/piercloud.c:463-477 | the first line, cut at a NUL and without CR, is taken off; without a newline nothing changes |
| RequestParser.Client.ReadHeaderLine | client/linux/src/piercloud.c:264-284 | one header line is taken, its Host rewritten, its content length noted, and appended to the request |
| RequestParser.Client.ReadHeader | client/linux/src/piercloud.c:264-302 | the header loop equals the recursive header parse of the buffer |
| RequestParser.Client.GetConnectionRequest | client/linux/src/piercloud.c:242-315 | the statics and both buffers move as the parser's step function says, for every state and buffer |
| RequestParser.Client.Chunk | client/linux/src/piercloud.c:200-240 | a call is one step of the parser: exit, nothing, or a child process with exactly that pid and request |
| Frame.EditEntry | server/linux/src/piercloud-cgi.c:402-437 | editing an environment string in place yields the header line for it, or none without a `=` |
| Frame.AddHeader | server/linux/src/piercloud-cgi.c:397-439 | appends the header lines of the entries in order, each ended by CR LF |
| Frame.BuildHead | server/linux/src/piercloud-cgi.c:301-322 | the block that Pier builds step by step is pid line, header lines, blank line |
| Frame.LinesRoundTrip | client/linux/src/piercloud.c:264-302 | parsing printed header lines gives the lines back up to Host rewrite and CR LF to LF, and leaves what followed them |
| FrameLines.RequestLineFields | server/linux/src/piercloud-cgi.c:305-308 | the request line splits at its spaces into method, uri and protocol, in this order; GET and HTTP/1.1 stand in for a variable that is not set |
| FrameLines.HeadText | server/linux/src/piercloud-cgi.c:301-322 | cut at CR LF, the header block is pid, request line, the lines of the HTTP_ entries, those of the CONTENT_ entries, both in environment order and none left out, and a blank line |
| FrameLines.HttpLine | server/linux/src/piercloud-cgi.c:402-437 | HTTP_NAME=value prints as NAME, its first byte kept, the others in lower case with dashes, then a colon, a space and the value |
| FrameLines.ContentLine | server/linux/src/piercloud-cgi.c:412-437 | the same for CONTENT_NAME=value, with the whole name |
| FrameLines.OtherLine | server/linux/src/piercloud-cgi.c:416-434 | with no name in front of the `=` the mapping goes on in the value; without `=` no line |
| FrameLines.HostReceived | client/linux/src/piercloud.c:267-282 | for a frame whose environment names the client as host, the request holds "Host: localhost" and "Authorization: Basic" with the login in the place of the Host line |
| FrameLines.HostLineRewritten | client/linux/src/piercloud.c:272-274 | these two lines, written out, are what the client's Host line becomes |
| FrameLines.OtherLineKept | client/linux/src/piercloud.c:272-274 | a line in which the client's public name does not occur is received unchanged |
| FrameLines.LineReceived | client/linux/src/piercloud.c:281-282 | each line is received in its place |
| FrameLines.PlainReceived | client/linux/src/piercloud.c:264-312 | a request without the client's public name is the frame's lines ended by LF, a blank line and the body |
| FrameRoundTrip.ZeroPidCarries | client/linux/src/piercloud.c:207-237 | a frame with pid 0 is not answered; its text goes out in front of the next request |
| FrameRoundTrip.FrameReceived | server/linux/src/piercloud-cgi.c:301-350 | an idle client that is given a frame emits the same pid, header lines and body, and is idle again |
| FrameRoundTrip.FeedHead | client/linux/src/piercloud.c:249-312 | the header block with any front of the body is parsed to the place in the frame it reaches |
| FrameRoundTrip.FeedMore | client/linux/src/piercloud.c:304-312 | any later piece of the body takes the parser to the place it reaches |
| FrameRoundTrip.HeadPrefixAborts | client/linux/src/piercloud.c:254-265 | every proper front of a header block ends the daemon |
| FrameRoundTrip.OneEntryAnnounces | server/linux/src/piercloud-cgi.c:304-320 | with one environment entry CONTENT_LENGTH holding the length of the body, and no other entry or variable that prints as a content length, the client reads that length |
| FrameRoundTrip.OneLengthAnnounces | client/linux/src/piercloud.c:276-279 | the last content length counts: with a line for the length of the body, and none behind it that reads as a content length, the client reads that length |
| FrameRoundTrip.RewriteKeepsLength | client/linux/src/piercloud.c:270-279 | the Host rewrite neither makes nor unmakes a content-length line |
| FrameRoundTrip.NameInverse | server/linux/src/piercloud-cgi.c:402-434 | the name mapping inverts that of section 4.1.18 of RFC 3875, letter case aside, exactly when the field name holds no underscore behind its first byte and does not begin with a dash |
| Sockets.RowsReadAreRows | client/linux/src/socket.c:154-184 | for every read schedule, successive calls return the rows of the stream |
| Sockets.RowsAreTheStream | client/linux/src/socket.c:17-55 | without NUL the rows with their newlines and the unfinished last one are the stream |
| Sockets.FillRowFinds | client/linux/src/socket.c:154-184 | reading for a row finds one exactly when the stream has one, the first, and loses no byte |
| Sockets.FillRowLocal | client/linux/src/socket.c:154-184 | reading for a row touches no piece behind the one that completes it |
| Sockets.FillBufFinds | client/linux/src/socket.c:207-219 | filling succeeds exactly when the stream is long enough, and never reads beyond the size |
| Sockets.Socket.Increase | client/linux/src/socket.c:63-146 | one read appends what the transport gives and returns its length, 0 at the end |
| Sockets.Socket.GetRow | client/linux/src/socket.c:154-184 | returns the first row of buffer and stream and keeps all that follows, or null exactly when there is none |
| Sockets.Socket.GetBuf | client/linux/src/socket.c:193-245 | hands over the first `size` bytes; nothing is lost exactly when the buffer held no more than that; null, untouched and data cases apart |
| Chunks.DecodesExactly | client/linux/src/piercloud.c:155-195 | when no read runs past the end of its chunk, the blocks decoded are exactly the data of the chunks, for any bytes, any cut inside a chunk, and ends by closing or by a size of 0 |
| Chunks.ChunkRound | client/linux/src/socket.c:207-241 | reading a chunk yields its data and drops at most bytes of the CR LF behind it |
| Chunks.PrintedChunk | client/linux/src/piercloud.c:177-178 | section 4.1 of RFC 7230: a size in hexadecimal digits of either letter case, with leading zeros and an extension or without, is read as the length of the data |
| Chunks.DroppedExactly | client/linux/src/socket.c:221-241 | on any stream, what a round with data loses is exactly what the buffer held beyond the block before filling |
| Chunks.NextChunkExactly | client/linux/src/socket.c:207-241 | wherever the transport cuts, a round takes the data of the chunk, and leaves the stream at what follows exactly when reading the size row brought no byte behind the chunk's CR LF |
| Chunks.CoalescedReadLoses | client/linux/src/socket.c:221-241 | the decoder on a stream that comes in one read of up to 512 bytes delivers the first chunk only, whatever follows it |
| ChunkReader.GetChoppedRow | client/linux/src/piercloud.c:127-139 | the next row without CR and LF, or none at the end |
| ChunkReader.ReadRound | client/linux/src/piercloud.c:157-184 | one round of the loop on the socket is one round of the decoder |
| ChunkReader.DoReadFromServer | client/linux/src/piercloud.c:141-198 | the parser and the requests emitted are those of a run over exactly the decoded blocks minus pings |
| ChunkReader.RequestsDelivered | client/linux/src/piercloud.c:155-237 | from transport to requests: under the read condition the requests emitted are the front of those one parse of all chunk data but the pings finds |
| ChunkReader.HeadReads | client/linux/src/piercloud.c:342-389 | the answer's header is read row by row whatever the cut, and the bytes behind it are kept |
| ChunkReader.ReadRespondHead | client/linux/src/piercloud.c:336-389 | header text, content length and chunked flag are those of the fold over the rows |
| ChunkReader.Dechunk | client/linux/src/piercloud.c:401-451 | the content is the concatenation of all blocks, its counter their length at every iteration |
| ChunkReader.GetLocalHostRespond | client/linux/src/piercloud.c:317-461 | the answer handed on is the rewritten header, a blank line and the content, plain or chunked |
| ChunkReader.PlainAnswer | client/linux/src/piercloud.c:389-397 | an answer that is not chunked, in any cut, goes out as located header, blank line and as many bytes as the length read; nothing is defined exactly when fewer come or it is no ssize_t |
| AnswerBody.PlainAnswered | client/linux/src/piercloud.c:342-397 | with a last row "Content-Length: n" in any letter case, exactly the first n bytes go out behind the rows, each with its own rewrites, and a blank line |
| AnswerBody.EmptyAnswered | client/linux/src/piercloud.c:342-397 | without such a row no content goes out, whatever follows |
| AnswerBody.LastLengthCounts | client/linux/src/piercloud.c:369-372 | of several content lengths the last one counts |
| AnswerBody.StatusRow | client/linux/src/piercloud.c:364-367 | "HTTP/1.1 " and more becomes "Status: " and the same |
| AnswerBody.OtherRow | client/linux/src/piercloud.c:364-367 | a row that does not begin so, or only in another spelling, stays |
| AnswerBody.LocationRow | client/linux/src/piercloud.c:386 | a Location on the local host becomes the same path on the public host of the id |
| AnswerBody.NoLocation | client/linux/src/piercloud.c:386 | any other text stays |
| ChunkReader.CutAnswer | client/linux/src/piercloud.c:342-397 | when the server closes inside the header the whole rows go out; with a content length among them nothing is defined |
| ChunkReader.Reframed | client/linux/src/piercloud.c:374-457 | from a chunked answer come all the chunk data behind the rewritten header for that many bytes |
| AnswerHeader.AnnouncesWhen | client/linux/src/piercloud.c:342-453 | for any rows of a chunked answer and any n: the header sent on has a content length and all its content lengths read as n, if and only if each length row, with n in place of a leading placeholder, reads as n |
| AnswerHeader.AnnouncesExactly | client/linux/src/piercloud.c:342-453 | it announces the length, whatever that is, if and only if every length row begins with the placeholder in its own spelling and no further digit follows |
| AnswerHeader.ReframedExactly | client/linux/src/piercloud.c:374-457 | end to end: that header, a blank line and all chunk data, announcing exactly their number under that condition |
| AnswerHeader.WrongLength | client/linux/src/piercloud.c:369-380 | the failing input: `Transfer-Encoding: chunked` with `Content-Length: 5` and three bytes of content goes out with lengths 3 and 5 |
| AnswerHeader.SentReads | client/linux/src/piercloud.c:386-447 | what is read from a length line after both replacements, whatever else they change in it |
| AnswerHeader.ReplaceLines | common/linux/src/liblst/liblst.c:574-607 | replacing a text without newline works line by line |
| AnswerHeader.NumberKept | client/linux/src/piercloud.c:386-447 | replacing a text by one with the same first byte, which ends a number, keeps the number in front |
| Base64.RoundTrip | common/linux/src/base64/base64.c:60-150 | decode(encode(x)) = x for every byte string |
| Base64.EncodeBits | common/linux/src/base64/base64.c:60-94 | section 4 of RFC 4648: the 6-bit values of the code are the bits of the data in order, filled up with zeros |
| Base64.EncodeShape | common/linux/src/base64/base64.c:78-94 | the code is alphabet bytes, then up to two `=` to a multiple of four; its alphabet part decodes to the data |
| Base64.EncodeInjective | common/linux/src/base64/base64.c:60-94 | equal codes come from equal data |
| Base64.EncodeAppend | common/linux/src/base64/base64.c:60-76 | encode(a + b) = encode(a) + encode(b) when 3 divides the length of a |
| Base64.DecodeBits | common/linux/src/base64/base64.c:113-150 | the bytes decoded hold the bits of the text's 6-bit values in order |
| Base64.Decode | common/linux/src/base64/base64.c:113-150 | on any input the length is three quarters, rounded down, of the longest alphabet-only front |
| Base64.DecodeAppend | common/linux/src/base64/base64.c:113-133 | decode(a + b) = decode(a) + decode(b) when a is all alphabet and 4 divides its length |
| Base64.EncodeOfDecode | common/linux/src/base64/base64.c:60-150 | encode(decode(s)) = s for canonical s |
| Base64.CanonicalExactly | common/linux/src/base64/base64.c:60-94 | the canonical texts (section 3.5 of RFC 4648) are exactly the codes of non-empty data |
| Base64.DecodingEnds | common/linux/src/base64/base64.c:134-150 | what is looked up for missing characters influences no output byte |
| Base64.FindPlace | common/linux/src/base64/base64.c:40-45 | is_base64 accepts exactly the bytes that the alphabet search finds, at their RFC 4648 places |
| Base64.B64Encode | common/linux/src/base64/base64.c:47-99 | the byte loop computes the code; true always, null output for empty input |
| Base64.B64Decode | common/linux/src/base64/base64.c:101-159 | the byte loop computes the decoding; false and null exactly for empty input |
| Liblst.PtReplaceStr | common/linux/src/liblst/liblst.c:528-608 | the cutting loop computes leftmost non-overlapping replacement; an empty search text appends |
| Liblst.ReplaceIsJoin | common/linux/src/liblst/liblst.c:574-607 | replacement is cutting at every place and joining with the new text |
| Liblst.PiecesAreLeftmost | common/linux/src/liblst/liblst.c:574-607 | joining the pieces with the search text gives the string back; each cut is leftmost |
| Liblst.PiecesUnique | common/linux/src/liblst/liblst.c:574-607 | these two properties determine the pieces |
| Liblst.ReplaceLength | common/linux/src/liblst/liblst.c:574-607 | the length changes by the difference of the texts for each place |
| Liblst.ReplaceBySelf | common/linux/src/liblst/liblst.c:574-607 | replacing a text by itself is the identity |
| Liblst.ReplaceAppends | common/linux/src/liblst/liblst.c:528-573 | with an empty search text: the string, and the new text behind it |
| Liblst.ReplaceOnce | common/linux/src/liblst/liblst.c:574-607 | a text at exactly one place is replaced there |
| Liblst.ChopIsFilter | common/linux/src/liblst/liblst.c:755-781 | chopping is the idempotent, order-preserving filter of CR and LF |
| Liblst.ChopStr | common/linux/src/liblst/liblst.c:755-781 | in place, the string is chopped and the bytes behind it stay |
| LiblstSplit.LstSplitStr | common/linux/src/liblst/liblst.c:339-400 | writing NULs over the splitters and pushing the runs computes the maximal splitter-free runs |
| LiblstSplit.TokensGlue | common/linux/src/liblst/liblst.c:339-400 | tokens are non-empty and splitter-free; glued they are the input without splitters |
| LiblstSplit.TokensOfJoin | common/linux/src/liblst/liblst.c:339-400 | splitting the splitter-join of any proper tokens returns them |
| LiblstSplit.LstGlue | common/linux/src/liblst/liblst.c:151-175 | the concatenation of the elements |
| LiblstTrim.TrimStr | common/linux/src/liblst/liblst.c:783-807 | in place, the string loses exactly its outer white space, and no index leaves the copy |
| LiblstTrim.TrimUnique | common/linux/src/liblst/liblst.c:799-803 | there is only one such substring |
| Numerals.StrtolReads | client/linux/src/piercloud.c:177 | strtol reads white space, a sign, in base 16 a prefix, and the numeral, digits being places in "0123456789abcdef" letter case aside, into the range of a long |
| Numerals.StrtolOfNothing | client/linux/src/piercloud.c:177 | without a digit it gives 0 |
| Numerals.StrtolOfHex | client/linux/src/piercloud.c:177 | a size is read in either letter case and with any leading zeros |
| Numerals.AtoiWraps | client/linux/src/piercloud.c:256-279 | atoi is that number modulo 2^32 in the range of an int, atoll as size_t modulo 2^64 |
| Numerals.PrintIsNumeral | server/linux/src/piercloud-cgi.c:301 | a printed pid or length is the numeral of the number |
| CNumber.StrtolOfPrint | client/linux/src/piercloud.c:177 | strtol gives a printed number back, in base 10 and 16, whatever follows it |
| CNumber.AtoiOfPrint | client/linux/src/piercloud.c:256 | atoi gives a printed pid back |
| Transfer.AtomWrite | client/linux/src/connection.c:60-85 | over every schedule exactly a front of the buffer goes out, counted unless a call fails |
| Transfer.AtomRead | client/linux/src/connection.c:60-85 | over every schedule exactly a front of what comes is stored at the front of the buffer, the rest of both untouched |
| Transfer.CounterIsExact | client/linux/src/connection.c:60-85 | the counter is the size asked for exactly when all bytes were moved |
| Transfer.AgainIsHarmless | client/linux/src/connection.c:72-75 | interruptions change nothing but the number of calls |
| Transfer.ShortTransfersAdd | client/linux/src/connection.c:68-84 | enough short transfers, in any cut and with any interruptions, make the whole one |
| Transfer.AtomExactly | client/linux/src/connection.c:60-85 | for any schedule: what the calls before the first error or empty call can move is moved, up to the size; it ends as failed exactly when that call is needed and an error |
| Transfer.AtomStarved | client/linux/src/connection.c:60-85 | asked for more than comes it takes that at most and never reports success |
| Transfer.Write | common/linux/src/liblst/liblst.c:1417-1443 | over every schedule exactly a front of the data goes out, as its function over the schedule says |
| Transfer.WritesAll | common/linux/src/liblst/liblst.c:1423-1439 | when the calls can move all, in any cut and with any interruptions, all bytes go out, and the count is the length exactly when the call behind the last byte does not fail |
| Transfer.WritesShort | common/linux/src/liblst/liblst.c:1423-1439 | when they cannot, what the calls before the first error or empty call can move goes out |
| Transfer.WriteAgainIsHarmless | common/linux/src/liblst/liblst.c:1427-1434 | interruptions change nothing but the number of calls |
| Transfer.Copy | server/linux/src/piercloud-cgi.c:187-210 | the copy loop of Pier, Connect and Respond: bytes put out and taken, count and abort are those of its function over the schedules of both sides |
| Transfer.CopiesAll | server/linux/src/piercloud-cgi.c:187-210 | with enough reads and whole writes everything is copied |
| Transfer.CountTells | server/linux/src/piercloud-cgi.c:187-210 | the count is the number of bytes taken exactly when every write was whole; then these went out in order and nothing aborted; an abort always counts less |
| Transfer.WriteIsExact | common/linux/src/liblst/liblst.c:1417-1443 | the counter is the length exactly when all bytes went out and the call behind the last byte did not fail |
| Transfer.CountLost | common/linux/src/liblst/liblst.c:1423-1439 | a failure of that last call returns 0 for data that went out whole |
| Transfer.BuildRequest | client/linux/src/connection.c:504-549 | the buffer holds the connect request of section 4 of RFC 1928 for each address form; -1 exactly for a name over 255 bytes |
| Transfer.Layout | client/linux/src/connection.c:504-549 | sections 4 and 6 of RFC 1928 field by field: version, code, zero, type, the address at its place, the port at the end |
| Transfer.ReadReply | client/linux/src/connection.c:556-629 | yes exactly when both reads succeed and the reply grants; then five bytes and those announced are consumed |
| Transfer.ReplyConsumed | client/linux/src/connection.c:609-622 | for a reply of section 6 of RFC 1928 with a valid address type that is its exact length, so the tunnel starts at the right byte |
| Transfer.ReplyAnswered | client/linux/src/connection.c:556-607 | a well-formed reply that can be read whole is granted exactly when its code is 0 |
| Transfer.UnknownAddressType | client/linux/src/connection.c:609-622 | for any other address type nothing is consumed behind the fifth byte |
| Transfer.Handshake | client/linux/src/connection.c:504-629 | yes means the whole request went out and exactly one reply came in |

## Left out

- Sockets, TLS, DNS, `fork`, daemonising, `select`, files: reads, writes and timeouts are steps or schedules of any size and order, the local server is a function.
- Allocation failure, hard I/O errors in the tunnel, and a peer that closes early: the loops say where the original would use a freed or null pointer (`Undefined`, `None`), and nothing is claimed beyond.
- Reconnection: the statics of the parser outlive a session while the buffers do not; one session is modelled.
- FIFO capacity: a FIFO takes any write at once, so a writer that blocks on a full one is not modelled.
- A child of the client that answers a request without pid of a Pier, and Respond for an unknown pid: such a process fails on its own.
- The exact moment of a ping: pings come at any time, which covers every timeout of `select`.
- ChunkReader.Dechunk: a negative size row and a block cut short have undefined behaviour in the original; the result is None there.
- AnswerHeader.AnnouncesExactly: an id with a newline in it, which is no host name, is not considered.
- LiblstTrim.TrimStr: on the empty string the original reads the byte before its copy; the method requires a non-empty one.
- Base64.B64Decode: the positions are kept in an array of their own instead of over the characters.
- Growth of lists by realloc (`lstPush`): a list is a sequence that is appended to.
- Regular expressions: the two filters of the environment are the prefix checks they amount to.
- printf-style formatting: numbers and texts are put together directly; the signed and padded forms are not used here.
- `readFileRow` and `cut_rest`: the cut removes every occurrence of the row and an unterminated last row is returned again, so no line reader describes it.
- `GetSockRow`, the HTTP and SOCKS4 proxies and the SOCKS5 user and password exchange: the first depends on timing between peek and read, the others are exchanges of fixed messages through the same transfer loops; the last compares with version 5 where section 2 of RFC 1929 has 1.
- Directory listing, configuration, authorization requests and the client's own base64 wrapper.
