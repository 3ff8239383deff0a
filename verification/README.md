# Verification of the Azure RTOS transfer path

The SDK talks to its servers over the NetX web HTTP client, downloads firmware in ranges on top of it, and writes the
image through a driver. This project models that path from bytes on the wire to the installed image, together with the
encoders beside it, and proves what each layer promises to the next one.

`Bytes` and `Packets` hold bytes and linked packet chains. `HttpClient` is the client's state, with an account of where
every packet is: held by the client, with the caller, or given back. The layers, bottom up:

* `ChunkCoding` is the chunked transfer coding as a decoder of plain bytes, with the language it accepts.
  `ChunkedResponse` is the client's decoder, which works in place on packet chains; every call is a step of the plain
  decoder.
* `HeaderScan` and `ServerResponse` find the end of a response header, `HeaderFields` reads its fields, and `Numbers`
  reads and writes decimal lengths.
* `ResponseBody` drives a whole response, chunked or of announced length. What a call returns and leaves is a relation
  on values (`Gets`), so that everything above it is about values. `Transfers` says what any sequence of such calls
  returns.
* `Fetch` is a request and the download client's loop over the response to it, with what the loop leaves on the
  connection. `Responses` says what it fetches of a response as a server writes it, and exactly when the packets that it
  arrives in make a difference; `Ranges` says what it leaves of such a response, and what the next request gets then.
* `Requests` makes requests one after another on one connection with one buffer, and `FirmwareUpdate` is the ranged
  download with its retries, aborts and resumption on top of them, with the trace of what the callback, the driver and
  the server were asked. What is not up to the SDK is a `World`: whether the server can be connected to, what happens to
  each request, the driver's status, and what the user says to an event, each by the number of times it was asked for.
  Every answer in the trace is the world's. `FirmwareRuns` says which ranges runs ask for, how they end and why, which
  of them deliver the file, and what is kept of runs that resume one another.
* `FirmwareClient` is the firmware client on top of it: any sequence of its calls, the commands that they give the
  driver, and what the flash holds when an image is installed.
* `ChunkedRequest` encodes request bodies that the decoder above takes back. `Base64`, `SignatureDer` and
  `HexIdentity` are the other encoders, each with a reader of its own.

Where the code and its intention differ, the model follows the code:

* A CR directly before CRLFCRLF hides the end of a header (`HeaderScan.DoubledCRIsOverlooked`).
* A response whose first packet has fewer than twelve bytes is neither kept nor released
  (`ResponseBody.ReceiveHeader`, the set `lost`).
* Only the first packet of a response is searched for its fields: a header that goes on in the second packet of the
  first chain is refused (`Responses.HeaderCutRefused`).
* Only spaces before a field's value are taken off. With a tab before it or whitespace behind it, which the standard
  allows, the reported value is not the standard's, and `chunked` is not recognised (`HeaderFields.ReadsValue`,
  `HeaderFields.SpaceHidesChunked`). Neither is it as the last of several codings.
* The first Content-Length token in the first packet counts, wherever it is. In a chunked response the number behind it
  is taken for bytes missing from an open chunk: a Content-Length field breaks chunking where the standard ignores the
  field (`Responses.ChunkedFetchLanguage`), and data that looks like one breaks it or not, depending on where the first
  packet ends (`Responses.SplitIndependence`, `Responses.SplitMatters`).
* A header that arrives alone, or an empty packet in the middle, ends the fetch of a body of announced length early and
  with a success; bytes behind its end in the same chain make the fetch fail (`Responses.FixedFetched`,
  `Responses.FixedResponseFetched`, `Responses.HeaderAlone`).
* The download does not look at how many bytes of a range arrived. After a fetch that ended early, the block goes to
  the callback with the bytes that the buffer held before (`FirmwareRuns.RunGenuine`, `FirmwareRuns.StaleBlock`).
* Sending a request does not end the response before. After a fetch that ended early, the next request gets the rest of
  the earlier body in place of its own reply (`Fetch.RequestSend`, `Ranges.BehindEarlyEnd`), and every later one the
  reply to the request before it: one header that arrives alone, and the whole image is shifted by a block
  (`FirmwareRuns.ShiftedRun`).
* Names of header fields do not depend on case, but the size of the file is taken only from a field whose name is
  written as the client writes it. With content-length in other letters the size is zero, and the download succeeds
  without a byte (`FirmwareRuns.UnseenSize`), which makes firmware ready to be installed
  (`FirmwareClient.UnseenUpdate`).
* A failed response breaks the connection off, so that trying the block again never helps (`Requests.RetriesInVain`).
* The packet that ends a chunked body counts zero bytes but may still have packets linked behind it
  (`ResponseBody.Delivered`).
* A request packet that is sent between the one that completes a chunk and the next chunk, even an empty one, sends
  another CRLF, which the server takes for a last chunk (`ChunkedRequest.RoundTrip`,
  `ChunkedRequest.EmptyPacketBreaksBody`).
* The count of bytes to send for a chunk is kept modulo 2^32 with its size line: a chunk within ten bytes of 4 GiB is
  refused at its first packet (`ChunkedRequest.SendChunk`).
* 40 and 41 bytes of credentials lose one sign of base64 padding (`Base64.ClippedPadding`).
* The counter that a resumed download starts from is reset by a download that does not resume only once the file's size
  is accepted. If such a download fails before that, the one that resumes it starts from where some earlier download
  stopped, and succeeds without the beginning of the file (`FirmwareRuns.ResumedFile`, `FirmwareRuns.StaleCounter`),
  which is then what is installed (`FirmwareClient.InstalledFlash`).
* The firmware client clears its ready flag before it tests it, so that a download started while firmware is ready locks
  the client up for good (`FirmwareClient.ContractKeepsFlags`, `FirmwareClient.StuckForever`).
* Before a certificate is stored, the size of the shared buffer is tested and not the conversion's result. Without a
  certificate's text the size is that of the request's own text, which is stored as the certificate
  (`HexIdentity.StoreCertificate`).
* The check of the signature encoder looks at one number twice and does not refuse a small buffer; the buffer size is a
  precondition of `SignatureDer.SigToAsn1Der`, as its message states it.

Assumptions about code that is not part of the repository: receiving blocks until a chain arrives or the peer has
nothing more to send; of a received chain only the first packet may be empty, and all of it is of one response; a
connection that was broken off sends nothing; a packet from the pool can always be had, and one packet takes the rest of
a node or of appended data (how much of appended data fits behind a chain is left open); appending no bytes at all,
which copying a node's share of a chain may come to, succeeds; a chain's byte count is on its head. `CHAR` is unsigned
where the base64 encoder indexes its alphabet with one. The driver, the callbacks of the user, the connection and single
requests do as the world says, which is any; which code a failed request has is left open. The C library reads a plain
decimal number as its value.

Run `dafny verify dfyconfig.toml` in this directory. Lemmas to which Dafny would apply its automatic induction have it
switched off: their proofs stand in their bodies.

## Model

| member | source | states |
|---|---|---|
| `ChunkCoding.SizeLineLanguage` | iotc-azrtos-sdk/azrtos-layer/nx-http-client/nx_web_http_client.c:2062-2116 | a size line is accepted if and only if it is hexadecimal digits (none is allowed), an optional extension behind a semicolon, and CRLF; the size is the digits' value modulo 2^32 |
| `ChunkCoding.DecoderLanguage` | iotc-azrtos-sdk/azrtos-layer/nx-http-client/nx_web_http_client.c:2189-2393 | bytes decode to some content and rest if and only if they are chunks of that grammar followed by a zero chunk without trailers, and the content is the data of the chunks |
| `ChunkCoding.OpenDecoderLanguage` | iotc-azrtos-sdk/azrtos-layer/nx-http-client/nx_web_http_client.c:2044-2393 | the same when the decoder is taken to be inside a chunk: the bytes missing from it and CRLF come first |
| `ChunkCoding.StandardBodyDecodes` | iotc-azrtos-sdk/azrtos-layer/nx-http-client/nx_web_http_client.c:2189-2393 | every body of section 4.1 of RFC 7230 with sizes below 2^32 and no trailers decodes to its data, and no byte behind it is consumed |
| `ChunkCoding.DeliveryDecodes` | iotc-azrtos-sdk/azrtos-layer/nx-http-client/nx_web_http_client.c:2240-2362 | a successful call takes its bytes off the front of the decoded content, whatever the rest decodes to, and consumes at least that many bytes |
| `HttpClient.StatusTable` | iotc-azrtos-sdk/azrtos-layer/nx-http-client/nx_web_http_client.c:55-97 | exactly 200 to 206, 100, 101, 300 to 305, 307, 400 to 417 and 500 to 505 are known, each with its own status |
| `HttpClient.Receive` | iotc-azrtos-sdk/azrtos-layer/nx-http-client/nx_web_http_client.c:1315-1326 | a received chain is new, linked, carries the next delivery of the network, and has its byte count on the head; with nothing left the wait fails |
| `ChunkedResponse.Refill` | iotc-azrtos-sdk/azrtos-layer/nx-http-client/nx_web_http_client.c:2119-2138 | receiving while nothing is unread changes neither the stream of bytes to come nor the ownership of packets, and fails exactly when that stream is empty |
| `ChunkedResponse.NextPacket` | iotc-azrtos-sdk/azrtos-layer/nx-http-client/nx_web_http_client.c:1888-1909 | hopping to the next node keeps the unread bytes and gives exactly the node left behind back |
| `ChunkedResponse.ResponseRead` | iotc-azrtos-sdk/azrtos-layer/nx-http-client/nx_web_http_client.c:1857-1923 | reading yields the first byte of the stream and leaves the others, across nodes and received chains |
| `ChunkedResponse.ByteExpect` | iotc-azrtos-sdk/azrtos-layer/nx-http-client/nx_web_http_client.c:1971-1987 | the next byte of the stream is compared: success, mismatch and end of stream are told apart exactly |
| `ChunkedResponse.ReadSizeLine` | iotc-azrtos-sdk/azrtos-layer/nx-http-client/nx_web_http_client.c:2062-2116 | the size line at the head of the stream is read as the decoder's size line function reads it |
| `ChunkedResponse.ChunkedSizeGet` | iotc-azrtos-sdk/azrtos-layer/nx-http-client/nx_web_http_client.c:2044-2141 | the open chunk's missing count, or the next size line's, is found, and bytes are at hand afterwards |
| `ChunkedResponse.SkipData` | iotc-azrtos-sdk/azrtos-layer/nx-http-client/nx_web_http_client.c:2255-2277 | skipping a chunk along a chain reaches the node and position that many bytes further on |
| `ChunkedResponse.SplitRest` | iotc-azrtos-sdk/azrtos-layer/nx-http-client/nx_web_http_client.c:2306-2345 | copying the current node's share and relinking the nodes behind it splits a chain into two linked chains with the same bytes |
| `ChunkedResponse.KeepUnread` | iotc-azrtos-sdk/azrtos-layer/nx-http-client/nx_web_http_client.c:2294-2350 | what follows the chunk stays with the client, with exactly the remaining count of unread bytes, in one of the two ways the code has |
| `ChunkedResponse.Trim` | iotc-azrtos-sdk/azrtos-layer/nx-http-client/nx_web_http_client.c:2364-2390 | the returned chain is cut down to its bytes, the count is on its head, and every node cut off is given back once |
| `ChunkedResponse.PassChunk` | iotc-azrtos-sdk/azrtos-layer/nx-http-client/nx_web_http_client.c:2252-2351 | a chunk that lies in the data at hand is stepped over with its CRLF, and nothing behind it is lost |
| `ChunkedResponse.DeliverData` | iotc-azrtos-sdk/azrtos-layer/nx-http-client/nx_web_http_client.c:2240-2392 | the packet returned is not empty, lies inside the open chunk, and takes all of the data at hand or all of the chunk |
| `ChunkedResponse.FinishBody` | iotc-azrtos-sdk/azrtos-layer/nx-http-client/nx_web_http_client.c:2215-2238 | the zero chunk is followed by CRLF or the call fails; an empty packet is left for the caller |
| `ChunkedResponse.ResponseChunkedGet` | iotc-azrtos-sdk/azrtos-layer/nx-http-client/nx_web_http_client.c:2189-2393 | one call is one delivery of the decoder, or its end, or its exact error; no more chains are taken off the network than hold what was read; the invariant on the held chain is kept and every packet stays in exactly one place |
| `HeaderScan.ScanSplit` | iotc-azrtos-sdk/azrtos-layer/nx-http-client/nx_web_http_client.c:1376-1402 | searching a chain node by node, or appended data, is searching the concatenated bytes |
| `HeaderScan.ScannerFinds` | iotc-azrtos-sdk/azrtos-layer/nx-http-client/nx_web_http_client.c:1337-1374 | the counter stops exactly behind the first CRLFCRLF that an odd number of CRs in a row leads up to |
| `HeaderScan.DoubledCRIsOverlooked` | iotc-azrtos-sdk/azrtos-layer/nx-http-client/nx_web_http_client.c:1341-1358 | a CR directly before CRLFCRLF makes the search miss it |
| `HeaderScan.FirstBlankLine` | iotc-azrtos-sdk/azrtos-layer/nx-http-client/nx_web_http_client.c:1337-1374 | where no two CRs stand in a row the first blank line is found |
| `ServerResponse.ScanChain` | iotc-azrtos-sdk/azrtos-layer/nx-http-client/nx_web_http_client.c:1334-1385 | the loops over a chain find what the counter finds in its unread bytes |
| `ServerResponse.DataAppend` | iotc-azrtos-sdk/azrtos-layer/nx-http-client/nx_web_http_client.c:1412-1415 | appending puts bytes behind a chain, keeps the ownership, and makes the bytes unread at the search position grow by them |
| `ServerResponse.AppendPackets` | iotc-azrtos-sdk/azrtos-layer/nx-http-client/nx_web_http_client.c:1404-1434 | a received chain is appended node by node, in order and completely |
| `ServerResponse.ReceiveMore` | iotc-azrtos-sdk/azrtos-layer/nx-http-client/nx_web_http_client.c:1387-1440 | one more chain is received, appended, given back and searched from where the search stood |
| `ServerResponse.GetServerResponse` | iotc-azrtos-sdk/azrtos-layer/nx-http-client/nx_web_http_client.c:1302-1446 | succeeds if and only if the blank line is somewhere in what arrives; the chains taken are exactly those up to the one in which it ends, with all their bytes, a header in the first chain leaves that chain as it came, and a failure gives everything back |
| `HeaderFields.Memicmp` | iotc-azrtos-sdk/azrtos-layer/nx-http-client/nx_web_http_client.c:6332-6364 | equality of two byte strings up to the case of letters |
| `HeaderFields.TakeField` | iotc-azrtos-sdk/azrtos-layer/nx-http-client/nx_web_http_client.c:6520-6556 | one more field: what it means for chunking and keep-alive, and its report to the application |
| `HeaderFields.ReadFields` | iotc-azrtos-sdk/azrtos-layer/nx-http-client/nx_web_http_client.c:6463-6551 | the field loop reports and concludes what the parse function of the bytes says, in order, and returns its offset |
| `HeaderFields.ProcessHeaderFields` | iotc-azrtos-sdk/azrtos-layer/nx-http-client/nx_web_http_client.c:6411-6560 | offset, chunked flag, keep-alive and reported fields are those of the parse of the packet, without a version nothing; what that is for the lines of a header: `HeaderParses`, `ChunkedRead`, `ConnectionKept`, `HeaderNoted` |
| `HeaderFields.HeaderParses` | iotc-azrtos-sdk/azrtos-layer/nx-http-client/nx_web_http_client.c:6452-6560 | a header by section 3.2 of RFC 7230 parses to its fields, in order, each value with the spaces before it taken off and nothing else, and the offset is its length |
| `HeaderFields.HeaderStops` | iotc-azrtos-sdk/azrtos-layer/nx-http-client/nx_web_http_client.c:6463-6490 | the field loop ends at a blank line, which completes the header, at a zero byte or the end of the packet, which do not, and leaves the packet at a line without a colon; the lines before count |
| `HeaderFields.ReadsValue` | iotc-azrtos-sdk/azrtos-layer/nx-http-client/nx_web_http_client.c:6492-6514 | the value read from a line is the one of the standard if and only if there is no tab before it and no whitespace behind it |
| `HeaderFields.ChunkedRead` | iotc-azrtos-sdk/azrtos-layer/nx-http-client/nx_web_http_client.c:6492-6527 | a header makes the client take the body for chunked if and only if some line has transfer-encoding for its name and chunked for its value, letter by letter in either case, with no tab before the value and no whitespace behind it |
| `HeaderFields.ConnectionKept` | iotc-azrtos-sdk/azrtos-layer/nx-http-client/nx_web_http_client.c:6432-6450 | the last line with connection for its name and keep-alive or close for its value, letter by letter in either case and without such whitespace, decides whether the connection is kept; without one HTTP/1.1 keeps it and HTTP/1.0 does not |
| `HeaderFields.HeaderNoted` | iotc-azrtos-sdk/azrtos-layer/nx-http-client/nx_web_http_client.c:6531-6550 | what a header does to the connection, and that its fields are reported in order, each once |
| `HeaderFields.SpaceHidesChunked` | iotc-azrtos-sdk/azrtos-layer/nx-http-client/nx_web_http_client.c:6492-6527 | one space behind the value, and a chunked body is not taken for one |
| `HeaderFields.CutHeader` | iotc-azrtos-sdk/azrtos-layer/nx-http-client/nx_web_http_client.c:6452-6560 | a packet that ends before the header does is never parsed completely |
| `HeaderFields.ScannersAgree` | iotc-azrtos-sdk/azrtos-layer/nx-http-client/nx_web_http_client.c:6452-6560 | for every such header the field reader's offset is the position where the search over the chain stops |
| `Numbers.ShiftUp` | iotc-azrtos-sdk/azrtos-layer/nx-http-client/nx_web_http_client.c:6624-6630 | the inner loop moves the digits one place up and touches nothing else |
| `Numbers.NumberConvert` | iotc-azrtos-sdk/azrtos-layer/nx-http-client/nx_web_http_client.c:6606-6659 | the canonical digits and a NUL for every number of up to ten digits (none for zero), and zero size beyond |
| `Numbers.DecimalIsExact` | iotc-azrtos-sdk/azrtos-layer/nx-http-client/nx_web_http_client.c:6606-6659 | the digits have the number as their value and no leading zero |
| `Numbers.MatchToken` | iotc-azrtos-sdk/azrtos-layer/nx-http-client/nx_web_http_client.c:6219-6236 | the fifteen comparisons recognise the token in any mix of cases |
| `Numbers.ContentLengthGet` | iotc-azrtos-sdk/azrtos-layer/nx-http-client/nx_web_http_client.c:6200-6287 | the length read is that of the first token: spaces, digits modulo 2^32, and a space or CR behind them, else zero |
| `Numbers.ContentLengthReads` | iotc-azrtos-sdk/azrtos-layer/nx-http-client/nx_web_http_client.c:6200-6287 | digits written for n, behind the first token and before CR or a space, are read as n, for 1 <= n < 2^32 |
| `Numbers.AnnouncedLength` | iotc-azrtos-sdk/azrtos-layer/nx-http-client/nx_web_http_client.c:6200-6287 | behind lines without the token, a line named content-length in any mix of cases announces the number of any digits behind its spaces, modulo 2^32, if they end the line or a space follows them, and zero if anything else does |
| `ResponseBody.JudgeHeader` | iotc-azrtos-sdk/azrtos-layer/nx-http-client/nx_web_http_client.c:1616-1664 | status code, length and offset are judged as the verdict function says, the sum of offset and length taken modulo 2^32; whether the connection is kept and which fields are reported is noted, only if the code lets fields be read; the reader leaves the packet exactly when a line has no colon |
| `ResponseBody.ReceiveHeader` | iotc-azrtos-sdk/azrtos-layer/nx-http-client/nx_web_http_client.c:1589-1615 | a response whose first packet has fewer than twelve bytes is refused, and its packets are left to nobody |
| `ResponseBody.OpenBody` | iotc-azrtos-sdk/azrtos-layer/nx-http-client/nx_web_http_client.c:1667-1695 | the header is cut off, the counters are set, and a chunked body becomes the held chain |
| `ResponseBody.GetFixed` | iotc-azrtos-sdk/azrtos-layer/nx-http-client/nx_web_http_client.c:1698-1759 | a call during a body of announced length: exact status, bytes and what is left; an error gives the packets back |
| `ResponseBody.GetChunked` | iotc-azrtos-sdk/azrtos-layer/nx-http-client/nx_web_http_client.c:1732-1743 | a call during a chunked body, with the clean-up behind it: exact status, bytes and what is left |
| `ResponseBody.GetFirst` | iotc-azrtos-sdk/azrtos-layer/nx-http-client/nx_web_http_client.c:1586-1763 | the first call: exact outcome as a function of the header's first packet and of what was received, with what was noted of the header; a refused response gives its packets back |
| `ResponseBody.EndResponse` | iotc-azrtos-sdk/azrtos-layer/nx-http-client/nx_web_http_client.c:1765-1805 | the chunk state, the header flag and the request state are reset; the held chain of a chunked body goes to the caller if it is given to it |
| `ResponseBody.ResponseBodyGet` | iotc-azrtos-sdk/azrtos-layer/nx-http-client/nx_web_http_client.c:1564-1809 | every call is a step of the abstract transfer; a call that does not return a packet with more to come leaves the client ready with the header flag clear; returned packets become the caller's, and outside chunked bodies an error leaves no packet behind; keep-alive and reported fields are those of the header read; the connection is broken off on every failure, and at the end of a response that does not keep it |
| `Transfers.FixedTransfer` | iotc-azrtos-sdk/azrtos-layer/nx-http-client/nx_web_http_client.c:1698-1759 | over any sequence of calls for a body of announced length the packets returned are the beginning of what arrives, never more than is left; done means exactly that many bytes, and every earlier call leaves exactly what is missing |
| `Transfers.ChunkedTransfer` | iotc-azrtos-sdk/azrtos-layer/nx-http-client/nx_web_http_client.c:1732-1743 | over any sequence of calls for a chunked body the packets returned are the beginning of the decoded content, done means all of it, and an error is the decoder's |
| `Transfers.ResponseTransfer` | iotc-azrtos-sdk/azrtos-layer/nx-http-client/nx_web_http_client.c:1564-1809 | over any sequence of calls for a whole response, also to a HEAD request: either the first one reports why the header is refused, or the packets returned are the beginning of its body and the last call says exactly whether that is all |
| `Fetch.CallContributes` | iotc-azrtos-sdk/azrtos-layer/src/azrtos_download_client.c:96-140 | each call contributes its bytes to what the whole fetch comes to, and less is left afterwards |
| `Fetch.DataExtract` | iotc-azrtos-sdk/azrtos-layer/src/azrtos_download_client.c:117-123 | the bytes of a chain go behind the text in the buffer, as many as there is room for |
| `Fetch.ReleaseGiven` | iotc-azrtos-sdk/azrtos-layer/src/azrtos_download_client.c:134-143 | a packet that was handed out goes back to the pool once |
| `Fetch.RequestSend` | iotc-azrtos-sdk/azrtos-layer/nx-http-client/nx_web_http_client.c:8053-8122 | a request changes the state and nothing else: what is left of an earlier response stays open, with its counters, in front of the reply; a connection that was broken off sends nothing |
| `Fetch.CallRemains` | iotc-azrtos-sdk/azrtos-layer/nx-http-client/nx_web_http_client.c:1698-1805 | a call that goes on does not change what the whole fetch will leave, and the last one leaves exactly that |
| `Fetch.GetResponse` | iotc-azrtos-sdk/azrtos-layer/src/azrtos_download_client.c:89-145 | the loop ends; its status is that of the whole response; the buffer has the first 4096 bytes of the content that arrived, on a failure outside chunked bodies, too, and is untouched behind them; every packet handed out was given back, also on an error outside chunked bodies; a success leaves exactly what the view says, an open body after an early end, behind a chunked body the chains behind the one in which it ends; the connection is kept as the header read says; a failure breaks it off |
| `Responses.HeaderAccepted` | iotc-azrtos-sdk/azrtos-layer/nx-http-client/nx_web_http_client.c:1586-1695 | a well-formed header of a successful response in the first packet is found there and accepted, unless a body of announced length is too long |
| `Responses.StaysInside` | iotc-azrtos-sdk/azrtos-layer/nx-http-client/nx_web_http_client.c:6452-6475 | the field reader does not leave the first packet of such a response |
| `Responses.HeaderCutRefused` | iotc-azrtos-sdk/azrtos-layer/nx-http-client/nx_web_http_client.c:1616-1664 | a response whose header goes on in the second packet of its first chain is never fetched successfully |
| `Responses.JudgedByHeader` | iotc-azrtos-sdk/azrtos-layer/nx-http-client/nx_web_http_client.c:1586-1664 | wherever a header ends, also beyond the first chain, it is judged by what it says if and only if the first packet has all of it; else the response is refused |
| `Responses.StatusDecides` | iotc-azrtos-sdk/azrtos-layer/nx-http-client/nx_web_http_client.c:1620-1644 | for every header whose status code is in the first packet found: the fetch and the first call succeed only if the code is known and starts with the digit 2; another known code gives its own status, an unknown one that of an unsuccessful request, nothing is fetched, and no field is read |
| `Responses.ResponseNoted` | iotc-azrtos-sdk/azrtos-layer/nx-http-client/nx_web_http_client.c:1650-1653 | a response that is read keeps the connection, and has the fields reported, as the lines of its header say |
| `Responses.ChunkedFetched` | iotc-azrtos-sdk/azrtos-layer/nx-http-client/nx_web_http_client.c:2189-2393 | what is fetched of a chunked response is what the decoder makes of its body, starting with as many bytes of an open chunk as the first packet announces; nothing else about the chains and packets matters |
| `Responses.ChunkedFetchLanguage` | iotc-azrtos-sdk/azrtos-layer/nx-http-client/nx_web_http_client.c:2044-2393 | any chunked response is fetched successfully with some content if and only if its body is chunks of the grammar with that data, behind the announced number of bytes and CRLF if the first packet announces one |
| `Responses.SplitIndependence` | iotc-azrtos-sdk/azrtos-layer/nx-http-client/nx_web_http_client.c:6200-6287 | all deliveries of a chunked response come to the same fetch if and only if the header has a Content-Length token or the length that the body seems to announce makes no difference to the decoder; so without a token in the body |
| `Responses.SplitMatters` | iotc-azrtos-sdk/azrtos-layer/nx-http-client/nx_web_http_client.c:6200-6287 | the same bytes in two deliveries, one of which is fetched and one of which fails |
| `Responses.FixedFetched` | iotc-azrtos-sdk/azrtos-layer/src/azrtos_download_client.c:106-116 | a body is fetched completely if and only if some number of chains makes it up exactly and none before the last is empty, and with a success but incompletely if and only if an empty chain comes before; what is fetched is always the beginning of what arrives |
| `Responses.FixedResponseFetched` | iotc-azrtos-sdk/azrtos-layer/src/azrtos_download_client.c:96-116 | for every delivery of a response of announced length: what is fetched is the beginning of its body, never more than announced, and all of it if and only if the first chain does not have more and either has all of it, or some of it and no empty chain comes before the end; a first chain with more is refused |
| `Responses.HeaderAlone` | iotc-azrtos-sdk/azrtos-layer/src/azrtos_download_client.c:106-116 | every response of announced length whose header arrives alone is fetched with a success and no bytes, and the same bytes in one packet are fetched completely |
| `Ranges.FixedLeaves` | iotc-azrtos-sdk/azrtos-layer/nx-http-client/nx_web_http_client.c:1698-1759 | a successful fetch of a body of announced length loses nothing and gets nothing twice: what it gets and what it leaves are what arrives, and the body is left open, with the exact count, if and only if some of it is missing |
| `Ranges.ReplyFetched` | iotc-azrtos-sdk/azrtos-layer/src/azrtos_download_client.c:96-140 | a reply on a connection with nothing left is fetched as a beginning of its body, all of it exactly under the condition on the packets; a success without all of it leaves the rest with the body open |
| `Ranges.BehindEarlyEnd` | iotc-azrtos-sdk/azrtos-layer/src/azrtos_download_client.c:147-183 | the request behind a fetch that ended early gets, for every reply and in any packets, no byte of its own reply, but bytes of the body before from where that fetch ended; without another empty chain it gets all of them and leaves its own reply |
| `Ranges.PromptFetched` | iotc-azrtos-sdk/azrtos-layer/src/azrtos_download_client.c:96-140 | a reply whose header comes with some of its body and without empty chains is fetched completely, and exactly what comes behind it is left |
| `Ranges.HeadLeaves` | iotc-azrtos-sdk/azrtos-layer/src/azrtos_download_client.c:185-221 | the response to a HEAD request in one chain succeeds if and only if its header and the announced body have less than 2^32 bytes, and then leaves nothing, whatever length it announces |
| `Requests.MakeRequest` | iotc-azrtos-sdk/azrtos-layer/src/azrtos_download_client.c:147-221 | building, sending and fetching: a request is not sent exactly if it cannot be built, the connection is broken off or does not take it; on every path what the buffer holds, what is left, and whether the connection is up and kept are those of the fetch of what was left and the reply |
| `Requests.RetriesInVain` | iotc-azrtos-sdk/azrtos-layer/src/azrtos_download_client.c:276-302 | in any sequence of requests on a connection, once a response has failed no later request is sent and every one fails |
| `Requests.ErrorReply` | iotc-azrtos-sdk/azrtos-layer/nx-http-client/nx_web_http_client.c:1632-1644 | a request that finds nothing left and is answered with a status code that does not start with the digit 2 fails, for every body and in any packets, and the connection is broken off |
| `Requests.CleanRequest` | iotc-azrtos-sdk/azrtos-layer/src/azrtos_download_client.c:276-288 | a request that finds nothing left and is answered with the bytes from the first to the last that it asks for, as far as the file has them, puts a beginning of them into the buffer, all of them exactly under the condition on the packets; the range is right if and only if that, or the buffer happened to hold the missing bytes |
| `Requests.PromptRequest` | iotc-azrtos-sdk/azrtos-layer/src/azrtos_download_client.c:147-183 | if that reply comes promptly the request succeeds with its whole range, leaves nothing, and the connection is up exactly if the header keeps it |
| `Requests.PendingRequest` | iotc-azrtos-sdk/azrtos-layer/src/azrtos_download_client.c:276-288 | a request that finds an earlier body open gets bytes of that body, whatever its own reply is |
| `ChunkedRequest.WriteSize` | iotc-azrtos-sdk/azrtos-layer/nx-http-client/nx_web_http_client.c:2507-2534 | the shift loop writes the hexadecimal size without leading zeros, in at most eight of ten places |
| `ChunkedRequest.SizeTextIsExact` | iotc-azrtos-sdk/azrtos-layer/nx-http-client/nx_web_http_client.c:2507-2534 | the size text has the size as its value |
| `ChunkedRequest.RequestChunkedSet` | iotc-azrtos-sdk/azrtos-layer/nx-http-client/nx_web_http_client.c:2500-2558 | the size line is appended and the counter is set to the line and the data, modulo 2^32 |
| `ChunkedRequest.RequestPacketSend` | iotc-azrtos-sdk/azrtos-layer/nx-http-client/nx_web_http_client.c:2667-2721 | exactly what is sent, counted and reset for every packet, and that too long a packet is refused and nothing sent |
| `ChunkedRequest.SendPiece` | iotc-azrtos-sdk/azrtos-layer/nx-http-client/nx_web_http_client.c:2667-2721 | one packet of a chunk, with or without data, takes the sender on towards exactly the bytes that the chunk's packets send; a packet that the socket refuses sends nothing |
| `ChunkedRequest.SendChunk` | iotc-azrtos-sdk/azrtos-layer/nx-http-client/nx_web_http_client.c:2500-2721 | a chunk in any packets that have its data sends its size line, its data, and what the packets from the completing one on append; if the socket refuses a packet, what was sent is a beginning of that; the client itself refuses the first packet, and nothing is sent, exactly if the count of size line and data wraps around at 2^32 and that packet's own does not |
| `ChunkedRequest.ChunkSentIs` | iotc-azrtos-sdk/azrtos-layer/nx-http-client/nx_web_http_client.c:2675-2690 | that is one chunk of the grammar if and only if the completing packet says that more follows and is the last, and the chunk with the last chunk behind it if and only if it says that nothing follows |
| `ChunkedRequest.SendBody` | iotc-azrtos-sdk/azrtos-layer/nx-http-client/nx_web_http_client.c:2500-2721 | chunks in any packets, also empty ones, with any more-data flags: exactly the bytes that are sent, and a beginning of them up to a packet that is refused, by the socket or for such a count |
| `ChunkedRequest.RoundTrip` | iotc-azrtos-sdk/azrtos-layer/nx-http-client/nx_web_http_client.c:2500-2721 | what is sent decodes to the data, with nothing behind it touched, if and only if every chunk but the last has data and is completed by its last packet, saying that more follows, and the last one ends the body once; for every way of cutting data into chunks and packets |
| `ChunkedRequest.EmptyPacketBreaksBody` | iotc-azrtos-sdk/azrtos-layer/nx-http-client/nx_web_http_client.c:2675-2690 | a chunk complete in one packet, an empty packet, and another chunk: what is sent is rejected by the decoder |
| `Base64.Lengths` | iotc-azrtos-sdk/azrtos-layer/nx-http-client/nx_web_http_client.c:6713-6732 | the text length and padding computed from the input length are those of the standard |
| `Base64.StepsAreBits` | iotc-azrtos-sdk/azrtos-layer/nx-http-client/nx_web_http_client.c:6744-6774 | each of the four steps computes its six bits of the 24 bits of three bytes |
| `Base64.Encode` | iotc-azrtos-sdk/azrtos-layer/nx-http-client/nx_web_http_client.c:6705-6791 | the text, as many padding characters (61) as there is room for, and a NUL |
| `Base64.Alphabet` | iotc-azrtos-sdk/azrtos-layer/nx-http-client/nx_web_http_client.c:52 | the character for each six-bit group is the one at its place in the alphabet of RFC 4648 |
| `Base64.TextDecodes` | iotc-azrtos-sdk/azrtos-layer/nx-http-client/nx_web_http_client.c:6705-6791 | decoding the text without padding gives every input back |
| `Base64.ClippedPadding` | iotc-azrtos-sdk/azrtos-layer/nx-http-client/nx_web_http_client.c:6782-6787 | the output is that of section 4 of RFC 4648 if and only if the input has at most 39 bytes or a multiple of three |
| `Base64.FitsString` | iotc-azrtos-sdk/azrtos-layer/nx-http-client/nx_web_http_client.c:6782-6790 | text, padding and NUL fit in 56 characters if and only if the input has at most 41 bytes |
| `FirmwareUpdate.GetBytesInRange` | iotc-azrtos-sdk/azrtos-layer/src/azrtos_download_client.c:147-183 | a request is recorded with what it found on the connection and in the buffer, what happened to it, how it was answered, and what it left, all as `Requests.MakeRequest` says, what happened being the next that the world has |
| `FirmwareUpdate.HeaderFileSizeCallback` | iotc-azrtos-sdk/azrtos-layer/src/azrtos_download_client.c:66-87 | a field changes the size only if its name is the fourteen letters compared, in their case; a plain number is then the size |
| `FirmwareUpdate.GetFileSize` | iotc-azrtos-sdk/azrtos-layer/src/azrtos_download_client.c:186-221 | the size is taken from the fields that the answer to the HEAD request reports, the last one of the name counting, and is zero without one |
| `FirmwareUpdate.GetBlock` | iotc-azrtos-sdk/azrtos-layer/src/azrtos_download_client.c:276-302 | a block is tried until a request succeeds, and three times if none does; each request asks for exactly the block's first to last byte, and finds what the one before left; after a success the callback gets the block's full length at its offset, as the buffer holds it |
| `FirmwareUpdate.AnotherBlock` | iotc-azrtos-sdk/azrtos-layer/src/azrtos_download_client.c:269-308 | one more block takes a run on from where it stands, or ends it with the events and commands so far |
| `FirmwareUpdate.RunBlocks` | iotc-azrtos-sdk/azrtos-layer/src/azrtos_download_client.c:269-308 | the loop ends, with the events, commands and requests of a run from its start to where it stopped, each request for the block the run has come to and finding what the one before left |
| `FirmwareUpdate.RequestHandler` | iotc-azrtos-sdk/azrtos-layer/src/azrtos_download_client.c:223-312 | for every size that the answer to the first request says, also zero: a run starts over exactly when it does not resume and the size is accepted; what it tells the callback is exactly the size, the accepted blocks and at most one rejected one, each with what the buffer holds behind its successful request; the requests follow one another from what the request for the size left; a failure is that of the request for the size, or of three requests for the block where it stops |
| `FirmwareUpdate.IotcDownload` | iotc-azrtos-sdk/azrtos-layer/src/azrtos_download_client.c:314-348 | the download lock, the argument checks with their statuses, and the final status event around a run on a new connection, which is recorded with its requests and with the counter it found and left; whether it connected and what happened to its requests are what the world has next |
| `FirmwareUpdate.BlocksTile` | iotc-azrtos-sdk/azrtos-layer/src/azrtos_download_client.c:269-308 | data events are contiguous and have 1 to 4096 bytes, and together as many as the part of the file that they stand for |
| `FirmwareUpdate.BlocksCarry` | iotc-azrtos-sdk/azrtos-layer/src/azrtos_download_client.c:269-308 | their data is that part of a file if and only if every single one carries the file's bytes |
| `FirmwareRuns.SuccessfulRun` | iotc-azrtos-sdk/azrtos-layer/src/azrtos_download_client.c:269-311 | a successful run tells of the size once and of exactly as many blocks as the rest of the file needs, one for an empty file |
| `FirmwareRuns.AnnouncedSize` | iotc-azrtos-sdk/azrtos-layer/src/azrtos_download_client.c:66-87 | the size that a run goes by is the number in the last line named Content-Length of the answer to its HEAD request, in exactly these letters, and zero without such a line |
| `FirmwareRuns.UnseenSize` | iotc-azrtos-sdk/azrtos-layer/src/azrtos_download_client.c:66-87 | for every answer without such a line, be it that its letters are in another case: a run that does not resume, with no event rejected and no block given up, succeeds without a byte |
| `FirmwareRuns.RunOutcome` | iotc-azrtos-sdk/azrtos-layer/src/azrtos_download_client.c:223-312 | a run fails if and only if there is no connection, the request for the size fails, or the last three requests, for the block where it stops, do; it is aborted if and only if an event is rejected, and refused if and only if it resumes at or behind the end; without such a cause it succeeds, and has accepted as many bytes as the rest of the file has |
| `FirmwareRuns.RangesJoin` | iotc-azrtos-sdk/azrtos-layer/src/azrtos_download_client.c:270-308 | the ranges asked for are 4096 bytes, or up to the end; the first starts where the run does, behind a success the next starts at the byte behind it, behind a failure the same is asked for again; a successful run has asked for the last byte, and a failed one last for the block where it stops; for an empty file the last byte wraps around |
| `FirmwareRuns.EventRange` | iotc-azrtos-sdk/azrtos-layer/src/azrtos_download_client.c:276-287 | the data of every event, accepted or rejected, starts and ends with the range that its request asked for |
| `FirmwareRuns.ServedRun` | iotc-azrtos-sdk/azrtos-layer/src/azrtos_download_client.c:223-348 | with a connection, an answer to the request for the size that announces it, and prompt replies with the ranges asked for, all of which keep the connection, and every event accepted, every run that does not resume at or behind the end succeeds and has accepted exactly the file from where it started |
| `FirmwareRuns.RunTiles` | iotc-azrtos-sdk/azrtos-layer/src/azrtos_download_client.c:261-308 | any run, successful or not, accepts exactly as many bytes as it moves the counter on, and never moves it back |
| `FirmwareRuns.RunGenuine` | iotc-azrtos-sdk/azrtos-layer/src/azrtos_download_client.c:276-302 | for every run and every file of the size that it goes by, whatever its connection has left of earlier responses: the accepted data is the file from its start to where it stopped if and only if, for every accepted block, what its request put into the buffer is the beginning of the block and the buffer happened to hold the rest |
| `FirmwareRuns.PromptRun` | iotc-azrtos-sdk/azrtos-layer/src/azrtos_download_client.c:223-311 | a run whose request for the size leaves nothing and whose replies all come promptly with the ranges asked for has every accepted block complete |
| `FirmwareRuns.StaleBlock` | iotc-azrtos-sdk/azrtos-layer/src/azrtos_download_client.c:276-302 | a file of one block, and a reply whose header arrives alone: the run succeeds, and accepts what the buffer held before |
| `FirmwareRuns.ShiftedRun` | iotc-azrtos-sdk/azrtos-layer/src/azrtos_download_client.c:276-308 | for every file of more than one block: the first reply's header arrives alone and every other reply promptly; every request succeeds, the run succeeds, and what it accepts is what the buffer held before and then the file without its end |
| `FirmwareRuns.RunsTile` | iotc-azrtos-sdk/azrtos-layer/src/azrtos_download_client.c:261-308 | over any sequence of runs, of any sizes, resumed or not, whatever the counter was before: the data accepted since the last start over is as long as the way from there to the counter |
| `FirmwareRuns.RunsCarry` | iotc-azrtos-sdk/azrtos-layer/src/azrtos_download_client.c:261-308 | that data is the file from there to the counter if and only if every one of those runs accepted its bytes |
| `FirmwareRuns.WholeFile` | iotc-azrtos-sdk/azrtos-layer/src/azrtos_download_client.c:230-308 | when a run succeeds, that data is the whole of a file of its size if and only if the counter was zero in the beginning or some run started over, and every run since accepted the file's bytes |
| `FirmwareRuns.HonestRuns` | iotc-azrtos-sdk/azrtos-layer/src/azrtos_download_client.c:230-308 | runs that go by a file's size accept its bytes if every accepted block's request found nothing left of earlier responses and was answered completely |
| `FirmwareRuns.ResumedFile` | iotc-azrtos-sdk/azrtos-layer/src/azrtos_download_client.c:230-308 | a download and the runs that resume it up to a success accept the whole of a file of its size if and only if the counter was zero or the first run did not resume and had the size accepted, and every run accepted the file's bytes |
| `FirmwareRuns.StaleCounter` | iotc-azrtos-sdk/azrtos-layer/src/azrtos_download_client.c:230-266 | for every counter inside the file and all prompt replies: a download that is not to resume and cannot connect, then a resumed one that succeeds without the beginning of the file |
| `FirmwareRuns.Downloads` | iotc-azrtos-sdk/azrtos-layer/src/azrtos_download_client.c:314-348 | any sequence of downloads is such a sequence of runs; the events, connections and requests in the trace are theirs, and as the world has them |
| `FirmwareRuns.RejectedAgain` | iotc-azrtos-sdk/azrtos-layer/src/azrtos_download_client.c:288-308 | a rejected block is delivered again, at the same offset and with the same length |
| `FirmwareUpdate.OtaFwDownloadHandler` | iotc-azrtos-sdk/azrtos-layer/azrtos-ota/src/azrtos_ota_fw_client.c:13-53 | the driver is asked first, for everything but a status; an event is accepted if and only if the driver's status is zero, or it is a status, and the user, if there is one to ask, accepts it |
| `FirmwareClient.WritesTile` | iotc-azrtos-sdk/azrtos-layer/azrtos-ota/src/azrtos_ota_fw_client.c:30-42 | the write commands for accepted blocks leave the accepted data at its place in the flash, and nothing anywhere else |
| `FirmwareClient.RunFlash` | iotc-azrtos-sdk/azrtos-layer/azrtos-ota/src/azrtos_ota_fw_client.c:13-53 | in front of where any run stopped, its commands leave exactly the data that was accepted, also if the last block was written and then rejected |
| `FirmwareClient.IotcOtaFwDownload` | iotc-azrtos-sdk/azrtos-layer/azrtos-ota/src/azrtos_ota_fw_client.c:56-113 | exactly which commands are issued, what is told, how the flags and the counter change, and the status, in every branch: a driver that is asked to initialize first and then answers the events of a run from the counter or from the start |
| `FirmwareClient.AbortedUpdate` | iotc-azrtos-sdk/azrtos-layer/azrtos-ota/src/azrtos_ota_fw_client.c:13-53 | an update that is tried is aborted if and only if the driver fails a command for an event or the user rejects one; so without a user's callback some command has a status other than zero |
| `FirmwareClient.ServedUpdate` | iotc-azrtos-sdk/azrtos-layer/azrtos-ota/src/azrtos_ota_fw_client.c:56-113 | with a driver that does all it is asked for, a user who accepts, and a connection and a server as in `FirmwareRuns.ServedRun`, an update leaves firmware ready, and the flash has the file from where the download started |
| `FirmwareClient.UnseenUpdate` | iotc-azrtos-sdk/azrtos-layer/azrtos-ota/src/azrtos_ota_fw_client.c:56-113 | an update whose request for the size is answered without a line of the client's own spelling, everything else going well, makes firmware ready of which no byte was downloaded |
| `FirmwareClient.IotcOtaFwApply` | iotc-azrtos-sdk/azrtos-layer/azrtos-ota/src/azrtos_ota_fw_client.c:115-147 | installs only when firmware is ready, applies only after a successful installation, and resets the flags |
| `FirmwareClient.IotcOtaFwCancel` | iotc-azrtos-sdk/azrtos-layer/azrtos-ota/src/azrtos_ota_fw_client.c:149-157 | cancels only when firmware is ready |
| `FirmwareClient.CallsTile` | iotc-azrtos-sdk/azrtos-layer/azrtos-ota/src/azrtos_ota_fw_client.c:56-157 | over any sequence of calls the runs go on from one another through the counter, and what was written since an update last started over, failed updates and all, is at every place before the counter the data kept since then |
| `FirmwareClient.InstalledImage` | iotc-azrtos-sdk/azrtos-layer/azrtos-ota/src/azrtos_ota_fw_client.c:56-157 | in every sequence of calls, every install command comes directly behind the commands of the download call just before it, which succeeded, each with status zero |
| `FirmwareClient.InstalledFlash` | iotc-azrtos-sdk/azrtos-layer/azrtos-ota/src/azrtos_ota_fw_client.c:56-157 | behind every successful download, resumed or not, what was written since an update last started over is a file of its size if and only if the counter was zero in the beginning or some update started over, and every run since accepted the file's bytes |
| `FirmwareClient.HonestInstall` | iotc-azrtos-sdk/azrtos-layer/azrtos-ota/src/azrtos_ota_fw_client.c:56-157 | for updates of one file whose accepted blocks' requests found nothing left and were answered completely, only the condition on the counter remains |
| `FirmwareClient.RunCalls` | iotc-azrtos-sdk/azrtos-layer/azrtos-ota/src/azrtos_ota_fw_client.c:56-157 | from the start of the program, in any world, any calls make such a sequence, with the trace of events, commands, connections and requests, the flags and the counter, every answer being the world's; every install command in the trace is behind a successful download, and the flash then holds a file of its size if and only if every run since the last start over accepted it |
| `FirmwareClient.ContractKeepsFlags` | iotc-azrtos-sdk/azrtos-layer/azrtos-ota/include/azrtos_ota_fw_client.h:24-25 | in every run firmware is ready exactly when a driver is set, up to the first download that is started while firmware is ready, which leaves a driver set and nothing ready |
| `FirmwareClient.StuckForever` | iotc-azrtos-sdk/azrtos-layer/azrtos-ota/src/azrtos_ota_fw_client.c:64-157 | from that state every later call returns an error, changes nothing and asks the driver for nothing |
| `SignatureDer.WriteInteger` | iotc-azrtos-sdk/authentication/src/iotc_algorithms.c:72-85 | an integer is written at its offset with its padding, and nothing else is touched |
| `SignatureDer.SigToAsn1Der` | iotc-azrtos-sdk/authentication/src/iotc_algorithms.c:40-89 | the length returned is exactly the number of bytes written, in both length forms, below 2L + 10, and bytes behind it are untouched; the first byte is the tag of a sequence in X.690, 48, and each number starts with the tag of an integer, 2, where the lengths before it say |
| `SignatureDer.SignatureReads` | iotc-azrtos-sdk/authentication/src/iotc_algorithms.c:51-88 | the output reads back as the two numbers, with a reader that has the tags of X.690, if and only if the sequence has at most 255 bytes |
| `SignatureDer.Injective` | iotc-azrtos-sdk/authentication/src/iotc_algorithms.c:51-88 | different signatures of one size have different encodings, however long they are |
| `SignatureDer.DistinguishedIff` | iotc-azrtos-sdk/authentication/src/iotc_algorithms.c:57-59 | the integers are in the fewest bytes if and only if neither number starts with a zero it does not need |
| `HexIdentity.BinToHex` | iotc-azrtos-sdk/src/iotconnect_di.c:36-56 | text for up to 749 bytes; the buffer is untouched for none, and the size is zero from 750 bytes on |
| `HexIdentity.HexToBin` | iotc-azrtos-sdk/src/iotconnect_di.c:71-105 | succeeds if and only if the text is whole pairs of digits of at most 2998 characters, also inside the shared buffer itself; the size is zero otherwise, and unchanged without a text |
| `Bytes.HexTable` | iotc-azrtos-sdk/src/iotconnect_di.c:57-69 | the digit written for a value is the lower-case one, and the digits read as it are that in either case and no other |
| `HexIdentity.TextDecodes` | iotc-azrtos-sdk/src/iotconnect_di.c:36-105 | decoding what was encoded gives the bytes back |
| `HexIdentity.BytesEncode` | iotc-azrtos-sdk/src/iotconnect_di.c:36-105 | encoding what was decoded gives the text back in lower case |
| `HexIdentity.SignRequest` | iotc-azrtos-sdk/src/iotconnect_di.c:463-495 | the copy of the signature's text survives the reuse of the shared buffer, which is left with the request's text; both decode to what was sent, and the signature reads as the two numbers that were signed |
| `HexIdentity.StoreCertificate` | iotc-azrtos-sdk/src/iotconnect_di.c:463-515 | with a certificate text what is stored is the decoded certificate, exactly if the text is 1 to 1499 pairs of digits, else nothing; without one it is the text of the request |

## Left out

- ChunkedResponse.ResponseChunkedGet: on an error inside a chunked body the code may release a packet twice, so where
  the packets are then is not stated; the status is.
- ResponseBody.GetChunked: the same; the status and the reset state are stated.
- ResponseBody.ResponseBodyGet: the same, for chunked bodies only; and nothing more is stated of a call whose field
  reader left the packet.
- Non-blocking receive: a size line that is half read when the wait ends is lost, so the model has blocking receive
  only, as the SDK uses it.
- Packet memory is a sequence in each packet: that two packets could share a block of memory is not modelled, and
  neither are the pools' limits.
- Byte counters of a response are unbounded except where they are compared: responses of 4 GiB and more are outside the
  model.
- ResponseBody.JudgeHeader: a header line without a colon makes the field reader leave the packet; the model states
  exactly when, and nothing of what the reader finds there.
- ResponseBody.GetFirst: the same, with `overrun`.
- HeaderFields.HeaderParses: folded lines and bare line feeds are outside the grammar it is stated for.
- Responses.ChunkedFetched: for headers in the first packet; for others see `JudgedByHeader`. If a header ends beyond
  the first chain, how much of it the first packet gets is left open.
- ServerResponse.DataAppend: the bytes that do not fit behind a chain go to one new packet; the pool's packet size is
  not modelled.
- Fetch.GetResponse: after an error in a chunked body neither the bytes at the front of the buffer are stated nor where
  the packets are.
- ChunkedRequest.SendChunk: the size announced for a chunk is that of its data.
- ChunkedRequest.SendBody: the same.
- Bodies of requests with a content length, multipart bodies, and the start functions for single methods: argument
  checks and forwarding.
- FirmwareUpdate.GetBytesInRange: once a field reader has left its packet on a connection, anything may be in the buffer
  and every request may succeed or fail.
- FirmwareUpdate.RequestHandler: that a run fails is stated exactly, but not the code that it fails with.
- FirmwareUpdate.HeaderFileSizeCallback: of a value that is not a decimal number of at most ten digits below 2^31,
  without a zero in front, nothing is said.
- FirmwareUpdate.IotcDownload: a callback that calls the download or firmware functions itself, or writes to the buffer,
  is not modelled.
- FirmwareClient.InstalledFlash: the flash is what the write commands leave; whether the driver clears it when it is
  initialized or told the size is not known.
- SignatureDer.SigToAsn1Der: one address for the output and an input is excluded.
- HexIdentity.HexToBin: characters outside ASCII and other locales than C are not modelled.
- Splitting of common names, discovery, the HTTP calls of the identity flow and the secure element: string plumbing
  around the conversions.
- TCP, TLS, DNS, time, MQTT and the IoT Hub: code of other libraries.
