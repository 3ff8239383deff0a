/** Getting the body of a response, packet by packet: the header first, then chunks or a body of announced length. */
module ResponseBody {
  import opened Bytes
  import opened Packets
  import opened HttpClient
  import opened HeaderScan
  import opened HeaderFields
  import opened Numbers
  import opened ChunkCoding
  import opened ChunkedResponse
  import opened ServerResponse

  const STATE_READY: nat := 1
  const STATE_GET: nat := 2
  const STATE_HEAD: nat := 5
  const STATE_DELETE: nat := 6

  // ---------------------------------------------------------------- what a header comes to

  datatype Verdict =
    | Refused(status: Status)
    | Accepted(offset: nat, length: nat, chunked: bool) // the body starts at `offset`

  /** What the client makes of a response whose first packet is `b` and which has `n` bytes so far. */
  function Judge(b: seq<Byte>, n: nat, codes: map<seq<Byte>, nat>): Verdict {
    if |b| < 12 then Refused(NX_WEB_HTTP_ERROR)
    else if b[9..12] !in codes then Refused(NX_WEB_HTTP_REQUEST_UNSUCCESSFUL_CODE)
    else if b[9] != '2' as int then Refused(StatusCode(codes[b[9..12]]))
    else
      var length, parse := ContentLength(b), ParseLines(b);
      var chunked := Version(b) != 0 && Chunked(parse.fields);
      if Version(b) == 0 || !parse.Complete? || n < parse.offset
         || (n > (parse.offset + length) % UINT_RANGE && !chunked)
      then Refused(NX_WEB_HTTP_BAD_PACKET_LENGTH)
      else Accepted(parse.offset, length, chunked)
  }

  lemma LinesInside(b: seq<Byte>)
    ensures ParseLines(b).Complete? ==> 2 <= ParseLines(b).offset <= |b|
  {
    FieldsInside(b, LineStop(b, 0) + 2);
  }

  /** An accepted body starts within the first packet. */
  lemma AcceptedInside(b: seq<Byte>, n: nat, codes: map<seq<Byte>, nat>)
    ensures Judge(b, n, codes).Accepted? ==> Judge(b, n, codes).offset <= |b|
    ensures Judge(b, n, codes).Accepted? ==> Judge(b, n, codes).offset <= n
  {
    LinesInside(b);
  }

  /** The rest of an accepted response of announced length does not exceed that length. */
  lemma AcceptedFits(b: seq<Byte>, n: nat, codes: map<seq<Byte>, nat>)
    requires Judge(b, n, codes).Accepted? && !Judge(b, n, codes).chunked
    ensures n - Judge(b, n, codes).offset <= Judge(b, n, codes).length < UINT_RANGE
  {
    AcceptedInside(b, n, codes);
    ContentLengthRange(b);
  }

  /** Refusals never look like a success, and only a response that is too short is refused as an error. */
  lemma Refusals(b: seq<Byte>, n: nat, codes: map<seq<Byte>, nat>)
    ensures Judge(b, n, codes) == Refused(NX_WEB_HTTP_ERROR) <==> |b| < 12
    ensures Judge(b, n, codes) != Refused(NX_SUCCESS) && Judge(b, n, codes) != Refused(NX_WEB_HTTP_GET_DONE)
  {
    hide ContentLength, ParseLines, Version, Chunked;
  }

  lemma ContentLengthRange(b: seq<Byte>)
    ensures ContentLength(b) < UINT_RANGE
  {
  }

  // ---------------------------------------------------------------- the client between calls

  /** No packet is held. */
  ghost predicate Quiet(c: Client)
    reads c`responsePacket, c`held, c`handed, c`released, c`arrived, c`network, c`remainingSize, c.held
  {
    Connected(c, {}) && c.held == [] && c.responsePacket == null && c.remainingSize == 0
  }

  /** What every call that does not fail keeps. */
  ghost predicate Session(c: Client)
    reads c`responseHeaderReceived, c`responseChunked, c`responsePacket, c`held, c`handed, c`released, c`arrived
    reads c`network, c`remainingSize, c`totalReceiveBytes, c`actualBytesReceived, c.held
  {
    if c.responseHeaderReceived && c.responseChunked then Ready(c, {}) && c.actualBytesReceived <= c.totalReceiveBytes
    else Quiet(c)
  }

  /** What is left to get. */
  datatype View =
    | Header(net: seq<seq<seq<Byte>>>)
    | Chunks(owed: nat, s: seq<Byte>, net: seq<seq<seq<Byte>>>) // the bytes to come, with those on the network
    | Fixed(left: int, net: seq<seq<seq<Byte>>>)

  ghost function ViewOf(c: Client): View
    reads c`responseHeaderReceived, c`responseChunked, c`held, c`network, c`remainingSize
    reads c`totalReceiveBytes, c`actualBytesReceived, c.held
  {
    if !c.responseHeaderReceived then Header(c.network)
    else if c.responseChunked then Chunks(Owed(c), Pending(c), c.network)
    else Fixed(c.totalReceiveBytes - c.actualBytesReceived, c.network)
  }

  /**
   A call during a chunked body: what it returns, and what is left. No more chains are taken than must be; bytes behind
   the body in the last one are lost.
   */
  ghost predicate GetsChunks(owed: nat, s: seq<Byte>, net: seq<seq<seq<Byte>>>, status: Status, bytes: seq<Byte>,
      v: View) {
    match status
    case NX_SUCCESS => v.Chunks? && Delivers(owed, s, bytes, v.owed, v.s) && v.net == Untaken(net, |v.s|)
    case NX_WEB_HTTP_GET_DONE =>
      && bytes == [] && Decode(owed, s).Done? && Decode(owed, s).content == []
      && v == Header(Untaken(net, |Decode(owed, s).rest|))
    case NX_NOT_FOUND => Decode(owed, s) == Malformed
    case NX_NOT_CONNECTED => Decode(owed, s) == Truncated
    case _ => false
  }

  /** The bytes of one packet of a body of announced length; the counters are 32-bit. */
  predicate GetsPart(left: int, part: seq<Byte>, net: seq<seq<seq<Byte>>>, status: Status, bytes: seq<Byte>, v: View) {
    && bytes == part
    && status == (if left == |part| then NX_WEB_HTTP_GET_DONE else NX_SUCCESS)
    && v == if status == NX_SUCCESS then Fixed(left - |part|, net) else Header(net)
  }

  /** A call during a body of announced length. */
  predicate GetsFixed(left: int, net: seq<seq<seq<Byte>>>, status: Status, bytes: seq<Byte>, v: View) {
    if net == [] then status == NX_NOT_CONNECTED
    else if |Flatten(net[0])| > left % UINT_RANGE then status == NX_WEB_HTTP_BAD_PACKET_LENGTH
    else GetsPart(left, Flatten(net[0]), net[1..], status, bytes, v)
  }

  /** How the header was found: the first packet's contents, all that was received, and what the network still has. */
  datatype Opening = Opening(first: seq<Byte>, all: seq<Byte>, rest: seq<seq<seq<Byte>>>)

  /**
   All that was received are the chains up to the one in which the header ends. If that is the first one, it is as it
   came.
   */
  ghost predicate Opens(net: seq<seq<seq<Byte>>>, o: Opening) {
    && NetOk(net) && net != [] && o.first <= o.all && o.all + NetBytes(o.rest) == NetBytes(net)
    && ScanFrom(o.all, 0) == ScanFrom(NetBytes(net), 0) && UpTo(net, o.rest, o.all)
    && (ScanFrom(Flatten(net[0]), 0).Found? ==> o == Opening(net[0][0], Flatten(net[0]), net[1..]))
  }

  /** Whether the fields of a response with this first packet are read at all: its status code must be a success. */
  predicate Reads(b: seq<Byte>, codes: map<seq<Byte>, nat>) {
    |b| >= 12 && b[9..12] in codes && b[9] == '2' as int
  }

  /** Whether the connection is to be kept, whether the application asked for the fields, and what it was told. */
  datatype Notes = Notes(keep: bool, listening: bool, reported: seq<Field>)

  function NotesOf(c: Client): Notes
    reads c`keepAlive, c`responseCallback, c`reported
  {
    Notes(c.keepAlive, c.responseCallback, c.reported)
  }

  /** What the first packet of a response makes of them. */
  ghost function NotesBehind(was: Notes, b: seq<Byte>, codes: map<seq<Byte>, nat>): Notes {
    if Reads(b, codes) then
      Notes(Keeps(b), was.listening, if was.listening then was.reported + Reports(b) else was.reported)
    else was
  }

  /** What a call makes of them: only the one that gets the header changes them. */
  ghost function Noted(was: Notes, v: View, codes: map<seq<Byte>, nat>, o: Opening): Notes {
    if v.Header? && ScanFrom(NetBytes(v.net), 0).Found? then NotesBehind(was, o.first, codes) else was
  }

  /** A call that gets the header and the first part of the body. */
  ghost predicate GetsFirst(net: seq<seq<seq<Byte>>>, codes: map<seq<Byte>, nat>, head: bool, o: Opening,
      status: Status, bytes: seq<Byte>, v: View) {
    if ScanFrom(NetBytes(net), 0).Searching? then status == NX_NOT_CONNECTED
    else
      && Opens(net, o)
      && match Judge(o.first, |o.all|, codes)
         case Refused(st) => status == st
         case Accepted(offset, length, chunked) =>
           offset <= |o.all| && GetsOpened(offset, if head then 0 else length, chunked, o, status, bytes, v)
  }

  ghost predicate GetsOpened(offset: nat, total: nat, chunked: bool, o: Opening, status: Status,
      bytes: seq<Byte>, v: View)
    requires offset <= |o.all|
  {
    GetsBody(chunked, total, o.all[offset..], o.rest, status, bytes, v)
  }

  /** What a first call gets of a body, of which `part` has arrived. */
  ghost predicate GetsBody(chunked: bool, total: nat, part: seq<Byte>, rest: seq<seq<seq<Byte>>>, status: Status,
      bytes: seq<Byte>, v: View) {
    if chunked then GetsChunks(total, part + NetBytes(rest), rest, status, bytes, v)
    else GetsPart(total, part, rest, status, bytes, v)
  }

  /** Any call: its status, the bytes of the packet it returns, and what is left afterwards. */
  ghost predicate Gets(v: View, codes: map<seq<Byte>, nat>, head: bool, o: Opening, status: Status,
      bytes: seq<Byte>, v': View) {
    match v
    case Header(net) => GetsFirst(net, codes, head, o, status, bytes, v')
    case Chunks(owed, s, net) => GetsChunks(owed, s, net, status, bytes, v')
    case Fixed(left, net) => GetsFixed(left, net, status, bytes, v')
  }

  // ---------------------------------------------------------------- the header

  /** Looks at the status code, the announced length and the fields of a response. */
  method JudgeHeader(c: Client, packet: Packet, codes: map<seq<Byte>, nat>, ghost b: seq<Byte>)
    returns (status: Status, overrun: bool, offset: nat, length: nat)
    requires packet.Valid() && b == packet.Bytes() && |b| >= 12
    modifies c`responseChunked, c`keepAlive, c`reported
    ensures overrun <==> Reads(b, codes) && Version(b) != 0 && ParseLines(b).Overrun?
    ensures NotesOf(c) == NotesBehind(old(NotesOf(c)), b, codes)
    ensures !overrun ==>
      match Judge(b, packet.length, codes)
      case Refused(st) => status == st
      case Accepted(o, l, ch) => status == NX_SUCCESS && offset == o && length == l && c.responseChunked == ch
  {
    hide ContentLength, ParseLines, Version, Chunked;
    status, overrun, offset, length := NX_SUCCESS, false, 0, 0;
    var buffer := packet.memory[packet.prependPtr..packet.appendPtr];
    var code := buffer[9..12];
    if code !in codes {
      status := NX_WEB_HTTP_REQUEST_UNSUCCESSFUL_CODE;
    } else if buffer[9] != '2' as int {
      status := StatusCode(codes[code]);
    } else {
      length := ContentLengthGet(buffer);
      offset, overrun := ProcessHeaderFields(c, packet);
      NothingReported(c.reported);
      LinesInside(b);
      if offset == 0 || packet.length < offset
         || (packet.length > (offset + length) % UINT_RANGE && !c.responseChunked)
      {
        status := NX_WEB_HTTP_BAD_PACKET_LENGTH;
      }
    }
  }

  lemma NothingReported(reported: seq<Field>)
    ensures reported + [] == reported
  {
  }

  /** Moves the start of a chain behind the header. */
  method SkipHeader(packet: Packet, offset: nat, ghost chain: seq<Packet>, ghost all: seq<Byte>)
    requires Assembled(chain, packet, all) && offset <= |packet.Bytes()|
    modifies packet`prependPtr, packet`length
    ensures Returned(packet, chain) && Full(chain[1..])
    ensures offset <= |all| && ChainBytes(chain) == all[offset..]
  {
    DistinctHead(chain);
    assert chain[0].Valid();
    ghost var rest := chain[1..];
    forall i | 0 <= i < |rest|
      ensures rest[i].prependPtr < rest[i].appendPtr
    {
      assert rest[i] == chain[i + 1];
    }
    hide Distinct, Links;
    ghost var b, more := packet.Bytes(), ChainBytes(rest);
    packet.prependPtr := packet.prependPtr + offset;
    packet.length := packet.length - offset;
    assert packet.Bytes() == b[offset..];
    assert ChainBytes(rest) == more && Full(rest);
    assert (b + more)[offset..] == b[offset..] + more;
  }

  /** The client holds the chain of a chunked response. */
  method HoldBody(c: Client, packet: Packet, ghost chain: seq<Packet>, ghost bytes: seq<Byte>)
    requires Connected(c, Nodes(chain)) && c.held == [] && Returned(packet, chain) && Full(chain[1..])
      && ChainBytes(chain) == bytes
    modifies c`responsePacket, c`remainingSize, c`held
    ensures Ready(c, {}) && c.held == chain && Pending(c) == bytes + NetBytes(c.network)
  {
    hide Linked, ChainBytes, NetBytes, Full, NetOk;
    c.responsePacket, c.remainingSize, c.held := packet, packet.length, chain;
  }

  lemma CollectedConnected(c: Client, chain: seq<Packet>, head: Packet, all: seq<Byte>, s: seq<Byte>)
    requires Collected(c, chain, head, all, s)
    ensures Connected(c, Nodes(chain)) && Assembled(chain, head, all) && c.held == [] && c.responsePacket == null
    ensures s == all + NetBytes(c.network) && head in Nodes(chain) && |head.Bytes()| <= |all|
  {
    EmptyChain(c.held);
  }

  /** A chunked body is held by the client, any other one is on its way to the caller. */
  ghost predicate BodyOpen(c: Client, packet: Packet, chain: seq<Packet>, bytes: seq<Byte>)
    reads c`responseChunked, c`responsePacket, c`held, c`handed, c`released, c`arrived, c`network, c`remainingSize
    reads c.held, chain
  {
    if c.responseChunked then Ready(c, {}) && Pending(c) == bytes + NetBytes(c.network) && c.held == chain
    else Passing(c, packet, chain, bytes)
  }

  /** The client takes the chain of a chunked response. */
  method TakeBody(c: Client, packet: Packet, ghost chain: seq<Packet>, ghost bytes: seq<Byte>)
    requires Connected(c, Nodes(chain)) && c.held == [] && c.responsePacket == null && c.remainingSize == 0
    requires Returned(packet, chain) && Full(chain[1..]) && ChainBytes(chain) == bytes
    modifies c`responsePacket, c`remainingSize, c`held
    ensures BodyOpen(c, packet, chain, bytes)
  {
    hide Ready, Pending, Connected, Returned, Full, ChainBytes, NetBytes;
    if c.responseChunked {
      HoldBody(c, packet, chain, bytes);
    }
  }

  /** Notes that the header is received, and where a chunked body starts. */
  method OpenBody(c: Client, packet: Packet, offset: nat, length: nat, ghost chain: seq<Packet>,
      ghost all: seq<Byte>, ghost s: seq<Byte>)
    requires Collected(c, chain, packet, all, s) && offset <= |packet.Bytes()| && c.remainingSize == 0
    modifies c`responseHeaderReceived, c`totalReceiveBytes, c`actualBytesReceived
    modifies c`responsePacket, c`remainingSize, c`held, packet`prependPtr, packet`length
    ensures offset <= |all| <= |s|
    ensures c.responseHeaderReceived
    ensures c.totalReceiveBytes == (if c.state != STATE_HEAD then length else 0) && c.actualBytesReceived == 0
    ensures BodyOpen(c, packet, chain, all[offset..])
  {
    hide Collected, Connected, BodyOpen, Returned, Full, ChainBytes, Assembled, NetBytes;
    c.responseHeaderReceived := true;
    c.totalReceiveBytes, c.actualBytesReceived := if c.state != STATE_HEAD then length else 0, 0;
    CollectedConnected(c, chain, packet, all, s);
    SkipOver(c, packet, offset, chain, all);
    TakeBody(c, packet, chain, all[offset..]);
  }

  /** Skips the header of the chain on its way. */
  method SkipOver(c: Client, packet: Packet, offset: nat, ghost chain: seq<Packet>, ghost all: seq<Byte>)
    requires Connected(c, Nodes(chain)) && c.held == [] && Assembled(chain, packet, all) && offset <= |packet.Bytes()|
    modifies packet`prependPtr, packet`length
    ensures Connected(c, Nodes(chain)) && offset <= |all|
    ensures Returned(packet, chain) && Full(chain[1..]) && ChainBytes(chain) == all[offset..]
  {
    EmptyChain(c.held);
    hide Linked, Full, ChainBytes, Assembled, Returned, NetOk, Owned, Nodes;
    SkipHeader(packet, offset, chain, all);
  }

  // ---------------------------------------------------------------- the end of a call

  /** Back to the ready state. The held chain of a chunked response is dropped; `given`: it goes to the caller. */
  method EndResponse(c: Client, ghost given: bool)
    modifies c`responsePacket, c`remainingSize, c`responseChunked, c`responseHeaderReceived, c`state, c`held, c`handed
    ensures !c.responseHeaderReceived && c.state == STATE_READY && !c.responseChunked
    ensures old(c.responseChunked && Connected(c, {})) && given ==>
      Quiet(c) && c.handed == old(c.handed) + Nodes(old(c.held))
    ensures !given ==> c.handed == old(c.handed)
    ensures !given && old(Quiet(c)) ==> Quiet(c)
  {
    hide Quiet, Connected, Nodes;
    if c.responseChunked {
      DropHeld(c, given);
    }
    c.responseHeaderReceived, c.state := false, STATE_READY;
  }

  /** Forgets the held chain of a chunked response. */
  method DropHeld(c: Client, ghost given: bool)
    modifies c`responsePacket, c`remainingSize, c`responseChunked, c`held, c`handed
    ensures !c.responseChunked
    ensures given ==> c.handed == old(c.handed) + Nodes(old(c.held)) && (old(Connected(c, {})) ==> Quiet(c))
    ensures !given ==> c.handed == old(c.handed) && (old(Quiet(c)) ==> Quiet(c))
  {
    assert Nodes([]) == {};
    hide Linked, NetOk, Nodes;
    if given {
      c.handed := c.handed + Nodes(c.held);
    }
    c.responsePacket, c.remainingSize, c.responseChunked := null, 0, false;
    c.held := [];
    EmptyChain(c.held);
  }

  /** The packets of a chain go to the caller. */
  method HandOver(c: Client, ghost ret: seq<Packet>)
    requires Owned(c, Nodes(ret))
    modifies c`handed
    ensures Owned(c, {}) && c.handed == old(c.handed) + Nodes(ret) && Nodes(ret) !! old(c.handed)
  {
    hide Nodes;
    c.handed := c.handed + Nodes(ret);
  }

  /**
   A packet for the caller, with the bytes it counts. The empty packet that ends a chunked body may still have
   packets behind it.
   */
  ghost predicate Delivered(packet: Packet?, ret: seq<Packet>, bytes: seq<Byte>)
    reads ret
  {
    && ret != [] && packet == ret[0] && Linked(ret) && ret[0].length == |bytes|
    && (bytes != [] ==> ChainBytes(ret) == bytes)
  }

  /**
   How a call leaves the client that was in `state` and had handed out `handed`: with the session going on, or ready
   for another request. A packet it returns is the caller's.
   */
  ghost predicate Settled(c: Client, state: nat, handed: set<Packet>, status: Status, packet: Packet?,
      ret: seq<Packet>, bytes: seq<Byte>)
    reads c`responseHeaderReceived, c`responseChunked, c`responsePacket, c`held, c`handed, c`released, c`arrived
    reads c`network, c`remainingSize, c`totalReceiveBytes, c`actualBytesReceived, c`state, c.held, ret
  {
    && (status == NX_SUCCESS ==> c.responseHeaderReceived && c.state == state && Session(c))
    && (status != NX_SUCCESS ==> !c.responseHeaderReceived && c.state == STATE_READY)
    && (status == NX_WEB_HTTP_GET_DONE ==> Quiet(c))
    && (status == NX_SUCCESS || status == NX_WEB_HTTP_GET_DONE ==>
          Delivered(packet, ret, bytes) && Nodes(ret) !! handed && c.handed == handed + Nodes(ret))
  }

  /** A response is found whose fields are read, and a line in its first packet has no colon: the reader leaves it. */
  ghost predicate Overruns(net: seq<seq<seq<Byte>>>, codes: map<seq<Byte>, nat>, o: Opening) {
    && ScanFrom(NetBytes(net), 0).Found? && Opens(net, o)
    && Reads(o.first, codes) && Version(o.first) != 0 && ParseLines(o.first).Overrun?
  }

  predicate Failed(status: Status) {
    status != NX_SUCCESS && status != NX_WEB_HTTP_GET_DONE
  }

  /** Whether a call is one for a chunked body; `o` is how it found the header, if it had to. */
  ghost predicate ChunkedBody(v: View, codes: map<seq<Byte>, nat>, o: Opening) {
    match v
    case Header(net) =>
      && ScanFrom(NetBytes(net), 0).Found?
      && var j := Judge(o.first, |o.all|, codes); j.Accepted? && j.chunked
    case Chunks(_, _, _) => true
    case Fixed(_, _) => false
  }

  /** The part of a call that decodes chunks. */
  method GetChunked(c: Client, ghost owed: nat, ghost s: seq<Byte>, ghost net: seq<seq<seq<Byte>>>)
    returns (status: Status, packet: Packet?, ghost ret: seq<Packet>, ghost bytes: seq<Byte>)
    requires c.responseHeaderReceived && c.responseChunked && Session(c)
    requires owed == Owed(c) && s == Pending(c) && net == c.network
    modifies c`responseHeaderReceived, c`responseChunked, c`responsePacket, c`remainingSize, c`held, c`state
    modifies c`totalReceiveBytes, c`actualBytesReceived, c`network, c`arrived, c`handed, c`released, Nodes(c.held)
    ensures GetsChunks(owed, s, net, status, bytes, ViewOf(c)) && status != NX_WEB_HTTP_ERROR
    ensures Settled(c, old(c.state), old(c.handed), status, packet, ret, bytes)
    ensures status == NX_SUCCESS ==> forall p :: p in c.held ==> p in old(c.held) || fresh(p)
  {
    hide Delivers, Decode, Returned, Ready, Connected, Pending, Settled, Quiet, ChainBytes, Owed, Untaken;
    ghost var state, handed := c.state, c.handed;
    status, packet, ret := ResponseChunkedGet(c, owed, s);
    bytes := [];
    if status == NX_SUCCESS {
      bytes := ChainBytes(ret);
      GiveChunk(c, packet, ret, state, handed, Owed(c), Pending(c), c.network);
    } else if status == NX_WEB_HTTP_GET_DONE {
      ret := c.held;
      HeldHead(c);
      GiveEnd(c, packet, state, handed);
    } else {
      EndResponse(c, false);
      assert Settled(c, state, handed, status, packet, ret, bytes) by {
        FailureSettled(c, state, handed, status, packet, ret, bytes);
      }
    }
  }

  lemma HeldHead(c: Client)
    requires Connected(c, {}) && c.held != []
    ensures c.responsePacket == c.held[0]
  {
  }

  lemma FailureSettled(c: Client, state: nat, handed: set<Packet>, status: Status, packet: Packet?,
      ret: seq<Packet>, bytes: seq<Byte>)
    requires status != NX_SUCCESS && status != NX_WEB_HTTP_GET_DONE && !c.responseHeaderReceived
      && c.state == STATE_READY
    ensures Settled(c, state, handed, status, packet, ret, bytes)
  {
  }

  /** A packet with chunk data goes to the caller. */
  method GiveChunk(c: Client, packet: Packet?, ghost ret: seq<Packet>, ghost state: nat,
      ghost handed: set<Packet>, ghost owed: nat, ghost s: seq<Byte>, ghost net: seq<seq<seq<Byte>>>)
    requires Ready(c, Nodes(ret)) && Returned(packet, ret) && c.actualBytesReceived <= c.totalReceiveBytes
    requires c.responseHeaderReceived && c.responseChunked && c.state == state && c.handed == handed
    requires owed == Owed(c) && s == Pending(c) && net == c.network
    modifies c`handed
    ensures Settled(c, state, handed, NX_SUCCESS, packet, ret, ChainBytes(ret)) && ViewOf(c) == Chunks(owed, s, net)
    ensures c.held == old(c.held)
  {
    hide Linked, ChainBytes, NetOk, Full, Pending, Owed;
    HandOver(c, ret);
  }

  /** The empty packet at the end of a chunked body goes to the caller. */
  method GiveEnd(c: Client, packet: Packet?, ghost state: nat, ghost handed: set<Packet>)
    requires Connected(c, {}) && c.held != [] && packet == c.responsePacket && packet != null && packet.length == 0
    requires c.responseChunked && c.handed == handed
    modifies c`responsePacket, c`remainingSize, c`responseChunked, c`responseHeaderReceived, c`state, c`held, c`handed
    ensures Settled(c, state, handed, NX_WEB_HTTP_GET_DONE, packet, old(c.held), []) && ViewOf(c) == Header(c.network)
  {
    ghost var ret := c.held;
    assert ret[0] == packet && Linked(ret) && Nodes(ret) !! handed;
    hide Linked, ChainBytes, Connected, Nodes;
    EndResponse(c, true);
  }

  /** A packet, and no other, is on its way to the caller. */
  ghost predicate Passing(c: Client, packet: Packet?, chain: seq<Packet>, part: seq<Byte>)
    reads c`responsePacket, c`held, c`handed, c`released, c`arrived, c`network, c`remainingSize, c.held, chain
  {
    && Connected(c, Nodes(chain)) && c.held == [] && c.responsePacket == null && c.remainingSize == 0
    && Returned(packet, chain) && ChainBytes(chain) == part
  }

  lemma PassingParts(c: Client, packet: Packet?, chain: seq<Packet>, part: seq<Byte>)
    requires Passing(c, packet, chain, part)
    ensures chain != [] && packet == chain[0] && Linked(chain) && packet.length == |part|
      && Delivered(packet, chain, part)
    ensures Nodes(chain) !! c.released + c.handed && Holds(c) && NetOk(c.network)
    ensures c.held == [] && c.responsePacket == null && c.remainingSize == 0
    ensures Partition(Nodes(c.held), {}, c.handed, c.released + Nodes(chain), c.arrived)
    ensures Partition(Nodes(c.held), {}, c.handed + Nodes(chain), c.released, c.arrived)
  {
    ReleaseTransit(Nodes(c.held), {}, Nodes(chain), c.handed, c.released, c.arrived);
  }

  /** The end of a call outside chunks: the bytes are counted and the packet goes to the caller, or back to the pool. */
  method FinishPart(c: Client, before: Status, packet: Packet, ghost chain: seq<Packet>, ghost left: int,
      ghost part: seq<Byte>)
    returns (status: Status)
    requires Passing(c, packet, chain, part) && left == c.totalReceiveBytes - c.actualBytesReceived
    requires before != NX_WEB_HTTP_GET_DONE
    requires before == NX_SUCCESS ==> c.responseHeaderReceived && !c.responseChunked
    modifies c`responseHeaderReceived, c`responseChunked, c`responsePacket, c`remainingSize, c`held, c`state
    modifies c`totalReceiveBytes, c`actualBytesReceived, c`network, c`arrived, c`handed, c`released
    ensures before != NX_SUCCESS ==> status == before && Quiet(c) && c.handed == old(c.handed)
    ensures before == NX_SUCCESS ==>
      && (status == NX_SUCCESS || status == NX_WEB_HTTP_GET_DONE)
      && GetsPart(left, part, c.network, status, part, ViewOf(c)) && status != NX_WEB_HTTP_ERROR
    ensures Settled(c, old(c.state), old(c.handed), status, packet, chain, part)
    ensures c.network == old(c.network)
    ensures status == NX_SUCCESS ==> c.held == []
  {
    PassingParts(c, packet, chain, part);
    hide Linked, ChainBytes, NetOk, Nodes, Partition, Holds;
    status := before;
    if before == NX_SUCCESS {
      c.actualBytesReceived := c.actualBytesReceived + packet.length;
      if c.totalReceiveBytes == c.actualBytesReceived {
        status := NX_WEB_HTTP_GET_DONE;
      }
      c.handed := c.handed + Nodes(chain);
    } else {
      Release(c, packet, chain);
    }
    if status != NX_SUCCESS {
      EndResponse(c, false);
    }
  }

  /** A call during a body of announced length. */
  method GetFixed(c: Client, ghost left: int, ghost net: seq<seq<seq<Byte>>>)
    returns (status: Status, packet: Packet?, ghost ret: seq<Packet>, ghost bytes: seq<Byte>)
    requires c.responseHeaderReceived && !c.responseChunked && Quiet(c)
    requires left == c.totalReceiveBytes - c.actualBytesReceived && net == c.network
    modifies c`responseHeaderReceived, c`responseChunked, c`responsePacket, c`remainingSize, c`held, c`state
    modifies c`totalReceiveBytes, c`actualBytesReceived, c`network, c`arrived, c`handed, c`released
    ensures GetsFixed(left, net, status, bytes, ViewOf(c)) && status != NX_WEB_HTTP_ERROR
    ensures Settled(c, old(c.state), old(c.handed), status, packet, ret, bytes)
    ensures Failed(status) ==> Quiet(c) && c.handed == old(c.handed)
    ensures status == NX_SUCCESS ==> c.held == []
  {
    hide Linked, ChainBytes, NetOk, Full, HoldsParts, Flatten;
    status, packet, ret := Receive(c);
    bytes := [];
    if status != NX_SUCCESS {
      c.responseHeaderReceived := false;
      c.state := STATE_READY;
      return;
    }
    bytes := Flatten(net[0]);
    var arrivedPacket := packet;
    if packet.length > (c.totalReceiveBytes - c.actualBytesReceived) % UINT_RANGE {
      status := NX_WEB_HTTP_BAD_PACKET_LENGTH;
      packet := null;
    }
    status := FinishPart(c, status, arrivedPacket, ret, left, bytes);
  }

  lemma {:induction false} OpenedAs(net: seq<seq<seq<Byte>>>, c: Client, packet: Packet, chain: seq<Packet>,
      all: seq<Byte>)
    requires NetOk(net) && Collected(c, chain, packet, all, NetBytes(net))
      && ScanFrom(all, 0) == ScanFrom(NetBytes(net), 0)
    requires net != [] && FirstOnly(c, chain, net[0], net[1..], true) && UpTo(net, c.network, all)
    ensures Opens(net, Opening(packet.Bytes(), all, c.network)) && packet.Valid()
    ensures c.remainingSize == 0 ==> Passing(c, packet, chain, all)
    ensures packet.length == |all| && Nodes(chain) != {} && Connected(c, Nodes(chain))
  {
    CollectedConnected(c, chain, packet, all, NetBytes(net));
    if ScanFrom(Flatten(net[0]), 0).Found? {
      PartsBytes(chain, net[0]);
    }
  }

  /** The rest of the first call, once the header is accepted. */
  method FinishFirst(c: Client, packet: Packet, offset: nat, length: nat, ghost chain: seq<Packet>,
      ghost o: Opening, ghost s: seq<Byte>)
    returns (status: Status, given: Packet?, ghost ret: seq<Packet>, ghost bytes: seq<Byte>)
    requires Collected(c, chain, packet, o.all, s) && Passing(c, packet, chain, o.all) && o.rest == c.network
    requires offset <= |packet.Bytes()|
    modifies c`responseHeaderReceived, c`responseChunked, c`responsePacket, c`remainingSize, c`held, c`state
    modifies c`totalReceiveBytes, c`actualBytesReceived, c`network, c`arrived, c`handed, c`released, Nodes(chain)
    ensures offset <= |o.all| && status != NX_WEB_HTTP_ERROR
    ensures var total := if old(c.state) == STATE_HEAD then 0 else length;
      GetsOpened(offset, total, old(c.responseChunked), o, status, bytes, ViewOf(c))
    ensures Settled(c, old(c.state), old(c.handed), status, given, ret, bytes)
    ensures !old(c.responseChunked) ==> !Failed(status)
    ensures status == NX_SUCCESS ==> forall p :: p in c.held ==> p in chain || fresh(p)
  {
    ghost var handed, state, rest := c.handed, c.state, c.network;
    ghost var total := if c.state == STATE_HEAD then 0 else length;
    PassingQuiet(c, packet, chain, o.all);
    hide *;
    OpenBody(c, packet, offset, length, chain, o.all, s);
    assert c.handed == handed && c.state == state && c.network == rest;
    ghost var part := o.all[offset..];
    ghost var chunked := c.responseChunked;
    status, given, ret, bytes := FinishOpened(c, packet, chain, part, total);
    OpenedIs(offset, total, chunked, o, status, bytes, ViewOf(c));
  }

  lemma PassingQuiet(c: Client, packet: Packet?, chain: seq<Packet>, part: seq<Byte>)
    requires Passing(c, packet, chain, part)
    ensures c.remainingSize == 0 && packet in Nodes(chain)
  {
  }

  lemma OpenedIs(offset: nat, total: nat, chunked: bool, o: Opening, status: Status, bytes: seq<Byte>, v: View)
    requires offset <= |o.all| && GetsBody(chunked, total, o.all[offset..], o.rest, status, bytes, v)
    ensures GetsOpened(offset, total, chunked, o, status, bytes, v)
  {
  }

  lemma BodyOpened(c: Client, packet: Packet, chain: seq<Packet>, part: seq<Byte>)
    requires BodyOpen(c, packet, chain, part) && c.responseHeaderReceived && c.actualBytesReceived == 0
    ensures if c.responseChunked then Session(c) && Pending(c) == part + NetBytes(c.network) && c.held == chain
      else Passing(c, packet, chain, part)
  {
    hide Ready, Pending, Passing, NetBytes;
  }

  /** The first part of an open body. */
  method FinishOpened(c: Client, packet: Packet, ghost chain: seq<Packet>, ghost part: seq<Byte>, ghost total: nat)
    returns (status: Status, given: Packet?, ghost ret: seq<Packet>, ghost bytes: seq<Byte>)
    requires BodyOpen(c, packet, chain, part) && c.responseHeaderReceived
    requires c.actualBytesReceived == 0 && c.totalReceiveBytes == total
    modifies c`responseHeaderReceived, c`responseChunked, c`responsePacket, c`remainingSize, c`held, c`state
    modifies c`totalReceiveBytes, c`actualBytesReceived, c`network, c`arrived, c`handed, c`released, Nodes(chain)
    ensures GetsBody(old(c.responseChunked), total, part, old(c.network), status, bytes, ViewOf(c))
    ensures Settled(c, old(c.state), old(c.handed), status, given, ret, bytes) && status != NX_WEB_HTTP_ERROR
    ensures !old(c.responseChunked) ==> !Failed(status)
    ensures status == NX_SUCCESS ==> forall p :: p in c.held ==> p in chain || fresh(p)
  {
    BodyOpened(c, packet, chain, part);
    assert Owed(c) == total;
    hide BodyOpen, GetsPart, GetsChunks, Session, Pending, NetBytes, Nodes, Settled, Passing, Owed;
    if c.responseChunked {
      status, given, ret, bytes := GetChunked(c, total, part + NetBytes(c.network), c.network);
    } else {
      given, ret, bytes := packet, chain, part;
      status := FinishPart(c, NX_SUCCESS, packet, chain, total, bytes);
    }
  }

  /** Receives a response up to the blank line; one whose first packet is too short for a status code is lost. */
  method ReceiveHeader(c: Client, ghost net: seq<seq<seq<Byte>>>)
    returns (status: Status, head: Packet?, ghost chain: seq<Packet>, ghost o: Opening, ghost lost: set<Packet>)
    requires Quiet(c) && net == c.network
    modifies c`network, c`arrived, c`released
    ensures ScanFrom(NetBytes(net), 0).Searching? ==> status == NX_NOT_CONNECTED && Quiet(c) && lost == {}
    ensures ScanFrom(NetBytes(net), 0).Found? ==>
      && Opens(net, o)
      && if |o.first| < 12 then status == NX_WEB_HTTP_ERROR && lost != {} && Connected(c, lost)
         else
           && status == NX_SUCCESS && lost == {}
           && head != null && head.Valid() && head.Bytes() == o.first && head.length == |o.all| && o.rest == c.network
           && Collected(c, chain, head, o.all, NetBytes(net)) && Passing(c, head, chain, o.all)
    ensures forall p :: p in chain ==> fresh(p)
  {
    assert NetOk(net);
    hide Collected, Connected, FirstOnly, ScanFrom, NetBytes, Opens, Passing, UpTo;
    ghost var all;
    status, head, chain, all := GetServerResponse(c, net);
    o, lost := Opening([], [], []), {};
    if status == NX_SUCCESS {
      OpenedAs(net, c, head, chain, all);
      o := Opening(head.Bytes(), all, c.network);
      if head.appendPtr - head.prependPtr < 12 {
        status := NX_WEB_HTTP_ERROR;
        lost := Nodes(chain);
      }
    }
  }

  /** How a first call ends whose header was found as `o` says, in a client that was in `state`. */
  ghost predicate FirstDone(c: Client, net: seq<seq<seq<Byte>>>, codes: map<seq<Byte>, nat>, o: Opening, state: nat,
      handed: set<Packet>, status: Status, packet: Packet?, ret: seq<Packet>, bytes: seq<Byte>)
    reads c`responseHeaderReceived, c`responseChunked, c`responsePacket, c`held, c`handed, c`released, c`arrived
    reads c`network, c`remainingSize, c`totalReceiveBytes, c`actualBytesReceived, c`state, c.held, ret
  {
    && GetsFirst(net, codes, state == STATE_HEAD, o, status, bytes, ViewOf(c)) && status != NX_WEB_HTTP_ERROR
    && Settled(c, state, handed, status, packet, ret, bytes)
    && (Failed(status) && !ChunkedBody(Header(net), codes, o) ==> Quiet(c) && c.handed == handed)
  }

  /** Gives a response back whose header is refused. */
  method RefuseHeader(c: Client, before: Status, head: Packet, codes: map<seq<Byte>, nat>, ghost chain: seq<Packet>,
      ghost o: Opening, ghost net: seq<seq<seq<Byte>>>)
    returns (status: Status)
    requires Passing(c, head, chain, o.all) && Opens(net, o) && ScanFrom(NetBytes(net), 0).Found?
    requires Judge(o.first, |o.all|, codes) == Refused(before) && Failed(before) && before != NX_WEB_HTTP_ERROR
    modifies c`responseHeaderReceived, c`responseChunked, c`responsePacket, c`remainingSize, c`held, c`state
    modifies c`totalReceiveBytes, c`actualBytesReceived, c`network, c`arrived, c`handed, c`released
    ensures FirstDone(c, net, codes, o, old(c.state), old(c.handed), status, null, [], []) && status == before
  {
    ghost var state, handed := c.state, c.handed;
    FailedIs(before);
    hide *;
    status := FinishPart(c, before, head, chain, c.totalReceiveBytes - c.actualBytesReceived, o.all);
    NoneGiven(c, state, handed, status, head, chain, o.all);
    FirstRefused(net, codes, state == STATE_HEAD, o, status, [], ViewOf(c));
    FirstIs(c, net, codes, o, state, handed, status, null, [], []);
  }

  lemma FirstIs(c: Client, net: seq<seq<seq<Byte>>>, codes: map<seq<Byte>, nat>, o: Opening, state: nat,
      handed: set<Packet>, status: Status, packet: Packet?, ret: seq<Packet>, bytes: seq<Byte>)
    requires GetsFirst(net, codes, state == STATE_HEAD, o, status, bytes, ViewOf(c)) && status != NX_WEB_HTTP_ERROR
    requires Settled(c, state, handed, status, packet, ret, bytes)
    requires Failed(status) && !ChunkedBody(Header(net), codes, o) ==> Quiet(c) && c.handed == handed
    ensures FirstDone(c, net, codes, o, state, handed, status, packet, ret, bytes)
  {
  }

  /** Opens a response whose header is accepted. */
  method AcceptHeader(c: Client, head: Packet, codes: map<seq<Byte>, nat>, offset: nat, length: nat,
      ghost chain: seq<Packet>, ghost o: Opening, ghost net: seq<seq<seq<Byte>>>)
    returns (status: Status, packet: Packet?, ghost ret: seq<Packet>, ghost bytes: seq<Byte>)
    requires Collected(c, chain, head, o.all, NetBytes(net)) && Passing(c, head, chain, o.all) && o.rest == c.network
    requires Opens(net, o) && ScanFrom(NetBytes(net), 0).Found? && offset <= |head.Bytes()|
    requires Judge(o.first, |o.all|, codes) == Accepted(offset, length, c.responseChunked)
    modifies c`responseHeaderReceived, c`responseChunked, c`responsePacket, c`remainingSize, c`held, c`state
    modifies c`totalReceiveBytes, c`actualBytesReceived, c`network, c`arrived, c`handed, c`released, Nodes(chain)
    ensures FirstDone(c, net, codes, o, old(c.state), old(c.handed), status, packet, ret, bytes)
    ensures status == NX_SUCCESS ==> forall p :: p in c.held ==> p in chain || fresh(p)
  {
    ghost var chunked, state, handed := c.responseChunked, c.state, c.handed;
    hide *;
    status, packet, ret, bytes := FinishFirst(c, head, offset, length, chain, o, NetBytes(net));
    FirstAccepted(net, codes, state == STATE_HEAD, o, offset, length, chunked, status, bytes, ViewOf(c));
    FirstIs(c, net, codes, o, state, handed, status, packet, ret, bytes);
  }

  lemma NoneGiven(c: Client, state: nat, handed: set<Packet>, status: Status, packet: Packet?, ret: seq<Packet>,
      bytes: seq<Byte>)
    requires Settled(c, state, handed, status, packet, ret, bytes) && Failed(status)
    ensures Settled(c, state, handed, status, null, [], [])
  {
  }

  lemma FailedIs(status: Status)
    ensures Failed(status) <==> status != NX_SUCCESS && status != NX_WEB_HTTP_GET_DONE
  {
  }

  lemma OverrunsIs(net: seq<seq<seq<Byte>>>, codes: map<seq<Byte>, nat>, o: Opening)
    requires Opens(net, o) && ScanFrom(NetBytes(net), 0).Found?
    ensures Overruns(net, codes, o) <==> Reads(o.first, codes) && Version(o.first) != 0 && ParseLines(o.first).Overrun?
  {
    hide Opens, NetBytes, ParseLines, Version, ScanFrom, Reads;
  }

  lemma FirstRefused(net: seq<seq<seq<Byte>>>, codes: map<seq<Byte>, nat>, head: bool, o: Opening, status: Status,
      bytes: seq<Byte>, v: View)
    requires Opens(net, o) && ScanFrom(NetBytes(net), 0).Found? && Judge(o.first, |o.all|, codes) == Refused(status)
    ensures GetsFirst(net, codes, head, o, status, bytes, v)
  {
    hide Opens, NetBytes, Judge, ScanFrom;
  }

  lemma FirstAccepted(net: seq<seq<seq<Byte>>>, codes: map<seq<Byte>, nat>, head: bool, o: Opening, offset: nat,
      length: nat, chunked: bool, status: Status, bytes: seq<Byte>, v: View)
    requires Opens(net, o) && ScanFrom(NetBytes(net), 0).Found?
    requires Judge(o.first, |o.all|, codes) == Accepted(offset, length, chunked) && offset <= |o.all|
    requires GetsOpened(offset, if head then 0 else length, chunked, o, status, bytes, v)
    ensures GetsFirst(net, codes, head, o, status, bytes, v)
    ensures ChunkedBody(Header(net), codes, o) <==> chunked
  {
    hide Opens, NetBytes, Judge, ScanFrom, GetsOpened;
  }

  /** How a first call ends. */
  ghost predicate FirstCall(c: Client, net: seq<seq<seq<Byte>>>, codes: map<seq<Byte>, nat>, o: Opening, state: nat,
      handed: set<Packet>, was: Notes, status: Status, packet: Packet?, overrun: bool, ret: seq<Packet>,
      bytes: seq<Byte>, lost: set<Packet>)
    reads c`responseHeaderReceived, c`responseChunked, c`responsePacket, c`held, c`handed, c`released, c`arrived
    reads c`network, c`remainingSize, c`totalReceiveBytes, c`actualBytesReceived, c`state, c.held, ret
    reads c`keepAlive, c`reported, c`responseCallback
  {
    && (overrun <==> Overruns(net, codes, o)) && NotesOf(c) == Noted(was, Header(net), codes, o)
    && (!overrun ==>
          && GetsFirst(net, codes, state == STATE_HEAD, o, status, bytes, ViewOf(c))
          && Settled(c, state, handed, status, packet, ret, bytes)
          && (status == NX_WEB_HTTP_ERROR ==> lost != {} && Connected(c, lost))
          && (Failed(status) && status != NX_WEB_HTTP_ERROR && !ChunkedBody(Header(net), codes, o) ==>
                Quiet(c) && c.handed == handed))
  }

  /** A call that finds no header, or one whose first packet is too short. */
  lemma NotOpened(c: Client, net: seq<seq<seq<Byte>>>, codes: map<seq<Byte>, nat>, state: nat, handed: set<Packet>,
      was: Notes, o: Opening, status: Status, lost: set<Packet>)
    requires ScanFrom(NetBytes(net), 0).Searching? ==> status == NX_NOT_CONNECTED && Quiet(c)
    requires ScanFrom(NetBytes(net), 0).Found? ==>
      Opens(net, o) && |o.first| < 12 && status == NX_WEB_HTTP_ERROR && lost != {} && Connected(c, lost)
    requires !c.responseHeaderReceived && c.state == STATE_READY && c.handed == handed
    requires NotesOf(c) == was
    ensures FirstCall(c, net, codes, o, state, handed, was, status, null, false, [], [], lost)
  {
    hide Quiet, Connected, NetBytes, Opens, ContentLength, ParseLines, Version, Chunked, ScanFrom;
  }

  /** A call that finds a header. */
  lemma Judged(c: Client, net: seq<seq<seq<Byte>>>, codes: map<seq<Byte>, nat>, o: Opening, state: nat,
      handed: set<Packet>, was: Notes, status: Status, packet: Packet?, overrun: bool, ret: seq<Packet>,
      bytes: seq<Byte>)
    requires ScanFrom(NetBytes(net), 0).Found? && NotesOf(c) == NotesBehind(was, o.first, codes)
    requires overrun <==> Overruns(net, codes, o)
    requires overrun || FirstDone(c, net, codes, o, state, handed, status, packet, ret, bytes)
    ensures FirstCall(c, net, codes, o, state, handed, was, status, packet, overrun, ret, bytes, {})
  {
    hide Quiet, Connected, NetBytes, ScanFrom, NotesBehind, NotesOf, Settled, GetsFirst, Overruns, ViewOf;
  }

  /** Opens a response, or gives it back, as its header was judged. */
  method OpenJudged(c: Client, before: Status, head: Packet, codes: map<seq<Byte>, nat>, offset: nat, length: nat,
      ghost chain: seq<Packet>, ghost o: Opening, ghost net: seq<seq<seq<Byte>>>)
    returns (status: Status, packet: Packet?, ghost ret: seq<Packet>, ghost bytes: seq<Byte>)
    requires Collected(c, chain, head, o.all, NetBytes(net)) && Passing(c, head, chain, o.all) && o.rest == c.network
    requires head.Valid() && head.Bytes() == o.first && Opens(net, o) && ScanFrom(NetBytes(net), 0).Found?
    requires |o.first| >= 12
    requires match Judge(o.first, |o.all|, codes)
      case Refused(st) => before == st
      case Accepted(n, l, ch) => before == NX_SUCCESS && offset == n && length == l && c.responseChunked == ch
    modifies c`responseHeaderReceived, c`responseChunked, c`responsePacket, c`remainingSize, c`held, c`state
    modifies c`totalReceiveBytes, c`actualBytesReceived, c`network, c`arrived, c`handed, c`released, Nodes(chain)
    ensures status == NX_SUCCESS ==> forall p :: p in c.held ==> p in chain || fresh(p)
    ensures NotesOf(c) == old(NotesOf(c))
    ensures FirstDone(c, net, codes, o, old(c.state), old(c.handed), status, packet, ret, bytes)
  {
    packet, ret, bytes := null, [], [];
    hide *;
    Refusals(o.first, |o.all|, codes);
    AcceptedInside(o.first, |o.all|, codes);
    FailedIs(before);
    if before != NX_SUCCESS {
      status := RefuseHeader(c, before, head, codes, chain, o, net);
    } else {
      status, packet, ret, bytes := AcceptHeader(c, head, codes, offset, length, chain, o, net);
    }
  }

  /** A response of which everything up to the blank line is on its way: its header is read, and it is opened. */
  method GetJudged(c: Client, codes: map<seq<Byte>, nat>, head: Packet, ghost chain: seq<Packet>, ghost o: Opening,
      ghost net: seq<seq<seq<Byte>>>)
    returns (status: Status, packet: Packet?, overrun: bool, ghost ret: seq<Packet>, ghost bytes: seq<Byte>)
    requires head.Valid() && head.Bytes() == o.first && head.length == |o.all| && |o.first| >= 12
    requires Collected(c, chain, head, o.all, NetBytes(net)) && Passing(c, head, chain, o.all) && o.rest == c.network
    requires Opens(net, o) && ScanFrom(NetBytes(net), 0).Found?
    modifies c, Nodes(chain)
    ensures !overrun && status == NX_SUCCESS ==> forall p :: p in c.held ==> p in chain || fresh(p)
    ensures FirstCall(c, net, codes, o, old(c.state), old(c.handed), old(NotesOf(c)), status, packet, overrun, ret,
        bytes, {})
  {
    ghost var state, handed, was := c.state, c.handed, NotesOf(c);
    packet, ret, bytes := null, [], [];
    hide *;
    OverrunsIs(net, codes, o);
    var offset, length;
    status, overrun, offset, length := JudgeHeader(c, head, codes, o.first);
    if !overrun {
      status, packet, ret, bytes := OpenJudged(c, status, head, codes, offset, length, chain, o, net);
    }
    Judged(c, net, codes, o, state, handed, was, status, packet, overrun, ret, bytes);
  }

  /** A first call that finds no header, or one whose first packet is too short, is over. */
  method FailFirst(c: Client, status: Status, codes: map<seq<Byte>, nat>, ghost o: Opening,
      ghost net: seq<seq<seq<Byte>>>, ghost lost: set<Packet>)
    requires ScanFrom(NetBytes(net), 0).Searching? ==> status == NX_NOT_CONNECTED && Quiet(c)
    requires ScanFrom(NetBytes(net), 0).Found? ==>
      Opens(net, o) && |o.first| < 12 && status == NX_WEB_HTTP_ERROR && lost != {} && Connected(c, lost)
    requires !c.responseHeaderReceived
    modifies c`state
    ensures FirstCall(c, net, codes, o, old(c.state), c.handed, NotesOf(c), status, null, false, [], [], lost)
  {
    ghost var state := c.state;
    hide *;
    c.state := STATE_READY;
    NotOpened(c, net, codes, state, c.handed, NotesOf(c), o, status, lost);
  }

  /**
   The first call of a response: it is received up to the blank line, its header is read, and its first bytes are
   handed out. `overrun`: a line of the header has no colon, and the field reader leaves the packet. `lost` are the
   packets that neither the client nor the caller nor the pool has afterwards.
   */
  method GetFirst(c: Client, codes: map<seq<Byte>, nat>, ghost net: seq<seq<seq<Byte>>>)
    returns (status: Status, packet: Packet?, overrun: bool, ghost o: Opening, ghost ret: seq<Packet>,
      ghost bytes: seq<Byte>, ghost lost: set<Packet>)
    requires !c.responseHeaderReceived && Quiet(c) && net == c.network
    modifies c
    ensures !overrun && status == NX_SUCCESS ==> forall p :: p in c.held ==> fresh(p)
    ensures FirstCall(c, net, codes, o, old(c.state), old(c.handed), old(NotesOf(c)), status, packet, overrun, ret,
        bytes, lost)
  {
    ghost var chain;
    var head: Packet?;
    packet, overrun, ret, bytes := null, false, [], [];
    hide *;
    status, head, chain, o, lost := ReceiveHeader(c, net);
    if status == NX_SUCCESS {
      NodesAre(chain);
      status, packet, overrun, ret, bytes := GetJudged(c, codes, head, chain, o, net);
    } else {
      FailFirst(c, status, codes, o, net, lost);
    }
  }

  /** A request is on its way, and its response is to be got. */
  predicate InRequest(state: nat) {
    STATE_GET <= state <= STATE_DELETE
  }

  /** A call while a request is on its way. */
  method GetPart(c: Client, codes: map<seq<Byte>, nat>, ghost v: View)
    returns (status: Status, packet: Packet?, overrun: bool, ghost o: Opening, ghost ret: seq<Packet>,
      ghost bytes: seq<Byte>, ghost lost: set<Packet>)
    requires Session(c) && v == ViewOf(c) && InRequest(c.state)
    modifies c, Nodes(c.held)
    ensures overrun <==> v.Header? && Overruns(v.net, codes, o)
    ensures NotesOf(c) == Noted(old(NotesOf(c)), v, codes, o)
    ensures !overrun ==>
      && Gets(v, codes, old(c.state) == STATE_HEAD, o, status, bytes, ViewOf(c))
      && Settled(c, old(c.state), old(c.handed), status, packet, ret, bytes)
      && (status == NX_WEB_HTTP_ERROR ==> lost != {} && Connected(c, lost))
      && (Failed(status) && status != NX_WEB_HTTP_ERROR && !ChunkedBody(v, codes, o) ==>
            Quiet(c) && c.handed == old(c.handed))
    ensures !overrun && status == NX_SUCCESS ==> forall p :: p in c.held ==> p in old(c.held) || fresh(p)
  {
    hide Quiet, Settled, GetsFirst, GetsChunks, GetsFixed, Owed, Pending, Connected, Ready, Nodes, NotesBehind;
    hide Overruns;
    packet, overrun, o, ret, bytes, lost := null, false, Opening([], [], []), [], [], {};
    if !c.responseHeaderReceived {
      status, packet, overrun, o, ret, bytes, lost := GetFirst(c, codes, c.network);
    } else if c.responseChunked {
      status, packet, ret, bytes := GetChunked(c, Owed(c), Pending(c), c.network);
    } else {
      status, packet, ret, bytes := GetFixed(c, c.totalReceiveBytes - c.actualBytesReceived, c.network);
    }
  }

  /**
   Gets the next packet of a response. What a call returns and leaves is `Gets`. Unless it returns a packet and
   more are to come, it leaves the client ready for another request. A failure breaks the connection off, and so does
   the end of a response that does not keep it.
   */
  method ResponseBodyGet(c: Client, codes: map<seq<Byte>, nat>, ghost v: View)
    returns (status: Status, packet: Packet?, overrun: bool, ghost o: Opening, ghost ret: seq<Packet>,
      ghost bytes: seq<Byte>, ghost lost: set<Packet>)
    requires Session(c) && v == ViewOf(c)
    modifies c, Nodes(c.held)
    ensures !InRequest(old(c.state)) ==>
      status == NX_WEB_HTTP_ERROR && !overrun && c.state == old(c.state) && Session(c) && ViewOf(c) == v
        && c.connected == old(c.connected)
    ensures InRequest(old(c.state)) && !overrun ==>
      && Gets(v, codes, old(c.state) == STATE_HEAD, o, status, bytes, ViewOf(c))
      && Settled(c, old(c.state), old(c.handed), status, packet, ret, bytes)
      && (status == NX_WEB_HTTP_ERROR ==> lost != {} && Connected(c, lost))
      && (Failed(status) && status != NX_WEB_HTTP_ERROR && !ChunkedBody(v, codes, o) ==>
            Quiet(c) && c.handed == old(c.handed))
    ensures InRequest(old(c.state)) && !overrun ==>
      c.connected == (old(c.connected) && (status == NX_SUCCESS || (status == NX_WEB_HTTP_GET_DONE && c.keepAlive)))
    ensures InRequest(old(c.state)) ==>
      && (overrun <==> v.Header? && Overruns(v.net, codes, o))
      && NotesOf(c) == Noted(old(NotesOf(c)), v, codes, o)
    ensures !InRequest(old(c.state)) ==> NotesOf(c) == old(NotesOf(c))
    ensures !overrun && status == NX_SUCCESS ==> forall p :: p in c.held ==> p in old(c.held) || fresh(p)
  {
    hide *;
    InRequestIs(c.state);
    packet, overrun, o, ret, bytes, lost := null, false, Opening([], [], []), [], [], {};
    if c.state < STATE_GET || c.state > STATE_DELETE {
      status := NX_WEB_HTTP_ERROR;
      return;
    }
    var connected := c.connected;
    status, packet, overrun, o, ret, bytes, lost := GetPart(c, codes, v);
    c.connected := connected && (status == NX_SUCCESS || (status == NX_WEB_HTTP_GET_DONE && c.keepAlive));
  }

  lemma InRequestIs(state: nat)
    ensures InRequest(state) <==> STATE_GET <= state <= STATE_DELETE
  {
  }
}
