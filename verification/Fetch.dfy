/** Fetching a whole response into the download client's buffer, and what it holds afterwards. */
module Fetch {
  import opened Bytes
  import opened Packets
  import opened HttpClient
  import opened HeaderScan
  import opened ChunkCoding
  import opened ChunkedResponse
  import opened ResponseBody

  // ---------------------------------------------------------------- what a fetch comes to

  /** The status of a fetch, and all bytes it was given. */
  datatype Fetched = Fetched(status: Status, content: seq<Byte>)

  function Behind(b: seq<Byte>, f: Fetched): Fetched {
    Fetched(f.status, b + f.content)
  }

  /** A chunked body: what the decoder makes of the bytes, however they arrive. */
  function FetchChunks(owed: nat, s: seq<Byte>): Fetched {
    match Decode(owed, s)
    case Done(content, _) => Fetched(NX_SUCCESS, content)
    case Malformed => Fetched(NX_NOT_FOUND, [])
    case Truncated => Fetched(NX_NOT_CONNECTED, [])
  }

  /** A body of announced length, in parts: complete when the counts meet. An empty part before that ends it, too. */
  function FetchPart(left: int, part: seq<Byte>, net: seq<seq<seq<Byte>>>): Fetched
    decreases |net|, 1
  {
    if left == |part| then Fetched(NX_SUCCESS, part)
    else if part == [] then Fetched(NX_SUCCESS, [])
    else Behind(part, FetchFixed(left - |part|, net))
  }

  function FetchFixed(left: int, net: seq<seq<seq<Byte>>>): Fetched
    decreases |net|, 0
  {
    if net == [] then Fetched(NX_NOT_CONNECTED, [])
    else if |Flatten(net[0])| > left % UINT_RANGE then Fetched(NX_WEB_HTTP_BAD_PACKET_LENGTH, [])
    else FetchPart(left, Flatten(net[0]), net[1..])
  }

  function FetchFirst(net: seq<seq<seq<Byte>>>, codes: map<seq<Byte>, nat>, head: bool, o: Opening): Fetched {
    if ScanFrom(NetBytes(net), 0).Searching? then Fetched(NX_NOT_CONNECTED, [])
    else match Judge(o.first, |o.all|, codes)
      case Refused(st) => Fetched(st, [])
      case Accepted(offset, length, chunked) =>
        var total := if head then 0 else length;
        AcceptedInside(o.first, |o.all|, codes);
        if chunked then FetchChunks(total, o.all[offset..] + NetBytes(o.rest))
        else FetchPart(total, o.all[offset..], o.rest)
  }

  function FetchAll(v: View, codes: map<seq<Byte>, nat>, head: bool, o: Opening): Fetched {
    match v
    case Header(net) => FetchFirst(net, codes, head, o)
    case Chunks(owed, s, _) => FetchChunks(owed, s)
    case Fixed(left, net) => FetchFixed(left, net)
  }

  // ---------------------------------------------------------------- a request

  /** What is to be got once a request is sent: what was left, and behind it the reply. */
  function Await(v: View, reply: seq<seq<seq<Byte>>>): View {
    match v
    case Header(net) => Header(net + reply)
    case Chunks(owed, s, net) => Chunks(owed, s + NetBytes(reply), net + reply)
    case Fixed(left, net) => Fixed(left, net + reply)
  }

  /** What is left, apart from what the network still has. */
  datatype Kind = NoHeader | InChunks(owed: nat, held: seq<Byte>) | InBody(left: int)

  ghost function KindOf(c: Client): Kind
    reads c`responseHeaderReceived, c`responseChunked, c`held, c`remainingSize
    reads c`totalReceiveBytes, c`actualBytesReceived, c.held
  {
    if !c.responseHeaderReceived then NoHeader
    else if c.responseChunked then InChunks(Owed(c), if c.remainingSize > 0 then ChainBytes(c.held) else [])
    else InBody(c.totalReceiveBytes - c.actualBytesReceived)
  }

  function ViewBehind(k: Kind, net: seq<seq<seq<Byte>>>): View {
    match k
    case NoHeader => Header(net)
    case InChunks(owed, held) => Chunks(owed, held + NetBytes(net), net)
    case InBody(left) => Fixed(left, net)
  }

  lemma AwaitBehind(k: Kind, net: seq<seq<seq<Byte>>>, reply: seq<seq<seq<Byte>>>)
    ensures ViewBehind(k, net + reply) == Await(ViewBehind(k, net), reply)
  {
    NetBytesJoin(net, reply);
    if k.InChunks? {
      Assoc(k.held, NetBytes(net), NetBytes(reply));
    }
  }

  /** The packets are in order, whatever the network still has. */
  ghost predicate PacketsOk(c: Client)
    reads c`responseHeaderReceived, c`responseChunked, c`responsePacket, c`held, c`handed, c`released, c`arrived
    reads c`remainingSize, c`totalReceiveBytes, c`actualBytesReceived, c.held
  {
    && Holds(c) && Owned(c, {})
    && if c.responseHeaderReceived && c.responseChunked then
         && c.actualBytesReceived <= c.totalReceiveBytes
         && (c.remainingSize > 0 ==> c.held != [] && Full(c.held[1..]) && |ChainBytes(c.held)| == c.remainingSize)
       else c.held == [] && c.responsePacket == null && c.remainingSize == 0
  }

  lemma SessionParts(c: Client)
    ensures Session(c) <==> PacketsOk(c) && NetOk(c.network)
    ensures ViewOf(c) == ViewBehind(KindOf(c), c.network)
  {
    hide Holds, Owned, NetOk, Full, ChainBytes, NetBytes, Owed;
  }

  lemma NetOkJoin(net: seq<seq<seq<Byte>>>, more: seq<seq<seq<Byte>>>)
    ensures NetOk(net) && NetOk(more) ==> NetOk(net + more)
  {
  }

  /**
   Sends a request, to which the server replies with `reply`; `ok`: the connection takes it. A broken connection takes
   nothing. Neither the header flag nor the counters are touched: what is left of an earlier response stays in front.
   */
  method RequestSend(c: Client, state: nat, reply: seq<seq<seq<Byte>>>, ok: bool) returns (status: Status)
    requires (c.connected ==> Session(c)) && NetOk(reply) && InRequest(state)
    modifies c`state, c`network, c`connected
    ensures status == if old(c.connected) && ok then NX_SUCCESS else NX_NOT_CONNECTED
    ensures c.connected == (status == NX_SUCCESS)
    ensures status == NX_SUCCESS ==> Session(c) && c.state == state && ViewOf(c) == Await(old(ViewOf(c)), reply)
    ensures status != NX_SUCCESS ==> c.state == old(c.state) && ViewOf(c) == old(ViewOf(c))
  {
    ghost var net, kind := c.network, KindOf(c);
    hide *;
    SessionParts(c);
    NetOkJoin(net, reply);
    AwaitBehind(kind, net, reply);
    if !c.connected || !ok {
      c.connected := false;
      return NX_NOT_CONNECTED;
    }
    c.state, c.network := state, c.network + reply;
    SessionParts(c);
    status := NX_SUCCESS;
  }

  // ---------------------------------------------------------------- what a fetch leaves

  function RemainsPart(left: int, part: seq<Byte>, net: seq<seq<seq<Byte>>>): View
    decreases |net|, 1
  {
    if left == |part| then Header(net)
    else if part == [] then Fixed(left, net)
    else RemainsFixed(left - |part|, net)
  }

  /** A body of announced length that ends early stays open; the header flag and the counters are as they were. */
  function RemainsFixed(left: int, net: seq<seq<seq<Byte>>>): View
    decreases |net|, 0
  {
    if net == [] || |Flatten(net[0])| > left % UINT_RANGE then Header([])
    else RemainsPart(left, Flatten(net[0]), net[1..])
  }

  /** Behind a chunked body what the network still has, without the chain in which the body ends. */
  function RemainsChunks(owed: nat, s: seq<Byte>, net: seq<seq<seq<Byte>>>): View {
    match Decode(owed, s)
    case Done(_, rest) => Header(Untaken(net, |rest|))
    case _ => Header([])
  }

  function RemainsFirst(net: seq<seq<seq<Byte>>>, codes: map<seq<Byte>, nat>, head: bool, o: Opening): View {
    match Judge(o.first, |o.all|, codes)
    case Refused(st) => Header([])
    case Accepted(offset, length, chunked) =>
      var total := if head then 0 else length;
      AcceptedInside(o.first, |o.all|, codes);
      if chunked then RemainsChunks(total, o.all[offset..] + NetBytes(o.rest), o.rest)
      else RemainsPart(total, o.all[offset..], o.rest)
  }

  /** What a fetch leaves that succeeds. */
  function Remains(v: View, codes: map<seq<Byte>, nat>, head: bool, o: Opening): View {
    match v
    case Header(net) => RemainsFirst(net, codes, head, o)
    case Chunks(owed, s, net) => RemainsChunks(owed, s, net)
    case Fixed(left, net) => RemainsFixed(left, net)
  }

  lemma ChunksRemain(owed: nat, s: seq<Byte>, net: seq<seq<seq<Byte>>>, status: Status, bytes: seq<Byte>, v: View)
    requires GetsChunks(owed, s, net, status, bytes, v)
    ensures status == NX_SUCCESS ==>
      bytes != [] && v.Chunks? && RemainsChunks(owed, s, net) == RemainsChunks(v.owed, v.s, v.net)
    ensures status == NX_WEB_HTTP_GET_DONE ==> v == RemainsChunks(owed, s, net)
  {
    if status == NX_SUCCESS {
      DeliveryDecodes(owed, s, bytes, v.owed, v.s);
      var d := Decode(v.owed, v.s);
      if d.Done? {
        DecodeConsumes(v.owed, v.s);
        UntakenAgain(net, |v.s|, |d.rest|);
      }
    }
    hide Decode, Untaken;
  }

  lemma {:induction false} DecodeConsumes(owed: nat, s: seq<Byte>)
    ensures Decode(owed, s).Done? ==> |Decode(owed, s).rest| <= |s|
    decreases |s|, if owed == 0 then 1 else 0
  {
    if owed == 0 {
      var line := SizeLine(s, 0, false);
      SizeLineConsumes(s, 0, false);
      hide SizeLine;
      if line.Line? && line.size > 0 {
        DecodeConsumes(line.size, line.rest);
      }
    } else if EndOfChunk(s, owed) == Ended {
      DecodeConsumes(0, s[owed + 2..]);
    }
  }

  lemma {:induction false} PartRemains(left: int, part: seq<Byte>, net: seq<seq<seq<Byte>>>, status: Status,
      bytes: seq<Byte>, v: View)
    requires GetsPart(left, part, net, status, bytes, v)
    ensures status == NX_SUCCESS ==> v.Fixed?
    ensures status == NX_SUCCESS && bytes != [] ==>
      RemainsPart(left, part, net) == RemainsFixed(v.left, v.net)
    ensures status == NX_WEB_HTTP_GET_DONE || bytes == [] ==> v == RemainsPart(left, part, net)
  {
  }

  lemma FirstRemains(net: seq<seq<seq<Byte>>>, codes: map<seq<Byte>, nat>, head: bool, o: Opening, status: Status,
      bytes: seq<Byte>, v': View)
    requires GetsFirst(net, codes, head, o, status, bytes, v')
    requires status == NX_SUCCESS || status == NX_WEB_HTTP_GET_DONE
    ensures status == NX_SUCCESS && bytes != [] ==>
      !v'.Header? && Remains(v', codes, head, o) == RemainsFirst(net, codes, head, o)
    ensures status == NX_WEB_HTTP_GET_DONE || bytes == [] ==> v' == RemainsFirst(net, codes, head, o)
    ensures status == NX_SUCCESS && bytes == [] ==> v'.Fixed?
  {
    hide Judge, GetsPart, GetsChunks, RemainsPart, RemainsChunks, NetBytes, ScanFrom, Opens, RemainsFixed;
    Refusals(o.first, |o.all|, codes);
    match Judge(o.first, |o.all|, codes)
    case Refused(_) =>
    case Accepted(offset, length, chunked) =>
      var total := if head then 0 else length;
      if chunked {
        ChunksRemain(total, o.all[offset..] + NetBytes(o.rest), o.rest, status, bytes, v');
      } else {
        PartRemains(total, o.all[offset..], o.rest, status, bytes, v');
      }
  }

  /** A call that goes on leaves the same in the end, and the last one leaves it. */
  lemma CallRemains(v: View, codes: map<seq<Byte>, nat>, head: bool, o: Opening, status: Status,
      bytes: seq<Byte>, v': View)
    requires Gets(v, codes, head, o, status, bytes, v')
    requires status == NX_SUCCESS || status == NX_WEB_HTTP_GET_DONE
    ensures status == NX_SUCCESS && bytes != [] ==>
      !v'.Header? && Remains(v', codes, head, o) == Remains(v, codes, head, o)
    ensures status == NX_WEB_HTTP_GET_DONE || bytes == [] ==> v' == Remains(v, codes, head, o)
    ensures status == NX_SUCCESS && bytes == [] ==> v'.Fixed?
  {
    hide GetsFirst, GetsPart, GetsChunks, RemainsPart, RemainsChunks, RemainsFirst, NetBytes, Flatten;
    match v
    case Header(net) => FirstRemains(net, codes, head, o, status, bytes, v');
    case Chunks(owed, s, net) => ChunksRemain(owed, s, net, status, bytes, v');
    case Fixed(left, net) =>
      if net != [] && |Flatten(net[0])| <= left % UINT_RANGE {
        PartRemains(left, Flatten(net[0]), net[1..], status, bytes, v');
      }
  }

  /** Only the first call looks at how the header is found. */
  lemma SameRemains(v: View, now: View, codes: map<seq<Byte>, nat>, head: bool, o: Opening, o': Opening, begun: bool)
    requires if begun then !now.Header? && Remains(now, codes, head, o) == Remains(v, codes, head, o) else now == v
    ensures Remains(now, codes, head, o') == Remains(v, codes, head, if begun then o else o')
    ensures forall w: View :: !w.Header? ==> Remains(w, codes, head, o) == Remains(w, codes, head, o')
  {
  }

  // ---------------------------------------------------------------- one call of a fetch

  /**
   How one call contributes to a fetch; `f'` is what the calls after it come to. Outside chunked bodies the bytes count
   even if a later call fails.
   */
  predicate Contributes(f: Fetched, status: Status, bytes: seq<Byte>, f': Fetched, chunked: bool) {
    match status
    case NX_SUCCESS =>
      if bytes == [] then f == Fetched(NX_SUCCESS, [])
      else f.status == f'.status && (f.status == NX_SUCCESS || !chunked ==> f.content == bytes + f'.content)
    case NX_WEB_HTTP_GET_DONE => f == Fetched(NX_SUCCESS, bytes)
    case _ => f.status == status && (!chunked ==> f.content == [])
  }

  /** Something is left of a body, and less than of `v`. */
  predicate Shrinks(v: View, v': View) {
    match v'
    case Header(_) => false
    case Chunks(_, s', _) => v.Header? || (v.Chunks? && |s'| < |v.s|)
    case Fixed(_, net') => v.Header? || (v.Fixed? && |net'| < |v.net|)
  }

  lemma ChunksContribute(owed: nat, s: seq<Byte>, net: seq<seq<seq<Byte>>>, status: Status, bytes: seq<Byte>, v: View)
    requires GetsChunks(owed, s, net, status, bytes, v)
    ensures status == NX_SUCCESS ==> v.Chunks? && |v.s| < |s|
    ensures var f' := if v.Chunks? then FetchChunks(v.owed, v.s) else FetchChunks(0, []);
      Contributes(FetchChunks(owed, s), status, bytes, f', true)
  {
    if status == NX_SUCCESS {
      DeliveryDecodes(owed, s, bytes, v.owed, v.s);
    }
  }

  lemma {:induction false} PartContributes(left: int, part: seq<Byte>, net: seq<seq<seq<Byte>>>, status: Status,
      bytes: seq<Byte>, v: View)
    requires GetsPart(left, part, net, status, bytes, v)
    ensures status == NX_SUCCESS ==> v == Fixed(left - |part|, net)
    ensures var f' := if v.Fixed? then FetchFixed(v.left, v.net) else FetchFixed(0, []);
      Contributes(FetchPart(left, part, net), status, bytes, f', false)
  {
  }

  /** The first call contributes. */
  lemma FirstContributes(net: seq<seq<seq<Byte>>>, codes: map<seq<Byte>, nat>, head: bool, o: Opening, status: Status,
      bytes: seq<Byte>, v': View)
    requires GetsFirst(net, codes, head, o, status, bytes, v')
    ensures status == NX_SUCCESS ==> !v'.Header?
    ensures var chunked := ChunkedBody(Header(net), codes, o);
      Contributes(FetchFirst(net, codes, head, o), status, bytes, FetchAll(v', codes, head, o), chunked)
  {
    hide Delivers, Decode, Judge, GetsPart, GetsChunks, FetchPart, FetchChunks, NetBytes, ScanFrom, Opens;
    if ScanFrom(NetBytes(net), 0).Found? {
      Refusals(o.first, |o.all|, codes);
      match Judge(o.first, |o.all|, codes)
      case Refused(_) =>
      case Accepted(offset, length, chunked) =>
        var total := if head then 0 else length;
        if chunked {
          ChunksContribute(total, o.all[offset..] + NetBytes(o.rest), o.rest, status, bytes, v');
        } else {
          PartContributes(total, o.all[offset..], o.rest, status, bytes, v');
        }
    }
  }

  /** Every call contributes its bytes to what the whole fetch comes to. */
  lemma CallContributes(v: View, codes: map<seq<Byte>, nat>, head: bool, o: Opening, status: Status,
      bytes: seq<Byte>, v': View)
    requires Gets(v, codes, head, o, status, bytes, v')
    ensures status == NX_SUCCESS ==> Shrinks(v, v')
    ensures var chunked := ChunkedBody(v, codes, o);
      Contributes(FetchAll(v, codes, head, o), status, bytes, FetchAll(v', codes, head, o), chunked)
  {
    hide GetsFirst, FetchFirst, GetsPart, GetsChunks, FetchPart, FetchChunks, NetBytes, ScanFrom;
    match v
    case Header(net) => FirstContributes(net, codes, head, o, status, bytes, v');
    case Chunks(owed, s, net) => ChunksContribute(owed, s, net, status, bytes, v');
    case Fixed(left, net) =>
      if net != [] && |Flatten(net[0])| <= left % UINT_RANGE {
        PartContributes(left, Flatten(net[0]), net[1..], status, bytes, v');
      }
  }

  // ---------------------------------------------------------------- the fetch

  function Min(a: nat, b: nat): nat {
    if a <= b then a else b
  }

  /** The first `n` bytes of the buffer are those of a text, which may be too long for it. */
  predicate Holding(buffer: seq<Byte>, n: nat, text: seq<Byte>) {
    n == Min(|text|, |buffer|) && buffer[..n] == text[..n]
  }

  /** What is behind the first `n` bytes of the buffer is what was there before. */
  predicate Untouched(now: seq<Byte>, was: seq<Byte>, n: nat) {
    |now| == |was| && n <= |now| && now[n..] == was[n..]
  }

  lemma UntouchedYet(s: seq<Byte>, n: nat)
    requires n <= |s|
    ensures Untouched(s, s, n)
  {
  }

  lemma UntouchedOn(a: seq<Byte>, b: seq<Byte>, c: seq<Byte>, m: nat, n: nat)
    requires Untouched(b, a, m) && Untouched(c, b, n) && m <= n
    ensures Untouched(c, a, n)
  {
    assert c[n..] == b[n..] == b[m..][n - m..] == a[m..][n - m..] == a[n..];
  }

  lemma HoldingFits(buffer: seq<Byte>, n: nat, text: seq<Byte>)
    requires Holding(buffer, n, text)
    ensures n <= |buffer|
  {
  }

  lemma HoldingMore(was: seq<Byte>, now: seq<Byte>, n: nat, n': nat, text: seq<Byte>, b: seq<Byte>)
    requires Holding(was, n, text) && |now| == |was| && n <= n' <= |now| && n' == n + Min(|b|, |now| - n)
    requires now[..n] == was[..n] && now[n..n'] == b[..n' - n]
    ensures Holding(now, n', text + b)
  {
    assert now[..n'] == now[..n] + now[n..n'];
    if n < |now| {
      TakeInto(text, b, n' - n);
    } else {
      TakeFront(text, b, n);
    }
  }

  /** Copies bytes of one packet's window behind the text in a buffer, as many as there is room for. */
  method CopyWindow(packet: Packet, buffer: array<Byte>, at: nat, ghost text: seq<Byte>,
      ghost b: seq<Byte>) returns (at': nat)
    requires packet.Valid() && b == packet.Bytes() && Holding(buffer[..], at, text)
    modifies buffer
    ensures Holding(buffer[..], at', text + b)
    ensures at <= at' && Untouched(buffer[..], old(buffer[..]), at')
  {
    ghost var before := buffer[..];
    at' := at;
    var i := packet.prependPtr;
    while i < packet.appendPtr && at' < buffer.Length
      invariant packet.prependPtr <= i <= packet.appendPtr && at <= at' <= buffer.Length
        && i - packet.prependPtr == at' - at
      invariant forall k :: 0 <= k < at ==> buffer[k] == before[k]
      invariant forall k :: at <= k < at' ==> buffer[k] == b[k - at]
      invariant forall k :: at' <= k < buffer.Length ==> buffer[k] == before[k]
    {
      buffer[at'] := packet.memory[i];
      i, at' := i + 1, at' + 1;
    }
    assert buffer[at..at'] == b[..at' - at];
    HoldingMore(before, buffer[..], at, at', text, b);
  }

  lemma NodeAt(chain: seq<Packet>, k: nat)
    requires Linked(chain) && k < |chain|
    ensures chain[k].Valid() && chain[k].next == if k + 1 < |chain| then chain[k + 1] else null
    ensures ChainBytes(chain[k..]) == chain[k].Bytes() + ChainBytes(chain[k + 1..])
  {
    hide Distinct;
    assert chain[k..][1..] == chain[k + 1..];
  }

  /** The first `k` nodes of a chain are copied: `done`, behind the text that was in the buffer up to `at`. */
  ghost predicate Extracted(chain: seq<Packet>, k: nat, cur: Packet?, bytes: seq<Byte>, done: seq<Byte>,
      text: seq<Byte>, was: seq<Byte>, now: seq<Byte>, at: nat, at': nat)
    reads chain
  {
    && Linked(chain) && k <= |chain| && cur == (if k < |chain| then chain[k] else null)
    && done + ChainBytes(chain[k..]) == bytes && Holding(now, at', text + done) && at <= at' && Untouched(now, was, at')
  }

  /** Copies one more node. */
  method ExtractNode(cur: Packet, buffer: array<Byte>, from: nat, ghost chain: seq<Packet>, ghost k: nat,
      ghost bytes: seq<Byte>, ghost done: seq<Byte>, ghost text: seq<Byte>, ghost was: seq<Byte>, ghost at: nat)
    returns (at': nat, ghost done': seq<Byte>)
    requires Extracted(chain, k, cur, bytes, done, text, was, buffer[..], at, from) && k < |chain|
    modifies buffer
    ensures Extracted(chain, k + 1, cur.next, bytes, done', text, was, buffer[..], at, at')
  {
    ghost var b, before := cur.Bytes(), buffer[..];
    NodeAt(chain, k);
    Assoc(done, b, ChainBytes(chain[k + 1..]));
    Assoc(text, done, b);
    hide Linked, ChainBytes, Holding, Untouched;
    at' := CopyWindow(cur, buffer, from, text + done, b);
    UntouchedOn(was, before, buffer[..], from, at');
    done' := done + b;
  }

  lemma {:induction false} ExtractStart(chain: seq<Packet>, bytes: seq<Byte>, text: seq<Byte>, now: seq<Byte>, at: nat)
    requires Linked(chain) && chain != [] && bytes == ChainBytes(chain) && Holding(now, at, text)
    ensures Extracted(chain, 0, chain[0], bytes, [], text, now, now, at, at)
  {
    assert chain[0..] == chain && text + [] == text && [] + bytes == bytes;
  }

  lemma ExtractEnd(chain: seq<Packet>, k: nat, bytes: seq<Byte>, done: seq<Byte>, text: seq<Byte>, was: seq<Byte>,
      now: seq<Byte>, at: nat, at': nat)
    requires Extracted(chain, k, null, bytes, done, text, was, now, at, at')
    ensures Holding(now, at', text + bytes) && at <= at' && Untouched(now, was, at')
  {
    assert done + [] == done;
  }

  lemma ExtractAt(chain: seq<Packet>, k: nat, cur: Packet, bytes: seq<Byte>, done: seq<Byte>, text: seq<Byte>,
      was: seq<Byte>, now: seq<Byte>, at: nat, at': nat)
    requires Extracted(chain, k, cur, bytes, done, text, was, now, at, at')
    ensures k < |chain|
  {
  }

  /** Copies the bytes of a chain behind the text in a buffer, as many as there is room for. */
  method DataExtract(packet: Packet, buffer: array<Byte>, at: nat, ghost chain: seq<Packet>,
      ghost text: seq<Byte>, ghost bytes: seq<Byte>) returns (at': nat)
    requires Linked(chain) && chain != [] && chain[0] == packet && bytes == ChainBytes(chain)
      && Holding(buffer[..], at, text)
    modifies buffer
    ensures Holding(buffer[..], at', text + bytes)
    ensures at <= at' && Untouched(buffer[..], old(buffer[..]), at')
  {
    hide *;
    ghost var was, k, done := buffer[..], 0, [];
    ExtractStart(chain, bytes, text, was, at);
    at' := at;
    var cur: Packet? := packet;
    while cur != null
      invariant Extracted(chain, k, cur, bytes, done, text, was, buffer[..], at, at')
      decreases |chain| - k
    {
      ExtractAt(chain, k, cur, bytes, done, text, was, buffer[..], at, at');
      at', done := ExtractNode(cur, buffer, at', chain, k, bytes, done, text, was, at);
      cur, k := cur.next, k + 1;
    }
    ExtractEnd(chain, k, bytes, done, text, was, buffer[..], at, at');
  }

  /** A chunked body goes on as one. */
  lemma ChunksStay(v: View, codes: map<seq<Byte>, nat>, head: bool, o: Opening, status: Status, bytes: seq<Byte>,
      v': View)
    requires Gets(v, codes, head, o, status, bytes, v') && status == NX_SUCCESS && ChunkedBody(v, codes, o)
    ensures v'.Chunks?
  {
    Refusals(o.first, |o.all|, codes);
    hide Judge, NetBytes, Opens, Delivers, Decode;
  }

  lemma ChunkedIf(v: View, codes: map<seq<Byte>, nat>, o: Opening)
    ensures !v.Header? ==> (ChunkedBody(v, codes, o) <==> v.Chunks?)
  {
  }

  /** What the calls after the first one come to. */
  function Rest(v: View): Fetched
    requires !v.Header?
  {
    match v
    case Chunks(owed, s, _) => FetchChunks(owed, s)
    case Fixed(left, net) => FetchFixed(left, net)
  }

  /** With `text` in the buffer and `v` left, the fetch is on its way to `f`. */
  predicate Toward(f: Fetched, text: seq<Byte>, v: View) {
    if v.Header? then text == []
    else f.status == Rest(v).status && (f.status == NX_SUCCESS || v.Fixed? ==> f.content == text + Rest(v).content)
  }

  /** What the fetch comes to, known from the first call on. */
  function Aim(v: View, codes: map<seq<Byte>, nat>, head: bool, o: Opening, f: Fetched): Fetched {
    if v.Header? then FetchFirst(v.net, codes, head, o) else f
  }

  lemma TowardMore(v: View, codes: map<seq<Byte>, nat>, head: bool, o: Opening, status: Status,
      bytes: seq<Byte>, v': View, f: Fetched, text: seq<Byte>)
    requires Gets(v, codes, head, o, status, bytes, v') && Toward(f, text, v)
    ensures status == NX_SUCCESS ==> Shrinks(v, v')
    ensures status == NX_SUCCESS && bytes != [] ==> Toward(Aim(v, codes, head, o, f), text + bytes, v')
    ensures status == NX_WEB_HTTP_GET_DONE || (status == NX_SUCCESS && bytes == []) ==>
      Aim(v, codes, head, o, f) == Fetched(NX_SUCCESS, text + bytes)
    ensures Failed(status) ==>
      var f' := Aim(v, codes, head, o, f);
      f'.status == status && (!ChunkedBody(v, codes, o) ==> f'.content == text)
  {
    CallContributes(v, codes, head, o, status, bytes, v');
    if status == NX_SUCCESS && ChunkedBody(v, codes, o) {
      ChunksStay(v, codes, head, o, status, bytes, v');
    }
    ChunkedIf(v, codes, o);
    assert text + [] == text;
    var f' := Aim(v, codes, head, o, f);
    hide Gets, FetchFirst, FetchChunks, FetchFixed, ChunkedBody;
    if !v.Header? {
      assert FetchAll(v, codes, head, o) == Rest(v);
    } else {
      assert text + bytes == bytes;
    }
    if status == NX_SUCCESS && bytes != [] {
      assert FetchAll(v', codes, head, o) == Rest(v');
      Assoc(text, bytes, Rest(v').content);
    }
  }

  lemma GivenBack(held: set<Packet>, ret: set<Packet>, handed: set<Packet>, released: set<Packet>, arrived: set<Packet>)
    requires Partition(held, {}, handed + ret, released, arrived) && ret !! handed
    ensures Partition(held, {}, handed, released + ret, arrived) && ret !! released
  {
  }

  /** Gives a packet that was handed out back to the pool. */
  method ReleaseGiven(c: Client, packet: Packet, ghost ret: seq<Packet>, ghost handed: set<Packet>)
    requires Connected(c, {}) && c.handed == handed + Nodes(ret) && Nodes(ret) !! handed
    requires ret != [] && ret[0] == packet && Linked(ret)
    modifies c`handed, c`released
    ensures Connected(c, {}) && c.handed == handed
  {
    GivenBack(Nodes(c.held), Nodes(ret), handed, c.released, c.arrived);
    hide Linked, NetOk, Nodes;
    c.handed := handed;
    Release(c, packet, ret);
  }

  /** The session goes on with `v` left. */
  ghost predicate Underway(c: Client, state: nat, handed: set<Packet>, v: View)
    reads c, c.held
  {
    Session(c) && ViewOf(c) == v && c.state == state && InRequest(state) && c.handed == handed
  }

  lemma {:induction false} StillSettled(c: Client, state: nat, handed: set<Packet>, status: Status, packet: Packet?,
      ret: seq<Packet>, bytes: seq<Byte>)
    requires Settled(c, state, handed, status, packet, ret, bytes)
    requires status == NX_SUCCESS || status == NX_WEB_HTTP_GET_DONE
    ensures Connected(c, {}) && c.handed == handed + Nodes(ret) && Nodes(ret) !! handed
    ensures ret != [] && packet == ret[0] && Linked(ret) && packet.length == |bytes|
    ensures bytes != [] ==> ChainBytes(ret) == bytes
  {
  }

  /** Takes a packet that was got: copies its bytes, unless it is empty, and gives it back. */
  method TakePacket(c: Client, packet: Packet?, buffer: array<Byte>, at: nat, ghost text: seq<Byte>,
      ghost state: nat, ghost handed: set<Packet>, ghost v: View, status: Status,
      ghost ret: seq<Packet>, ghost bytes: seq<Byte>)
    returns (at': nat, empty: bool)
    requires Settled(c, state, handed, status, packet, ret, bytes) && InRequest(state)
    requires status == NX_SUCCESS || status == NX_WEB_HTTP_GET_DONE
    requires Holding(buffer[..], at, text) && v == ViewOf(c)
    modifies c`handed, c`released, buffer
    ensures empty <==> bytes == []
    ensures Holding(buffer[..], at', text + bytes)
    ensures at <= at' && Untouched(buffer[..], old(buffer[..]), at')
    ensures Connected(c, {}) && c.handed == handed
    ensures status == NX_SUCCESS ==> Underway(c, state, handed, v)
  {
    StillSettled(c, state, handed, status, packet, ret, bytes);
    assert text + [] == text;
    HoldingFits(buffer[..], at, text);
    UntouchedYet(buffer[..], at);
    hide *;
    at', empty := at, packet.length == 0;
    if !empty {
      at' := DataExtract(packet, buffer, at, ret, text, bytes);
    }
    GiveBackPacket(c, packet, state, handed, v, status, ret, bytes);
  }

  /** Gives a packet back; the session goes on as before. */
  method GiveBackPacket(c: Client, packet: Packet?, ghost state: nat, ghost handed: set<Packet>, ghost v: View,
      ghost status: Status, ghost ret: seq<Packet>, ghost bytes: seq<Byte>)
    requires Settled(c, state, handed, status, packet, ret, bytes) && InRequest(state) && v == ViewOf(c)
    requires status == NX_SUCCESS || status == NX_WEB_HTTP_GET_DONE
    modifies c`handed, c`released
    ensures Connected(c, {}) && c.handed == handed
    ensures status == NX_SUCCESS ==> Underway(c, state, handed, v)
  {
    StillSettled(c, state, handed, status, packet, ret, bytes);
    hide Linked, Connected, ChainBytes, Nodes, Pending, Full, Delivered, Owed;
    ReleaseGiven(c, packet, ret, handed);
  }

  /** The end of a fetch: its status, and on success the bytes in the buffer and every packet given back. */
  ghost predicate Complete(c: Client, handed: set<Packet>, buffer: array<Byte>, length: nat, status: Status, f: Fetched)
    reads c, c.held, buffer
  {
    status == f.status
    && (status == NX_SUCCESS ==> Holding(buffer[..], length, f.content) && Connected(c, {}) && c.handed == handed)
  }

  /** What is known of the way a header was found. */
  ghost predicate Found(v: View, o: Opening) {
    v.Header? && ScanFrom(NetBytes(v.net), 0).Found? ==> Opens(v.net, o)
  }

  /** Between two rounds: `text` is in the buffer, `v` is left, and the fetch is on its way to `f`. */
  ghost predicate Between(c: Client, state: nat, handed: set<Packet>, v: View, f: Fetched, text: seq<Byte>,
      buffer: array<Byte>, at: nat)
    reads c, c.held, buffer
  {
    Underway(c, state, handed, v) && Toward(f, text, v) && Holding(buffer[..], at, text)
  }

  lemma FoundOpening(v: View, codes: map<seq<Byte>, nat>, head: bool, o: Opening, status: Status,
      bytes: seq<Byte>, v': View)
    requires Gets(v, codes, head, o, status, bytes, v')
    ensures Found(v, o)
  {
    hide Opens, NetBytes;
  }

  lemma QuietConnected(c: Client)
    requires Quiet(c)
    ensures Connected(c, {})
  {
  }

  /** Only a chunked body goes on as one. */
  lemma ChunksGoOn(v: View, codes: map<seq<Byte>, nat>, head: bool, o: Opening, status: Status, bytes: seq<Byte>,
      v': View)
    requires Gets(v, codes, head, o, status, bytes, v') && status == NX_SUCCESS && v'.Chunks?
    ensures ChunkedBody(v, codes, o)
  {
    Refusals(o.first, |o.all|, codes);
    hide Judge, NetBytes, Opens, Delivers, Decode;
  }

  /** Behind the last call of a successful fetch the client holds nothing. */
  lemma FetchEnded(c: Client, state: nat, handed: set<Packet>, status: Status, packet: Packet?, ret: seq<Packet>,
      bytes: seq<Byte>)
    requires Settled(c, state, handed, status, packet, ret, bytes)
    requires status == NX_WEB_HTTP_GET_DONE || (status == NX_SUCCESS && ViewOf(c).Fixed?)
    ensures c.held == [] && c.responsePacket == null && c.remainingSize == 0
    ensures c.responseHeaderReceived <==> status == NX_SUCCESS
  {
  }

  lemma QuietIs(c: Client, v: View)
    requires Connected(c, {}) && c.held == [] && c.responsePacket == null && c.remainingSize == 0
    requires !c.responseHeaderReceived || (v == ViewOf(c) && v.Fixed?)
    ensures Quiet(c) && Session(c)
  {
  }

  /** How a call leaves the connection. */
  ghost predicate Kept(c: Client, was: bool, getStatus: Status)
    reads c`connected, c`keepAlive
  {
    c.connected == (was && (getStatus == NX_SUCCESS || (getStatus == NX_WEB_HTTP_GET_DONE && c.keepAlive)))
  }

  lemma NotedOnce(was: Notes, v: View, codes: map<seq<Byte>, nat>, o: Opening)
    ensures !v.Header? ==> Noted(was, v, codes, o) == was
  {
  }

  /**
   What becomes of a call with `v` left and `text` in the buffer, up to `at`, in a client that was connected as `up`
   says and had `was` noted; `here` is what the buffer held.
   */
  ghost predicate Stepped(c: Client, codes: map<seq<Byte>, nat>, buffer: array<Byte>, here: seq<Byte>, at: nat,
      v: View, f: Fetched, state: nat, handed: set<Packet>, up: bool, was: Notes, getStatus: Status,
      status: Status, stop: bool, overrun: bool, at': nat, o: Opening, v': View, text': seq<Byte>)
    reads c, c.held, buffer
  {
    var head, f' := state == STATE_HEAD, Aim(v, codes, state == STATE_HEAD, o, f);
    var ends, chunked := stop || getStatus == NX_WEB_HTTP_GET_DONE, ChunkedBody(v, codes, o);
    && (overrun <==> v.Header? && Overruns(v.net, codes, o)) && (overrun ==> stop)
    && (!stop ==> status == NX_SUCCESS) && NotesOf(c) == Noted(was, v, codes, o)
    && at <= at' && Untouched(buffer[..], here, at')
    && (!overrun ==> Found(v, o) && Kept(c, up, getStatus))
    && (!overrun && ends ==>
          && Complete(c, handed, buffer, at', status, f')
          && (status != NX_WEB_HTTP_ERROR && !chunked ==> Connected(c, {}) && c.handed == handed)
          && (!chunked ==> Holding(buffer[..], at', f'.content))
          && if status == NX_SUCCESS then
               && Quiet(c) && Session(c) && ViewOf(c) == Remains(v, codes, head, o)
               && getStatus == (if c.responseHeaderReceived then NX_SUCCESS else NX_WEB_HTTP_GET_DONE)
             else Failed(getStatus))
    && (!ends ==>
          && getStatus == NX_SUCCESS && Between(c, state, handed, v', f', text', buffer, at') && Shrinks(v, v')
          && (v'.Chunks? ==> chunked) && Remains(v', codes, head, o) == Remains(v, codes, head, o))
  }

  /** One round of the fetch. */
  method FetchStep(c: Client, codes: map<seq<Byte>, nat>, buffer: array<Byte>, at: nat,
      ghost v: View, ghost f: Fetched, ghost text: seq<Byte>, ghost state: nat, ghost handed: set<Packet>)
    returns (getStatus: Status, status: Status, stop: bool, overrun: bool, at': nat, ghost o: Opening,
      ghost v': View, ghost text': seq<Byte>)
    requires Between(c, state, handed, v, f, text, buffer, at)
    modifies c, Nodes(c.held), buffer
    ensures Stepped(c, codes, buffer, old(buffer[..]), at, v, f, state, handed, old(c.connected), old(NotesOf(c)),
        getStatus, status, stop, overrun, at', o, v', text')
    ensures !stop && getStatus != NX_WEB_HTTP_GET_DONE ==> forall p :: p in c.held ==> p in old(c.held) || fresh(p)
  {
    hide Session, ViewOf, Settled, Connected, Holding, Toward, Aim, Gets, Opens, Found, Shrinks, ChunkedBody, Quiet;
    hide Overruns, Untouched, Remains, Noted;
    at', v', text' := at, v, text;
    HoldingFits(buffer[..], at, text);
    UntouchedYet(buffer[..], at);
    var packet;
    ghost var ret, bytes, lost;
    getStatus, packet, overrun, o, ret, bytes, lost := ResponseBodyGet(c, codes, v);
    status, stop := getStatus, true;
    if overrun {
      return;
    }
    v', text' := ViewOf(c), text + bytes;
    FoundOpening(v, codes, state == STATE_HEAD, o, getStatus, bytes, v');
    TowardMore(v, codes, state == STATE_HEAD, o, getStatus, bytes, v', f, text);
    if getStatus == NX_SUCCESS || getStatus == NX_WEB_HTTP_GET_DONE {
      CallRemains(v, codes, state == STATE_HEAD, o, getStatus, bytes, v');
      at', stop := TakeGiven(c, packet, buffer, at, text, state, handed, v', getStatus, ret, bytes);
      status := NX_SUCCESS;
      if getStatus == NX_SUCCESS && v'.Chunks? {
        ChunksGoOn(v, codes, state == STATE_HEAD, o, getStatus, bytes, v');
      }
    } else if status != NX_WEB_HTTP_ERROR && !ChunkedBody(v, codes, o) {
      QuietConnected(c);
    }
  }

  /** Takes a packet; behind the last one the client holds nothing. */
  method TakeGiven(c: Client, packet: Packet?, buffer: array<Byte>, at: nat, ghost text: seq<Byte>,
      ghost state: nat, ghost handed: set<Packet>, ghost v: View, status: Status,
      ghost ret: seq<Packet>, ghost bytes: seq<Byte>)
    returns (at': nat, empty: bool)
    requires Settled(c, state, handed, status, packet, ret, bytes) && InRequest(state)
    requires status == NX_SUCCESS || status == NX_WEB_HTTP_GET_DONE
    requires status == NX_SUCCESS && bytes == [] ==> v.Fixed?
    requires Holding(buffer[..], at, text) && v == ViewOf(c)
    modifies c`handed, c`released, buffer
    ensures empty <==> bytes == []
    ensures Holding(buffer[..], at', text + bytes)
    ensures at <= at' && Untouched(buffer[..], old(buffer[..]), at')
    ensures Connected(c, {}) && c.handed == handed && ViewOf(c) == v
    ensures status == NX_SUCCESS ==> Underway(c, state, handed, v)
    ensures status == NX_WEB_HTTP_GET_DONE || empty ==>
      Quiet(c) && Session(c) && (c.responseHeaderReceived <==> status == NX_SUCCESS)
  {
    if status == NX_WEB_HTTP_GET_DONE || bytes == [] {
      FetchEnded(c, state, handed, status, packet, ret, bytes);
    }
    hide *;
    at', empty := TakePacket(c, packet, buffer, at, text, state, handed, v, status, ret, bytes);
    if status == NX_WEB_HTTP_GET_DONE || empty {
      QuietIs(c, v);
    }
  }

  lemma AimIs(v: View, codes: map<seq<Byte>, nat>, head: bool, o: Opening, f: Fetched)
    ensures v.Header? ==> Aim(v, codes, head, o, f) == FetchAll(v, codes, head, o)
    ensures !v.Header? ==> Aim(v, codes, head, o, f) == f && FetchAll(v, codes, head, o) == Rest(v)
  {
  }

  function Size(v: View): nat {
    match v
    case Header(_) => 0
    case Chunks(_, s, _) => |s|
    case Fixed(_, net) => |net|
  }

  lemma BetweenAtStart(c: Client, v: View, f: Fetched, buffer: array<Byte>)
    requires Session(c) && ViewOf(c) == v && InRequest(c.state)
    requires !v.Header? ==> f == Rest(v)
    ensures Between(c, c.state, c.handed, v, f, [], buffer, 0)
  {
    assert [] + f.content == f.content;
  }

  /**
   How a fetch ends of what was left as `v`, in a client that was in `state`, connected as `up` says, with `was` noted,
   and whose buffer was `before`.
   */
  ghost predicate FetchEnds(c: Client, codes: map<seq<Byte>, nat>, buffer: array<Byte>, before: seq<Byte>, v: View,
      state: nat, handed: set<Packet>, up: bool, was: Notes, o: Opening, length: nat, status: Status, overrun: bool)
    reads c, c.held, buffer
  {
    var f, chunked := FetchAll(v, codes, state == STATE_HEAD, o), ChunkedBody(v, codes, o);
    && (overrun <==> v.Header? && Overruns(v.net, codes, o))
    && NotesOf(c) == Noted(was, v, codes, o) && Untouched(buffer[..], before, length)
    && (!overrun ==>
          && Found(v, o) && Complete(c, handed, buffer, length, status, f)
          && (status != NX_WEB_HTTP_ERROR && !chunked ==> Connected(c, {}) && c.handed == handed)
          && (!chunked ==> Holding(buffer[..], length, f.content))
          && (status == NX_SUCCESS ==>
                Quiet(c) && Session(c) && ViewOf(c) == Remains(v, codes, state == STATE_HEAD, o))
          && c.connected == (up && status == NX_SUCCESS && (c.responseHeaderReceived || c.keepAlive)))
  }

  /** A fetch between two rounds, or at its end: `text` is in the buffer, and `now` is left of `v`. */
  ghost predicate Fetching(c: Client, codes: map<seq<Byte>, nat>, buffer: array<Byte>, before: seq<Byte>, v: View,
      state: nat, handed: set<Packet>, up: bool, was: Notes, o: Opening, length: nat, status: Status,
      getStatus: Status, begun: bool, now: View, f: Fetched, text: seq<Byte>)
    reads c, c.held, buffer
  {
    if getStatus == NX_WEB_HTTP_GET_DONE then
      FetchEnds(c, codes, buffer, before, v, state, handed, up, was, o, length, status, false)
    else
      && getStatus == NX_SUCCESS && Between(c, state, handed, now, f, text, buffer, length) && c.connected == up
      && Aiming(codes, before, buffer[..], length, v, state == STATE_HEAD, was, NotesOf(c), o, begun, now, f)
  }

  /** The same for values: the buffer is `here`, and `notes` are noted. */
  ghost predicate Aiming(codes: map<seq<Byte>, nat>, before: seq<Byte>, here: seq<Byte>, at: nat, v: View, head: bool,
      was: Notes, notes: Notes, o: Opening, begun: bool, now: View, f: Fetched) {
    && Untouched(here, before, at) && (now.Chunks? ==> v.Chunks? || ChunkedBody(v, codes, o))
    && (begun || !v.Header? ==> f == FetchAll(v, codes, head, o))
    && if begun then
         && Found(v, o) && !now.Header? && notes == Noted(was, v, codes, o)
         && Remains(now, codes, head, o) == Remains(v, codes, head, o) && !(v.Header? && Overruns(v.net, codes, o))
       else now == v && notes == was
  }

  /** One round of a fetch. */
  method FetchRound(c: Client, codes: map<seq<Byte>, nat>, buffer: array<Byte>, at: nat, ghost before: seq<Byte>,
      ghost v: View, ghost state: nat, ghost handed: set<Packet>, ghost up: bool, ghost was: Notes, ghost o: Opening,
      ghost begun: bool, ghost now: View, ghost f: Fetched, ghost text: seq<Byte>)
    returns (getStatus: Status, status: Status, stop: bool, overrun: bool, at': nat, ghost o': Opening,
      ghost now': View, ghost f': Fetched, ghost text': seq<Byte>)
    requires Fetching(c, codes, buffer, before, v, state, handed, up, was, o, at, NX_SUCCESS, NX_SUCCESS, begun, now, f,
        text)
    modifies c, Nodes(c.held), buffer
    ensures stop ==> FetchEnds(c, codes, buffer, before, v, state, handed, up, was, o', at', status, overrun)
    ensures !stop ==>
      && status == NX_SUCCESS && !overrun
      && Fetching(c, codes, buffer, before, v, state, handed, up, was, o', at', status, getStatus, true, now', f',
           text')
    ensures !stop && getStatus != NX_WEB_HTTP_GET_DONE ==>
      Shrinks(now, now') && forall p :: p in c.held ==> p in old(c.held) || fresh(p)
  {
    ghost var here, notes := buffer[..], NotesOf(c);
    FetchingIs(c, codes, buffer, before, v, state, handed, up, was, o, at, NX_SUCCESS, begun, now, f, text);
    hide *;
    ghost var opening;
    getStatus, status, stop, overrun, at', opening, now', text' :=
      FetchStep(c, codes, buffer, at, now, f, text, state, handed);
    f', o' := Aim(now, codes, state == STATE_HEAD, opening, f), if begun then o else opening;
    RoundOn(c, codes, buffer, before, here, at, v, state, handed, up, was, notes, o, begun, now, f, getStatus, status,
      stop, overrun, at', opening, now', text');
  }

  lemma FetchingIs(c: Client, codes: map<seq<Byte>, nat>, buffer: array<Byte>, before: seq<Byte>, v: View, state: nat,
      handed: set<Packet>, up: bool, was: Notes, o: Opening, at: nat, status: Status, begun: bool, now: View,
      f: Fetched, text: seq<Byte>)
    requires Fetching(c, codes, buffer, before, v, state, handed, up, was, o, at, status, NX_SUCCESS, begun, now, f,
        text)
    ensures Between(c, state, handed, now, f, text, buffer, at) && c.connected == up
    ensures Aiming(codes, before, buffer[..], at, v, state == STATE_HEAD, was, NotesOf(c), o, begun, now, f)
  {
    hide Between, Aiming;
  }

  /** What a call makes of a fetch. */
  lemma RoundOn(c: Client, codes: map<seq<Byte>, nat>, buffer: array<Byte>, before: seq<Byte>, here: seq<Byte>, at: nat,
      v: View, state: nat, handed: set<Packet>, up: bool, was: Notes, notes: Notes, o: Opening, begun: bool, now: View,
      f: Fetched, getStatus: Status, status: Status, stop: bool, overrun: bool, at': nat, opening: Opening,
      now': View, text': seq<Byte>)
    requires Aiming(codes, before, here, at, v, state == STATE_HEAD, was, notes, o, begun, now, f)
    requires Stepped(c, codes, buffer, here, at, now, f, state, handed, up, notes, getStatus, status, stop, overrun,
        at', opening, now', text')
    ensures var f', o' := Aim(now, codes, state == STATE_HEAD, opening, f), if begun then o else opening;
      && (stop ==> FetchEnds(c, codes, buffer, before, v, state, handed, up, was, o', at', status, overrun))
      && (!stop ==>
            && status == NX_SUCCESS && !overrun
            && Fetching(c, codes, buffer, before, v, state, handed, up, was, o', at', status, getStatus, true, now', f',
                 text'))
      && (!stop && getStatus != NX_WEB_HTTP_GET_DONE ==> Shrinks(now, now'))
  {
    var head := state == STATE_HEAD;
    hide Between, Complete, Aim, FetchAll, Rest, ChunkedBody, Connected, Overruns, Holding, Untouched, Shrinks;
    hide Remains, Quiet, ViewOf, Session, Noted, NotesOf, Found, Toward;
    UntouchedOn(before, here, buffer[..], at, at');
    ChunkedIf(now, codes, opening);
    ChunkedIf(v, codes, o);
    AimIs(now, codes, head, opening, f);
    AimIs(v, codes, head, opening, f);
    AimIs(v, codes, head, o, f);
    SameRemains(v, now, codes, head, o, opening, begun);
    NotedOnce(notes, now, codes, opening);
    ShrunkHeader(now, now');
  }

  lemma ShrunkHeader(v: View, v': View)
    ensures Shrinks(v, v') ==> !v'.Header?
  {
  }

  /**
   Fetches a response into the buffer. The status and the bytes are what the whole response comes to. Unless it fails
   in a chunked body, or its first packet is too short, every packet is back in the pool afterwards. A success leaves
   what `Remains` says, with the connection kept if the response is not at its end or keeps it; a failure breaks it off.
   */
  method GetResponse(c: Client, codes: map<seq<Byte>, nat>, buffer: array<Byte>, ghost v: View)
    returns (status: Status, length: nat, overrun: bool, ghost o: Opening)
    requires Session(c) && ViewOf(c) == v && InRequest(c.state)
    modifies c, Nodes(c.held), buffer
    ensures FetchEnds(c, codes, buffer, old(buffer[..]), v, old(c.state), old(c.handed), old(c.connected),
        old(NotesOf(c)), o, length, status, overrun)
  {
    ghost var before, up, was, state, handed := buffer[..], c.connected, NotesOf(c), c.state, c.handed;
    o, overrun, status, length := Opening([], [], []), false, NX_SUCCESS, 0;
    ghost var f, text, now, begun := if v.Header? then Fetched(NX_SUCCESS, []) else Rest(v), [], v, false;
    FetchStarts(c, codes, v, f, buffer, o);
    var getStatus, stop := NX_SUCCESS, false;
    hide *;
    while getStatus != NX_WEB_HTTP_GET_DONE
      invariant !overrun && status == NX_SUCCESS
      invariant Fetching(c, codes, buffer, before, v, state, handed, up, was, o, length, status, getStatus, begun, now,
          f, text)
      invariant forall p :: p in c.held && getStatus != NX_WEB_HTTP_GET_DONE ==> p in old(c.held) || fresh(p)
      decreases getStatus != NX_WEB_HTTP_GET_DONE, now.Header?, Size(now)
    {
      ghost var left := now;
      getStatus, status, stop, overrun, length, o, now, f, text :=
        FetchRound(c, codes, buffer, length, before, v, state, handed, up, was, o, begun, now, f, text);
      if stop {
        return;
      }
      begun := true;
      if getStatus != NX_WEB_HTTP_GET_DONE {
        Smaller(left, now);
      }
    }
    assert FetchEnds(c, codes, buffer, before, v, state, handed, up, was, o, length, status, false) by {
      FetchDone(c, codes, buffer, before, v, state, handed, up, was, o, length, status, begun, now, f, text);
    }
  }

  lemma FetchStarts(c: Client, codes: map<seq<Byte>, nat>, v: View, f: Fetched, buffer: array<Byte>, o: Opening)
    requires Session(c) && ViewOf(c) == v && InRequest(c.state) && (!v.Header? ==> f == Rest(v))
    ensures Fetching(c, codes, buffer, buffer[..], v, c.state, c.handed, c.connected, NotesOf(c), o, 0, NX_SUCCESS,
        NX_SUCCESS, false, v, f, [])
  {
    BetweenAtStart(c, v, f, buffer);
    AimIs(v, codes, c.state == STATE_HEAD, o, f);
    UntouchedYet(buffer[..], 0);
    hide Between, FetchAll, Rest, ChunkedBody, Untouched, NotesOf;
  }

  lemma Smaller(v: View, v': View)
    requires Shrinks(v, v')
    ensures !v'.Header? && (v.Header? || Size(v') < Size(v))
  {
  }

  lemma FetchDone(c: Client, codes: map<seq<Byte>, nat>, buffer: array<Byte>, before: seq<Byte>, v: View, state: nat,
      handed: set<Packet>, up: bool, was: Notes, o: Opening, length: nat, status: Status, begun: bool, now: View,
      f: Fetched, text: seq<Byte>)
    requires Fetching(c, codes, buffer, before, v, state, handed, up, was, o, length, status, NX_WEB_HTTP_GET_DONE,
        begun, now, f, text)
    ensures FetchEnds(c, codes, buffer, before, v, state, handed, up, was, o, length, status, false)
  {
    hide FetchEnds;
  }
}
