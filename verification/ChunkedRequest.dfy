/** Sending a chunked request body: size lines, data packets, and the bytes that end a chunk and the body. */
module ChunkedRequest {
  import opened Bytes
  import opened Packets
  import opened HttpClient
  import opened ChunkCoding
  import opened Numbers

  /** The request side of a client's state, and the bytes given to the socket. */
  class Sender {
    var requestChunked: bool
    var totalTransferBytes: nat
    var actualBytesTransferred: nat
    var sent: seq<Byte>
  }

  /** The hexadecimal digits of a number, without leading zeros; none for zero. */
  function Hex(n: nat): (s: seq<Byte>)
    ensures HexDigits(s)
  {
    if n == 0 then [] else Hex(n / 16) + [HexChar(n % 16)]
  }

  function SizeText(n: nat): (s: seq<Byte>)
    ensures HexDigits(s) && s != []
  {
    if n == 0 then [HexChar(0)] else Hex(n)
  }

  lemma {:induction false} HexIsExact(n: nat)
    ensures HexValue(Hex(n)) == n
  {
    if n > 0 {
      HexIsExact(n / 16);
      var s := Hex(n);
      assert s[..|s| - 1] == Hex(n / 16);
    }
  }

  lemma SizeTextIsExact(n: nat)
    ensures HexValue(SizeText(n)) == n
  {
    if n == 0 {
      assert SizeText(0)[..0] == [];
    } else {
      HexIsExact(n);
    }
  }

  function Power16(k: nat): nat {
    if k == 0 then 1 else 16 * Power16(k - 1)
  }

  lemma {:induction false} HexLength(n: nat, k: nat)
    requires n < Power16(k)
    ensures |Hex(n)| <= k
    decreases k
  {
    if n > 0 {
      HexLength(n / 16, k - 1);
    }
  }

  lemma EightDigits(n: nat)
    requires n < UINT_RANGE
    ensures |SizeText(n)| <= 8
  {
    assert Power16(8) == 16 * 16 * 16 * 16 * Power16(4);
    HexLength(n, 8);
  }

  /** A packet that is not part of a longer chain, and its byte count. */
  ghost predicate Single(p: Packet)
    reads p
  {
    p.Valid() && p.length == |p.Bytes()|
  }

  /** Puts bytes behind those of a packet. */
  method Append(p: Packet, bytes: seq<Byte>)
    requires Single(p)
    modifies p
    ensures Single(p) && p.Bytes() == old(p.Bytes()) + bytes
  {
    p.memory := p.memory[..p.appendPtr] + bytes;
    p.appendPtr, p.length := p.appendPtr + |bytes|, p.length + |bytes|;
  }

  /** Puts a hexadecimal digit in front of the first `i` characters. */
  method PutDigit(tempString: array<Byte>, i: nat, digit: nat, ghost before: seq<Byte>)
    requires i < tempString.Length && digit < 16 && before == tempString[..i]
    modifies tempString
    ensures tempString[..i + 1] == [HexChar(digit)] + before
  {
    ShiftUp(tempString, i);
    PutFront(tempString[..], HexChar(digit), i, before);
    if digit < 10 {
      tempString[0] := digit + '0' as int;
    } else {
      tempString[0] := digit - 10 + 'a' as int;
    }
  }

  /** Writes a size in hexadecimal by shifting the digits along, most significant first. */
  method WriteSize(chunkSize: nat, tempString: array<Byte>) returns (i: nat)
    requires chunkSize < UINT_RANGE && tempString.Length == 10
    modifies tempString
    ensures i <= 8 && tempString[..i] == SizeText(chunkSize)
  {
    EightDigits(chunkSize);
    var tempSize := chunkSize;
    i := 0;
    ghost var done: seq<Byte> := [];
    assert Hex(tempSize) + done == Hex(chunkSize);
    assert |Hex(chunkSize)| <= 8;
    while tempSize != 0
      invariant i == |done| <= 8 && done == tempString[..i] && Hex(tempSize) + done == Hex(chunkSize)
      decreases tempSize
    {
      var digit := tempSize % 16;
      assert |Hex(tempSize)| > 0;
      PutDigit(tempString, i, digit, done);
      Assoc(Hex(tempSize / 16), [HexChar(digit)], done);
      tempSize, i, done := tempSize / 16, i + 1, [HexChar(digit)] + done;
    }
    assert done == Hex(chunkSize);
    if i == 0 {
      tempString[i] := '0' as int;
      i := i + 1;
    }
  }

  /** Opens a chunk: its size line goes into the packet, and the client expects the line and the data to be sent. */
  method RequestChunkedSet(c: Sender, chunkSize: nat, packet: Packet)
    requires chunkSize < UINT_RANGE && Single(packet)
    modifies c`requestChunked, c`totalTransferBytes, c`actualBytesTransferred, packet
    ensures Single(packet) && packet.Bytes() == old(packet.Bytes()) + (SizeText(chunkSize) + CRLF)
    ensures c.requestChunked && c.actualBytesTransferred == 0
    ensures c.totalTransferBytes == (chunkSize + |SizeText(chunkSize) + CRLF|) % UINT_RANGE
  {
    var tempString := new Byte[10];
    var i := WriteSize(chunkSize, tempString);
    Assoc(packet.Bytes(), SizeText(chunkSize), CRLF);
    Append(packet, tempString[..i]);
    Append(packet, CRLF);
    c.requestChunked := true;
    c.totalTransferBytes, c.actualBytesTransferred := (chunkSize + i + 2) % UINT_RANGE, 0;
  }

  const LAST_CHUNK: seq<Byte> := [48, 13, 10, 13, 10]

  /** What is sent behind the bytes of a packet. */
  function Closing(chunked: bool, complete: bool, more: bool): seq<Byte> {
    if chunked && complete then if more then CRLF else CRLF + LAST_CHUNK else []
  }

  /** Sends a packet of a request body; `ok`: the socket takes it. */
  method RequestPacketSend(c: Sender, packet: Packet, moreData: bool, ok: bool) returns (status: Status)
    requires Single(packet)
    modifies c, packet
    ensures var sum := (old(c.actualBytesTransferred) + old(packet.length)) % UINT_RANGE;
      var complete := c.totalTransferBytes == sum;
      && c.totalTransferBytes == old(c.totalTransferBytes)
      && status == (if c.totalTransferBytes < sum then NX_INVALID_PACKET
                    else if ok then NX_SUCCESS
                    else NX_NOT_CONNECTED)
      && c.sent == old(c.sent) + (if status != NX_SUCCESS then []
                                  else old(packet.Bytes()) + Closing(old(c.requestChunked), complete, moreData))
      && c.actualBytesTransferred == (if status == NX_SUCCESS then sum else old(c.actualBytesTransferred))
      && (status == NX_INVALID_PACKET ==> c.requestChunked == old(c.requestChunked))
      && (status == NX_SUCCESS ==> c.requestChunked == (old(c.requestChunked) && (complete ==> moreData)))
  {
    var length := packet.length;
    var sum := (c.actualBytesTransferred + length) % UINT_RANGE;
    if c.totalTransferBytes < sum {
      return NX_INVALID_PACKET;
    }
    ghost var bytes := packet.Bytes();
    assert bytes + [] == bytes;
    if c.requestChunked {
      if c.totalTransferBytes == sum {
        Append(packet, CRLF);
        if !moreData {
          Assoc(bytes, CRLF, LAST_CHUNK);
          Append(packet, LAST_CHUNK);
          c.requestChunked := false;
        }
      }
    }
    if !ok {
      return NX_NOT_CONNECTED;
    }
    c.sent := c.sent + packet.memory[packet.prependPtr..packet.appendPtr];
    c.actualBytesTransferred := sum;
    status := NX_SUCCESS;
  }

  // ---------------------------------------------------------------- one chunk

  /** A packet of a chunk: the data in it, possibly none, and whether the caller says that more follows. */
  datatype Piece = Piece(data: seq<Byte>, more: bool)

  /** The data of packets, one after the other. */
  function Text(pieces: seq<Piece>): seq<Byte> {
    if pieces == [] then [] else pieces[0].data + Text(pieces[1..])
  }

  /** What the sender puts on the wire for packets, while `missing` bytes of the open chunk are still to come. */
  function Emits(chunked: bool, missing: nat, pieces: seq<Piece>): seq<Byte>
    decreases pieces
  {
    if pieces == [] || missing < |pieces[0].data| then []
    else
      var left, more := missing - |pieces[0].data|, pieces[0].more;
      pieces[0].data + Closing(chunked, left == 0, more)
      + Emits(chunked && (left == 0 ==> more), left, pieces[1..])
  }

  /** The packets of a chunk from the one that completes it on: whether each of them says that more follows. */
  function Ends(pieces: seq<Piece>): (flags: seq<bool>)
    requires pieces != []
    ensures flags != []
  {
    if Text(pieces[1..]) == [] then seq(|pieces|, i requires 0 <= i < |pieces| => pieces[i].more)
    else Ends(pieces[1..])
  }

  /** What these packets append: the end of the chunk each, until one of them ends the body. */
  function Tail(flags: seq<bool>): seq<Byte> {
    if flags == [] then []
    else if flags[0] then CRLF + Tail(flags[1..])
    else CRLF + LAST_CHUNK
  }

  /** The same behind the first end of a chunk. */
  function After(flags: seq<bool>): seq<Byte>
    requires flags != []
  {
    if flags[0] then Tail(flags[1..]) else LAST_CHUNK
  }

  /** Empty packets behind the end of a body send nothing. */
  lemma {:induction false} EmitsNothing(pieces: seq<Piece>)
    requires Text(pieces) == []
    ensures Emits(false, 0, pieces) == []
  {
    if pieces != [] {
      EmitsNothing(pieces[1..]);
    }
  }

  lemma {:induction false} EmitsTail(pieces: seq<Piece>, flags: seq<bool>)
    requires Text(pieces) == [] && |flags| == |pieces| && forall i :: 0 <= i < |flags| ==> flags[i] == pieces[i].more
    ensures Emits(true, 0, pieces) == Tail(flags)
  {
    if pieces != [] {
      if flags[0] {
        EmitsTail(pieces[1..], flags[1..]);
      } else {
        EmitsNothing(pieces[1..]);
      }
    }
  }

  /** The packets of a chunk send its data, and only the one that completes it and those behind it send more. */
  lemma {:induction false} EmitsChunk(pieces: seq<Piece>)
    requires pieces != []
    ensures Emits(true, |Text(pieces)|, pieces) == Text(pieces) + Tail(Ends(pieces))
  {
    var first, rest := pieces[0], pieces[1..];
    var left := |Text(rest)|;
    if left == 0 {
      var flags := Ends(pieces);
      assert Text(pieces) == first.data;
      if first.more {
        EmitsTail(rest, flags[1..]);
      } else {
        EmitsNothing(rest);
      }
      ClosingTail(first.data, first.more, rest, flags);
    } else {
      EmitsChunk(rest);
      hide Ends, Tail;
      assert first.data + Closing(true, false, first.more) == first.data;
      Assoc(first.data, Text(rest), Tail(Ends(rest)));
    }
  }

  lemma {:induction false} ClosingTail(data: seq<Byte>, more: bool, rest: seq<Piece>, flags: seq<bool>)
    requires flags != [] && flags[0] == more
    requires Emits(more, 0, rest) == if more then Tail(flags[1..]) else []
    ensures data + Closing(true, true, more) + Emits(more, 0, rest) == data + Tail(flags)
  {
    if more {
      Assoc(data, CRLF, Tail(flags[1..]));
    }
  }

  /** The size line of a chunk. */
  function LineOf(size: nat): seq<Byte> {
    SizeText(size) + CRLF
  }

  /** What sending a chunk puts on the wire. */
  function ChunkSent(pieces: seq<Piece>): seq<Byte>
    requires pieces != []
  {
    LineOf(|Text(pieces)|) + Text(pieces) + Tail(Ends(pieces))
  }

  /** The chunk of the grammar for some data. */
  function ChunkOf(data: seq<Byte>): Chunk {
    Chunk(SizeText(|data|), [], data)
  }

  lemma TailIs(flags: seq<bool>)
    requires flags != []
    ensures Tail(flags) == CRLF <==> flags == [true]
    ensures Tail(flags) == CRLF + LAST_CHUNK <==> !flags[0]
  {
    if flags[0] {
      var rest := flags[1..];
      assert rest == [] <==> flags == [true];
      assert rest != [] ==> Tail(rest)[0] == CR;
      assert LAST_CHUNK[0] != CR;
      hide Tail;
      SameFront(CRLF, Tail(rest), []);
      SameFront(CRLF, Tail(rest), LAST_CHUNK);
      assert CRLF + [] == CRLF;
    }
  }

  lemma SameFront(front: seq<Byte>, a: seq<Byte>, b: seq<Byte>)
    ensures front + a == front + b <==> a == b
  {
    assert (front + a)[|front|..] == a && (front + b)[|front|..] == b;
  }

  /**
   What is sent is one chunk of the grammar if and only if the packet that completes the chunk says that more follows
   and is the last one of the chunk; and it is the chunk and the last chunk if and only if that packet says that nothing
   follows.
   */
  lemma {:induction false} ChunkSentIs(pieces: seq<Piece>)
    requires pieces != []
    ensures ChunkSent(pieces) == Write(ChunkOf(Text(pieces))) <==> Ends(pieces) == [true]
    ensures ChunkSent(pieces) == Write(ChunkOf(Text(pieces))) + LAST_CHUNK <==> !Ends(pieces)[0]
  {
    var front, flags := LineOf(|Text(pieces)|) + Text(pieces), Ends(pieces);
    TailIs(flags);
    hide Tail, Ends, Text, SizeText;
    assert SizeText(|Text(pieces)|) + [] == SizeText(|Text(pieces)|);
    assert Write(ChunkOf(Text(pieces))) == front + CRLF;
    hide *;
    Assoc(front, CRLF, LAST_CHUNK);
    SameFront(front, Tail(flags), CRLF);
    SameFront(front, Tail(flags), CRLF + LAST_CHUNK);
  }

  /** Where the sender is in a chunk: `left` are its packets to come, and `all` is what will have been sent then. */
  ghost predicate Sending(c: Sender, all: seq<Byte>, left: seq<Piece>)
    reads c
  {
    && c.totalTransferBytes == c.actualBytesTransferred + |Text(left)| < UINT_RANGE
    && c.sent + Emits(c.requestChunked, |Text(left)|, left) == all
  }

  lemma {:induction false} SendingStep(c: Sender, all: seq<Byte>, left: seq<Piece>, sent: seq<Byte>, chunked: bool)
    requires left != [] && c.totalTransferBytes == c.actualBytesTransferred + |Text(left[1..])| < UINT_RANGE
    requires var complete := Text(left[1..]) == [];
      && c.sent == sent + (left[0].data + Closing(chunked, complete, left[0].more))
      && c.requestChunked == (chunked && (complete ==> left[0].more))
    requires sent + Emits(chunked, |Text(left)|, left) == all
    ensures Sending(c, all, left[1..])
  {
    var first, rest := left[0], left[1..];
    Assoc(sent, first.data + Closing(chunked, Text(rest) == [], first.more),
      Emits(c.requestChunked, |Text(rest)|, rest));
  }

  /** Sends the next packet of a chunk; the socket may refuse it. */
  method SendPiece(c: Sender, packet: Packet, more: bool, ghost all: seq<Byte>, ghost left: seq<Piece>)
    returns (status: Status)
    requires left != [] && Single(packet) && packet.Bytes() == left[0].data && more == left[0].more
    requires Sending(c, all, left)
    modifies c, packet
    ensures status == NX_SUCCESS || status == NX_NOT_CONNECTED
    ensures status == NX_SUCCESS ==> old(c.sent) <= c.sent && Sending(c, all, left[1..])
    ensures status != NX_SUCCESS ==> c.sent == old(c.sent)
  {
    ghost var sent, chunked := c.sent, c.requestChunked;
    assert |Text(left)| == |left[0].data| + |Text(left[1..])|;
    hide Text, Emits, Closing, Packet.Bytes;
    var ok: bool := *;
    status := RequestPacketSend(c, packet, more, ok);
    if status == NX_SUCCESS {
      SendingStep(c, all, left, sent, chunked);
    }
  }

  /** The first packet of a chunk: the size line, and data behind it. */
  method FirstPacket(c: Sender, first: seq<Byte>, size: nat) returns (packet: Packet)
    requires size < UINT_RANGE
    modifies c`requestChunked, c`totalTransferBytes, c`actualBytesTransferred
    ensures fresh(packet) && Single(packet) && packet.Bytes() == LineOf(size) + first
    ensures c.requestChunked && c.actualBytesTransferred == 0
    ensures |LineOf(size)| <= 10 && c.totalTransferBytes == (size + |LineOf(size)|) % UINT_RANGE
  {
    EightDigits(size);
    ghost var line := SizeText(size) + CRLF;
    assert [] + line == line;
    hide SizeText, Packet.Bytes;
    packet := NewPacket();
    RequestChunkedSet(c, size, packet);
    Append(packet, first);
  }

  method NewPacket() returns (packet: Packet)
    ensures fresh(packet) && Single(packet) && packet.Bytes() == []
  {
    packet := new Packet([]);
  }

  /** The first packet counts the size line as data. */
  lemma {:induction false} SendingFirst(c: Sender, pieces: seq<Piece>, base: seq<Byte>)
    requires pieces != [] && c.totalTransferBytes == c.actualBytesTransferred + |Text(pieces[1..])| < UINT_RANGE
    requires var line, complete := LineOf(|Text(pieces)|), Text(pieces[1..]) == [];
      && c.sent == base + (line + pieces[0].data + Closing(true, complete, pieces[0].more))
      && c.requestChunked == (complete ==> pieces[0].more)
    ensures Sending(c, base + ChunkSent(pieces), pieces[1..])
  {
    var line, first, rest := LineOf(|Text(pieces)|), pieces[0], pieces[1..];
    var closing, tail := Closing(true, Text(rest) == [], first.more), Emits(c.requestChunked, |Text(rest)|, rest);
    EmitsChunk(pieces);
    assert Emits(true, |Text(pieces)|, pieces) == first.data + closing + tail;
    hide Text, Emits, Closing, LineOf, Tail, Ends;
    FirstText(base, line, first.data, closing, tail);
    Assoc(line, Text(pieces), Tail(Ends(pieces)));
  }

  lemma FirstText(base: seq<Byte>, line: seq<Byte>, data: seq<Byte>, closing: seq<Byte>, tail: seq<Byte>)
    ensures base + (line + data + closing) + tail == base + (line + (data + closing + tail))
  {
  }

  /**
   Whether the client lets a chunk's first packet pass. Where the size line and the data are 4 GiB together, the count
   of what is to be sent wraps around, and then the packet is only let pass if its own count does, too.
   */
  predicate Passes(pieces: seq<Piece>)
    requires pieces != []
  {
    var line := |LineOf(|Text(pieces)|)|;
    line + |Text(pieces)| < UINT_RANGE || line + |pieces[0].data| >= UINT_RANGE
  }

  lemma Wrapped(size: nat, first: nat, line: nat)
    requires first <= size < UINT_RANGE && line <= 10
    ensures var total, sum := (size + line) % UINT_RANGE, (line + first) % UINT_RANGE;
      if size + line < UINT_RANGE || line + first >= UINT_RANGE then total == sum + (size - first) else total < sum
  {
  }

  /** Opens a chunk and sends its first data in the same packet. */
  method SendFirst(c: Sender, more: bool, first: seq<Byte>, size: nat, ghost pieces: seq<Piece>)
    returns (status: Status)
    requires pieces != [] && pieces[0] == Piece(first, more) && size == |Text(pieces)| < UINT_RANGE
    modifies c
    ensures status == NX_SUCCESS || status == NX_NOT_CONNECTED || status == NX_INVALID_PACKET
    ensures status == NX_INVALID_PACKET <==> !Passes(pieces)
    ensures status == NX_SUCCESS ==>
      old(c.sent) <= c.sent && Sending(c, old(c.sent) + ChunkSent(pieces), pieces[1..])
    ensures status != NX_SUCCESS ==> c.sent == old(c.sent)
  {
    ghost var base := c.sent;
    assert |Text(pieces)| == |first| + |Text(pieces[1..])|;
    hide Text, LineOf, Packet.Bytes, Closing, Sending;
    var packet := FirstPacket(c, first, size);
    var ok: bool := *;
    Wrapped(size, |first|, |LineOf(size)|);
    status := RequestPacketSend(c, packet, more, ok);
    if status == NX_SUCCESS {
      SendingFirst(c, pieces, base);
    }
  }

  /** Sends one chunk in any packets that have its data, up to the first one that is refused. */
  method SendChunk(c: Sender, pieces: seq<Piece>, size: nat) returns (status: Status)
    requires pieces != [] && size == |Text(pieces)| < UINT_RANGE
    modifies c
    ensures status == NX_SUCCESS || status == NX_NOT_CONNECTED || status == NX_INVALID_PACKET
    ensures status == NX_INVALID_PACKET <==> !Passes(pieces)
    ensures status == NX_INVALID_PACKET ==> c.sent == old(c.sent)
    ensures status == NX_SUCCESS ==> c.sent == old(c.sent) + ChunkSent(pieces)
    ensures old(c.sent) <= c.sent <= old(c.sent) + ChunkSent(pieces)
  {
    hide Sending, ChunkSent, Text, Packet.Bytes, Passes;
    ghost var base := c.sent;
    ghost var all := base + ChunkSent(pieces);
    status := SendFirst(c, pieces[0].more, pieces[0].data, size, pieces);
    if status != NX_SUCCESS {
      return;
    }
    var k := 1;
    while k < |pieces|
      invariant 1 <= k <= |pieces| && base <= c.sent && Sending(c, all, pieces[k..]) && status == NX_SUCCESS
    {
      assert pieces[k..][1..] == pieces[k + 1..];
      SentSoFar(c, all, pieces[k..]);
      var packet := PacketOf(pieces[k].data);
      status := SendPiece(c, packet, pieces[k].more, all, pieces[k..]);
      if status != NX_SUCCESS {
        return;
      }
      k := k + 1;
    }
    assert pieces[k..] == [];
    SentAll(c, all);
  }

  lemma SentSoFar(c: Sender, all: seq<Byte>, left: seq<Piece>)
    requires Sending(c, all, left)
    ensures c.sent <= all
  {
  }

  method PacketOf(data: seq<Byte>) returns (packet: Packet)
    ensures fresh(packet) && Single(packet) && packet.Bytes() == data
  {
    packet := new Packet(data);
  }

  lemma SentAll(c: Sender, all: seq<Byte>)
    requires Sending(c, all, [])
    ensures c.sent == all
  {
    assert c.sent + [] == c.sent;
  }

  // ---------------------------------------------------------------- a whole body

  /** Chunks, each in at least one packet, of sizes that 32 bits hold. */
  predicate Chunks(chunks: seq<seq<Piece>>) {
    forall i :: 0 <= i < |chunks| ==> chunks[i] != [] && |Text(chunks[i])| < UINT_RANGE
  }

  /** What sending a body puts on the wire. */
  function BodySent(chunks: seq<seq<Piece>>): seq<Byte>
    requires Chunks(chunks)
  {
    if chunks == [] then [] else ChunkSent(chunks[0]) + BodySent(chunks[1..])
  }

  /** The data of a body. */
  function Datas(chunks: seq<seq<Piece>>): seq<Byte> {
    if chunks == [] then [] else Text(chunks[0]) + Datas(chunks[1..])
  }

  /** Sends a body chunk after chunk, up to the first packet that is refused. */
  method SendBody(c: Sender, chunks: seq<seq<Piece>>, sizes: seq<nat>) returns (status: Status)
    requires Chunks(chunks)
    requires |sizes| == |chunks| && forall i :: 0 <= i < |chunks| ==> sizes[i] == |Text(chunks[i])|
    modifies c
    ensures status == NX_SUCCESS || status == NX_NOT_CONNECTED || status == NX_INVALID_PACKET
    ensures status == NX_SUCCESS ==>
      c.sent == old(c.sent) + BodySent(chunks) && forall i :: 0 <= i < |chunks| ==> Passes(chunks[i])
    ensures status == NX_INVALID_PACKET ==> exists i :: 0 <= i < |chunks| && !Passes(chunks[i])
    ensures old(c.sent) <= c.sent <= old(c.sent) + BodySent(chunks)
  {
    hide ChunkSent, Text, Passes;
    ghost var base := c.sent;
    ghost var all := base + BodySent(chunks);
    status := NX_SUCCESS;
    var k := 0;
    while k < |chunks|
      invariant k <= |chunks| && base <= c.sent && c.sent + BodySent(chunks[k..]) == all && status == NX_SUCCESS
      invariant forall i :: 0 <= i < k ==> Passes(chunks[i])
    {
      assert chunks[k..][1..] == chunks[k + 1..];
      Assoc(c.sent, ChunkSent(chunks[k]), BodySent(chunks[k + 1..]));
      status := SendChunk(c, chunks[k], sizes[k]);
      if status != NX_SUCCESS {
        return;
      }
      k := k + 1;
    }
    assert c.sent + [] == c.sent;
  }

  lemma ChunkOfValid(data: seq<Byte>)
    requires |data| < UINT_RANGE
    ensures ValidChunk(ChunkOf(data)) && AcceptedChunk(ChunkOf(data)) && ChunkOf(data).data == data
  {
    SizeTextIsExact(|data|);
    hide SizeText, HexValue;
    assert |data| % UINT_RANGE == |data|;
  }

  /** The decoder on one chunk: its data, and then whatever the packets sent behind the end of the chunk. */
  lemma {:induction false} SentChunkDecodes(pieces: seq<Piece>, rest: seq<Byte>)
    requires pieces != [] && |Text(pieces)| < UINT_RANGE
    ensures var data, after := Text(pieces), After(Ends(pieces)) + rest;
      Decode(0, ChunkSent(pieces) + rest) == if data == [] then Done([], after) else Prepend(data, Decode(0, after))
  {
    var data, flags := Text(pieces), Ends(pieces);
    var after := After(flags) + rest;
    var c := ChunkOf(data);
    ChunkOfValid(data);
    assert ChunkSent(pieces) + rest == Write(c) + after by {
      var front := LineOf(|data|) + data;
      assert Write(c) == front + CRLF && Tail(flags) == CRLF + After(flags);
      hide *;
      TailText(front, After(flags), rest);
    }
    hide Text, Ends, Tail, LineOf, ChunkOf, ChunkSent, Write, AcceptedChunk;
    if data == [] {
      ChunkLine(c, after);
      ZeroChunk(Write(c) + after, after);
    } else {
      ChunkDecodes(c, after);
    }
  }

  lemma TailText(front: seq<Byte>, after: seq<Byte>, rest: seq<Byte>)
    ensures front + (CRLF + after) + rest == front + CRLF + (after + rest)
  {
  }

  lemma {:induction false} ZeroChunk(s: seq<Byte>, after: seq<Byte>)
    requires SizeLine(s, 0, false) == Line(0, [] + CRLF + after)
    ensures Decode(0, s) == Done([], after)
  {
    var rest := [] + CRLF + after;
    assert rest[0] == CR && rest[1] == LF && rest[2..] == after;
  }

  /** An end of a chunk where a size line is due is taken for a last chunk. */
  lemma {:induction false} ExtraEndDecodes(rest: seq<Byte>)
    ensures Decode(0, CRLF + rest) == match EndOfChunk(rest, 0)
      case Ended => Done([], rest[2..])
      case NotEnded => Malformed
      case Cut => Truncated
  {
    var s := CRLF + rest;
    assert s[0] == CR && s[1..][0] == LF && s[1..][1..] == rest;
    assert SizeLine(s, 0, false) == Line(0, rest);
  }

  lemma {:induction false} LastChunkDecodes(rest: seq<Byte>)
    ensures Decode(0, LAST_CHUNK + rest) == Done([], rest)
  {
    var last := Chunk([HexChar(0)], [], []);
    SizeTextIsExact(0);
    assert Write(last) == LAST_CHUNK && AcceptedChunk(last);
    ChunkLine(last, rest);
    ZeroChunk(LAST_CHUNK + rest, rest);
  }

  lemma {:induction false} DecodeConsumes(s: seq<Byte>)
    ensures Decode(0, s).Done? ==> |Decode(0, s).rest| < |s|
  {
    if Decode(0, s).Done? {
      var cs, last := DecodedBody(s);
    }
  }

  /** A chunk that another one may follow: some data, and the packet that completes it says so and is its last. */
  predicate Continues(pieces: seq<Piece>)
    requires pieces != []
  {
    Text(pieces) != [] && Ends(pieces) == [true]
  }

  /**
   A chunk that ends the body: some data, and the packet that completes it says that nothing follows; or a chunk
   without data that a single packet completes; or, in place of the last chunk, two more empty packets.
   */
  predicate Finishes(pieces: seq<Piece>)
    requires pieces != []
  {
    if Text(pieces) == [] then Ends(pieces) == [true]
    else !Ends(pieces)[0] || Ends(pieces) == [true, true, true]
  }

  predicate WellSent(chunks: seq<seq<Piece>>)
    requires Chunks(chunks)
  {
    && chunks != []
    && (forall i :: 0 <= i < |chunks| - 1 ==> Continues(chunks[i]))
    && Finishes(chunks[|chunks| - 1])
  }

  lemma WellSentMore(chunks: seq<seq<Piece>>)
    requires Chunks(chunks) && |chunks| > 1
    ensures WellSent(chunks) <==> Continues(chunks[0]) && WellSent(chunks[1..])
  {
    hide Continues, Finishes;
    var rest := chunks[1..];
    assert forall i :: 0 <= i < |rest| ==> rest[i] == chunks[i + 1];
    if Continues(chunks[0]) && WellSent(rest) {
      forall i | 0 <= i < |chunks| - 1
        ensures Continues(chunks[i])
      {
        if i > 0 {
          assert chunks[i] == rest[i - 1];
        }
      }
    }
  }

  /** What is sent starts with a digit. */
  lemma {:induction false} SentStarts(chunks: seq<seq<Piece>>, rest: seq<Byte>)
    requires Chunks(chunks) && chunks != []
    ensures var s := BodySent(chunks) + rest;
      |s| > |rest| && s[0] != CR
  {
    var text := SizeText(|Text(chunks[0])|);
    assert IsHexDigit(text[0]);
    hide SizeText, Text, Tail, Ends;
    assert ChunkSent(chunks[0])[0] == text[0];
  }

  lemma PrependInjective(b: seq<Byte>, d: Decoded, content: seq<Byte>, rest: seq<Byte>)
    ensures Prepend(b, d) == Done(b + content, rest) <==> d == Done(content, rest)
  {
    if d.Done? {
      assert (b + d.content)[|b|..] == d.content && (b + content)[|b|..] == content;
    }
  }

  lemma AfterNothing(flags: seq<bool>, rest: seq<Byte>)
    requires flags != []
    ensures After(flags) == [] <==> flags == [true]
    ensures |After(flags) + rest| == |rest| <==> flags == [true]
  {
    assert |flags| == 1 && flags[0] ==> flags == [true];
  }

  /** How the ends that several packets send lie one after the other. */
  lemma AfterMore(flags: seq<bool>, rest: seq<Byte>)
    requires |flags| > 1 && flags[0]
    ensures After(flags) + rest == CRLF + (After(flags[1..]) + rest)
    ensures !flags[1] ==> After(flags[1..]) == LAST_CHUNK
    ensures flags[1] && |flags| == 2 ==> After(flags[1..]) + rest == rest
    ensures flags[1] && |flags| > 2 ==> After(flags[1..]) + rest == CRLF + (After(flags[2..]) + rest)
  {
    Assoc(CRLF, After(flags[1..]), rest);
    if |flags| > 2 {
      assert flags[1..][1..] == flags[2..];
      Assoc(CRLF, After(flags[2..]), rest);
    }
  }

  /** What the decoder makes of the ends that several packets behind the end of a chunk send. */
  lemma {:induction false} ExtraEnds(flags: seq<bool>, rest: seq<Byte>)
    requires |flags| > 1 && flags[0]
    ensures !flags[1] ==> Decode(0, After(flags) + rest) == Malformed
    ensures flags[1] && |flags| == 2 ==>
      && Decode(0, After(flags) + rest) != Done([], rest)
      && (rest != [] && rest[0] != CR ==> Decode(0, After(flags) + rest) == Malformed)
    ensures flags[1] && |flags| > 2 ==> Decode(0, After(flags) + rest) == Done([], After(flags[2..]) + rest)
  {
    AfterMore(flags, rest);
    var extra := After(flags[1..]) + rest;
    hide After;
    ExtraEndDecodes(extra);
    hide Decode;
    if flags[1] && |flags| > 2 {
      var tail := After(flags[2..]) + rest;
      assert extra[0] == CR && extra[1] == LF && extra[2..] == tail;
    }
  }

  /** What follows the data of a chunk decodes to the end of the body, without any bytes left of it. */
  lemma {:induction false} EndDecodes(flags: seq<bool>, rest: seq<Byte>)
    requires flags != []
    ensures Decode(0, After(flags) + rest) == Done([], rest) <==> !flags[0] || flags == [true, true, true]
  {
    if !flags[0] {
      LastChunkDecodes(rest);
    } else if flags == [true] {
      assert After(flags) + rest == rest;
      DecodeConsumes(rest);
    } else {
      ExtraEnds(flags, rest);
      hide Decode;
      if flags[1] && |flags| > 2 {
        AfterNothing(flags[2..], rest);
        assert [] + rest == rest && (flags == [true, true, true] <==> flags[2..] == [true]);
      }
    }
  }

  /** More chunks behind a chunk that another one may not follow: decoding does not reach their end. */
  lemma {:induction false} MoreBehind(flags: seq<bool>, s: seq<Byte>, content: seq<Byte>, rest: seq<Byte>)
    requires flags != [] && |s| > |rest| && s[0] != CR
    ensures flags != [true] ==> Decode(0, After(flags) + s) != Done(content, rest)
  {
    if !flags[0] {
      LastChunkDecodes(s);
    } else if |flags| > 1 {
      ExtraEnds(flags, s);
      hide Decode;
      if flags[1] && |flags| > 2 {
        assert |After(flags[2..]) + s| > |rest|;
      }
    } else {
      assert flags == [true];
    }
  }

  /**
   Encoder and decoder undo each other, for every way of cutting data into chunks and chunks into packets, if and only
   if the packets say truly whether more follows, and none of them comes between the one that completes a chunk and the
   next chunk. Nothing behind the body is touched then.
   */
  lemma {:induction false} RoundTrip(chunks: seq<seq<Piece>>, rest: seq<Byte>)
    requires Chunks(chunks)
    ensures Decode(0, BodySent(chunks) + rest) == Done(Datas(chunks), rest) <==> WellSent(chunks)
  {
    if chunks == [] {
      assert [] + rest == rest;
      DecodeConsumes(rest);
    } else {
      var s := BodySent(chunks[1..]) + rest;
      var data, flags := Text(chunks[0]), Ends(chunks[0]);
      Assoc(ChunkSent(chunks[0]), BodySent(chunks[1..]), rest);
      SentChunkDecodes(chunks[0], s);
      PrependInjective(data, Decode(0, After(flags) + s), Datas(chunks[1..]), rest);
      hide Decode, ChunkSent, Ends, Text;
      if |chunks| == 1 {
        assert s == rest && Datas(chunks[1..]) == [] && data + [] == data;
        EndDecodes(flags, rest);
        assert After(flags) == [] <==> flags == [true];
      } else {
        WellSentMore(chunks);
        SentStarts(chunks[1..], rest);
        if flags == [true] {
          assert After(flags) + s == s;
          RoundTrip(chunks[1..], rest);
        } else {
          MoreBehind(flags, s, Datas(chunks[1..]), rest);
        }
      }
    }
  }

  /**
   The way to lose a body: a chunk complete in one packet, then an empty packet, then another chunk. The empty packet
   sends a second CRLF, the decoder takes it for a last chunk, and rejects what follows.
   */
  lemma {:induction false} EmptyPacketBreaksBody(data: seq<Byte>, chunks: seq<seq<Piece>>, rest: seq<Byte>)
    requires data != [] && |data| < UINT_RANGE && Chunks(chunks) && chunks != []
    ensures var chunk := [Piece(data, true), Piece([], true)];
      Chunks([chunk] + chunks) && Decode(0, BodySent([chunk] + chunks) + rest) == Malformed
  {
    var chunk := [Piece(data, true), Piece([], true)];
    var all := [chunk] + chunks;
    assert Text(chunk[1..]) == [] && Text(chunk) == data + Text(chunk[1..]);
    var flags := Ends(chunk);
    assert flags == [true, true];
    assert all[1..] == chunks;
    assert Chunks(all) by {
      hide Text;
    }
    hide Text, Ends, ChunkSent;
    var s := BodySent(chunks) + rest;
    Assoc(ChunkSent(chunk), BodySent(chunks), rest);
    SentChunkDecodes(chunk, s);
    SentStarts(chunks, rest);
    ExtraEnds(flags, s);
  }
}
