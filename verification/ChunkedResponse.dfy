/** Reading a chunked response out of packet chains. */
module ChunkedResponse {
  import opened Bytes
  import opened Packets
  import opened HttpClient
  import opened ChunkCoding

  /** The unread bytes of a chain whose first packet is read up to `pos`. */
  ghost function Unread(tail: seq<Packet>, pos: nat): seq<Byte>
    reads tail`memory, tail`prependPtr, tail`appendPtr
  {
    if tail == [] then [] else tail[0].BytesFrom(pos) + ChainBytes(tail[1..])
  }

  /** A position in the first packet of a chain whose later packets all hold bytes. */
  ghost predicate At(cur: Packet?, pos: nat, tail: seq<Packet>)
    reads tail
  {
    && tail != [] && cur == tail[0] && Linked(tail) && Full(tail[1..])
    && tail[0].prependPtr <= pos <= tail[0].appendPtr
  }

  /**
   The read cursor: `cur` and `pos` point at the next byte while `remainingSize` counts the unread bytes
   of the chain `tail` that starts at `cur`. That chain is the held one, or, when nothing is held, part of
   the packets in transit to the caller.
   */
  ghost predicate Cursor(c: Client, cur: Packet?, pos: nat, tail: seq<Packet>, transit: set<Packet>)
    reads c`responsePacket, c`held, c`handed, c`released, c`arrived, c`network, c`remainingSize, c.held, tail
  {
    && Connected(c, transit)
    && (c.remainingSize > 0 ==>
          && At(cur, pos, tail)
          && |Unread(tail, pos)| == c.remainingSize
          && (if c.held == [] then Nodes(tail) <= transit else c.held == tail))
  }

  /** All bytes still to be read: those behind the cursor, then those the network will deliver. */
  ghost function Stream(c: Client, pos: nat, tail: seq<Packet>): seq<Byte>
    reads c`remainingSize, c`network, tail
  {
    (if c.remainingSize > 0 then Unread(tail, pos) else []) + NetBytes(c.network)
  }

  /** Gives the held chain back. */
  method ReleaseHeld(c: Client, ghost transit: set<Packet>)
    requires Connected(c, transit)
    modifies c`responsePacket, c`held, c`released
    ensures Connected(c, transit) && c.held == []
  {
    if c.responsePacket != null {
      Release(c, c.responsePacket, c.held);
      c.responsePacket, c.held := null, [];
    }
  }

  /** Gives the held chain back and receives the next one. */
  method NextChain(c: Client, ghost transit: set<Packet>) returns (status: Status)
    requires Connected(c, transit)
    requires c.remainingSize == 0
    modifies c`remainingSize, c`responsePacket, c`network, c`held, c`arrived, c`released
    ensures Connected(c, transit)
    ensures old(c.network) == [] ==>
      status == NX_NOT_CONNECTED && c.held == [] && c.network == [] && c.remainingSize == 0
    ensures old(c.network) != [] ==>
      && status == NX_SUCCESS && c.network == old(c.network)[1..]
      && c.held != [] && fresh(c.held) && Full(c.held[1..])
      && ChainBytes(c.held) == Flatten(old(c.network)[0]) && c.remainingSize == |ChainBytes(c.held)|
  {
    hide Linked, Full, ChainBytes, Flatten, NetOk, HoldsParts, Partition;
    ReleaseHeld(c, transit);
    ghost var chain, arrived := [], c.arrived;
    assert Nodes([]) == {};
    status, c.responsePacket, chain := Receive(c);
    c.held := chain;
    if status == NX_SUCCESS {
      assert Nodes(chain) !! arrived;
      NewArrivals(Nodes(chain), transit, c.handed, c.released, arrived);
      c.remainingSize := c.responsePacket.length;
    }
  }

  lemma NewArrivals(chain: set<Packet>, transit: set<Packet>, handed: set<Packet>, released: set<Packet>,
      arrived: set<Packet>)
    requires Partition({}, transit, handed, released, arrived) && chain !! arrived
    ensures Partition(chain, transit, handed, released, arrived + chain)
  {
  }

  /** Receives until the client holds unread bytes, giving every exhausted chain back. */
  method Refill(c: Client, cur: Packet?, pos: nat, ghost tail: seq<Packet>, ghost transit: set<Packet>)
    returns (status: Status, cur': Packet?, pos': nat, ghost tail': seq<Packet>)
    requires Cursor(c, cur, pos, tail, transit)
    modifies c`remainingSize, c`responsePacket, c`network, c`held, c`arrived, c`released
    ensures forall p :: p in c.held ==> p in old(c.held) || fresh(p)
    ensures Cursor(c, cur', pos', tail', transit)
    ensures Stream(c, pos', tail') == old(Stream(c, pos, tail))
    ensures status == if old(Stream(c, pos, tail)) == [] then NX_NOT_CONNECTED else NX_SUCCESS
    ensures status == NX_SUCCESS <==> c.remainingSize > 0
    ensures status == NX_SUCCESS ==> Took(old(c.network), c.network, |Stream(c, pos', tail')| - 1)
    ensures old(c.remainingSize) > 0 ==>
      && cur' == cur && pos' == pos && tail' == tail
      && c.held == old(c.held) && c.responsePacket == old(c.responsePacket) && c.network == old(c.network)
    ensures old(c.remainingSize) == 0 && status == NX_SUCCESS ==>
      c.held == tail' && pos' == tail'[0].prependPtr && fresh(c.held)
  {
    hide *;
    status, cur', pos', tail' := NX_SUCCESS, cur, pos, tail;
    ghost var s, net := Stream(c, pos, tail), c.network;
    StreamShape(c, cur, pos, tail, transit);
    TookNothing(net, |s| - 1);
    while c.remainingSize == 0
      invariant Cursor(c, cur', pos', tail', transit) && Stream(c, pos', tail') == s
      invariant forall p :: p in c.held ==> p in old(c.held) || fresh(p)
      invariant status == NX_SUCCESS && Took(net, c.network, |s| - 1)
      invariant old(c.remainingSize) > 0 ==>
        && s != []
        && cur' == cur && pos' == pos && tail' == tail && c.remainingSize == old(c.remainingSize)
        && c.held == old(c.held) && c.responsePacket == old(c.responsePacket) && c.network == old(c.network)
      invariant old(c.remainingSize) == 0 && c.remainingSize > 0 ==>
        s != [] && c.held == tail' && tail' != [] && pos' == tail'[0].prependPtr && fresh(c.held)
      decreases |c.network|
    {
      StreamShape(c, cur', pos', tail', transit);
      status, cur', pos', tail' := RefillOnce(c, transit, net, |s| - 1);
      StreamShape(c, cur', pos', tail', transit);
      if status != NX_SUCCESS {
        return;
      }
    }
  }

  /** The stream is not empty with bytes at hand, and otherwise what the network delivers. */
  lemma StreamShape(c: Client, cur: Packet?, pos: nat, tail: seq<Packet>, transit: set<Packet>)
    requires Cursor(c, cur, pos, tail, transit)
    ensures if c.remainingSize > 0 then Stream(c, pos, tail) != [] else Stream(c, pos, tail) == NetBytes(c.network)
    ensures c.remainingSize == 0 && c.network == [] ==> Stream(c, pos, tail) == []
    ensures Connected(c, transit)
  {
    assert [] + NetBytes(c.network) == NetBytes(c.network);
  }

  /** Receives one chain. */
  method RefillOnce(c: Client, ghost transit: set<Packet>, ghost net: seq<seq<seq<Byte>>>, ghost n: int)
    returns (status: Status, cur: Packet?, pos: nat, ghost tail: seq<Packet>)
    requires Connected(c, transit) && c.remainingSize == 0
    requires Took(net, c.network, n) && n < |NetBytes(c.network)|
    modifies c`remainingSize, c`responsePacket, c`network, c`held, c`arrived, c`released
    ensures Cursor(c, cur, pos, tail, transit) && Stream(c, pos, tail) == NetBytes(old(c.network))
    ensures forall p :: p in c.held ==> fresh(p)
    ensures status == if old(c.network) == [] then NX_NOT_CONNECTED else NX_SUCCESS
    ensures status != NX_SUCCESS ==> c.remainingSize == 0 && c.network == []
    ensures status == NX_SUCCESS ==> |c.network| < |old(c.network)| && Took(net, c.network, n)
    ensures c.remainingSize > 0 ==>
      c.held == tail && tail != [] && pos == tail[0].prependPtr && fresh(c.held)
  {
    hide Linked, Full, Owned, NetOk, NetBytes, ChainBytes, Flatten, Unread, Took;
    NetBytesStep(c.network);
    ghost var all, left := NetBytes(c.network), c.network;
    assert [] + all == all;
    status := NextChain(c, transit);
    cur, pos, tail := null, 0, [];
    if status == NX_SUCCESS {
      tail, cur, pos := c.held, c.responsePacket, c.responsePacket.prependPtr;
      WholeUnread(tail);
      TookOne(left, n);
      TookMore(net, left, c.network, n, n);
    }
  }

  lemma {:induction false} NetBytesStep(net: seq<seq<seq<Byte>>>)
    ensures NetBytes(net) == if net == [] then [] else Flatten(net[0]) + NetBytes(net[1..])
  {
  }

  lemma {:induction false} WholeUnread(tail: seq<Packet>)
    requires tail != [] && Linked(tail)
    ensures Unread(tail, tail[0].prependPtr) == ChainBytes(tail) && tail[0].Valid()
  {
  }

  /** Gives the first packet of the held chain back and keeps the others. */
  method DropHead(c: Client, ghost transit: set<Packet>)
    requires Connected(c, transit) && |c.held| > 1
    modifies c`responsePacket, c`held, c`released, c.responsePacket`next
    ensures Connected(c, transit)
    ensures c.held == old(c.held)[1..]
  {
    var head := c.responsePacket;
    LinkedSuffix(c.held, 1);
    assert c.held[0].next == c.held[1];
    c.responsePacket, c.held := head.next, c.held[1..];
    assert Linked(c.held);
    head.next := null;
    assert Linked(c.held);
    Release(c, head, [head]);
  }

  /** At the end of a packet the unread bytes are those of the packets behind it. */
  lemma PacketEnd(cur: Packet, tail: seq<Packet>)
    requires At(cur, cur.appendPtr, tail) && |Unread(tail, cur.appendPtr)| > 0
    ensures |tail| > 1 && cur.next == tail[1] && tail[1].prependPtr < tail[1].appendPtr
    ensures At(tail[1], tail[1].prependPtr, tail[1..])
    ensures Unread(tail[1..], tail[1].prependPtr) == Unread(tail, cur.appendPtr)
    ensures Nodes(tail[1..]) <= Nodes(tail)
  {
    LinkedSuffix(tail, 1);
    assert tail[0].next == if |tail| > 1 then tail[1] else null;
    assert ChainBytes(tail[1..]) != [];
    LinkedSuffix(tail[1..], 1);
  }

  /** Moves the cursor from the end of a packet to the next packet; a held packet read to its end is given back. */
  method NextPacket(c: Client, cur: Packet, ghost tail: seq<Packet>, ghost transit: set<Packet>)
    returns (status: Status, cur': Packet, pos': nat, ghost tail': seq<Packet>)
    requires Cursor(c, cur, cur.appendPtr, tail, transit) && c.remainingSize > 0
    modifies c`responsePacket, c`held, c`released
    modifies if c.responsePacket == null then {} else {c.responsePacket}
    ensures forall p :: p in c.held ==> p in old(c.held)
    ensures status == NX_SUCCESS
    ensures Cursor(c, cur', pos', tail', transit)
    ensures |tail| > 1 && tail' == tail[1..] && pos' < cur'.appendPtr
    ensures Unread(tail', pos') == old(Unread(tail, cur.appendPtr))
    ensures c.held == [] <==> old(c.held) == []
  {
    hide Owned, Distinct, NetOk, ChainBytes, Unread, Linked;
    PacketEnd(cur, tail);
    status, cur', pos', tail' := NX_SUCCESS, cur, 0, tail;
    if cur.next == null {
      status := NX_INVALID_PACKET;
      return;
    }
    cur', tail' := cur.next, tail[1..];
    pos' := cur'.prependPtr;
    if c.responsePacket != null {
      ghost var u := Unread(tail', pos');
      assert c.responsePacket !in tail' by { DistinctHead(tail); }
      DropHead(c, transit);
      assert At(cur', pos', tail') && Unread(tail', pos') == u;
    }
  }

  lemma DistinctHead(c: seq<Packet>)
    requires c != [] && Linked(c)
    ensures c[0] !in c[1..]
  {
  }

  lemma UnreadStep(tail: seq<Packet>, pos: nat)
    requires tail != [] && tail[0].Valid() && pos < tail[0].appendPtr
    ensures Unread(tail, pos) == [tail[0].memory[pos]] + Unread(tail, pos + 1)
  {
    BytesStep(tail[0], pos);
    Assoc([tail[0].memory[pos]], tail[0].BytesFrom(pos + 1), ChainBytes(tail[1..]));
  }

  lemma CursorStep(c: Client, cur: Packet, pos: nat, tail: seq<Packet>, transit: set<Packet>)
    requires Cursor(c, cur, pos, tail, transit) && c.remainingSize > 0 && pos < cur.appendPtr
    ensures At(cur, pos + 1, tail) && |Unread(tail, pos + 1)| == c.remainingSize - 1
    ensures Stream(c, pos, tail) == [cur.memory[pos]] + (Unread(tail, pos + 1) + NetBytes(c.network))
  {
    UnreadStep(tail, pos);
    Assoc([cur.memory[pos]], Unread(tail, pos + 1), NetBytes(c.network));
  }

  /** Takes the byte under the cursor. */
  method TakeByte(c: Client, cur: Packet, pos: nat, ghost tail: seq<Packet>, ghost transit: set<Packet>)
    returns (data: Byte, pos': nat)
    requires Cursor(c, cur, pos, tail, transit) && c.remainingSize > 0 && pos < cur.appendPtr
    modifies c`remainingSize
    ensures Cursor(c, cur, pos', tail, transit) && At(cur, pos', tail)
    ensures old(Stream(c, pos, tail)) == [data] + Stream(c, pos', tail)
  {
    hide Linked, Owned, NetOk, ChainBytes, Full;
    CursorStep(c, cur, pos, tail, transit);
    data, pos' := cur.memory[pos], pos + 1;
    c.remainingSize := c.remainingSize - 1;
  }

  lemma Readable(c: Client, cur: Packet?, pos: nat, tail: seq<Packet>, transit: set<Packet>)
    requires Cursor(c, cur, pos, tail, transit) && c.remainingSize > 0
    ensures cur != null && pos <= cur.appendPtr && tail != [] && |Unread(tail, pos)| == c.remainingSize
    ensures if c.held == [] then c.responsePacket == null else c.responsePacket == c.held[0] == tail[0]
  {
    hide Unread, Linked, Owned, NetOk;
  }

  /** Puts the cursor on an unread byte. */
  method SeekByte(c: Client, cur: Packet?, pos: nat, ghost tail: seq<Packet>, ghost transit: set<Packet>)
    returns (status: Status, cur': Packet?, pos': nat, ghost tail': seq<Packet>)
    requires Cursor(c, cur, pos, tail, transit)
    modifies c`remainingSize, c`responsePacket, c`network, c`held, c`arrived, c`released
    modifies if c.responsePacket == null then {} else {c.responsePacket}
    ensures forall p :: p in c.held ==> p in old(c.held) || fresh(p)
    ensures Cursor(c, cur', pos', tail', transit)
    ensures status == if old(Stream(c, pos, tail)) == [] then NX_NOT_CONNECTED else NX_SUCCESS
    ensures Stream(c, pos', tail') == old(Stream(c, pos, tail))
    ensures status == NX_SUCCESS ==> c.remainingSize > 0 && cur' != null && pos' < cur'.appendPtr
    ensures status == NX_SUCCESS ==> Took(old(c.network), c.network, |Stream(c, pos', tail')| - 1)
    ensures status == NX_SUCCESS && c.held == [] ==>
      && c.network == old(c.network) && c.remainingSize == old(c.remainingSize) > 0 && old(c.held) == []
      && tail != [] && (tail' == tail || tail' == tail[1..])
  {
    hide Cursor, Connected, Linked, Owned, Distinct, NetOk, NetBytes, ChainBytes, Unread, Took, Full, Nodes;
    if c.remainingSize > 0 {
      Readable(c, cur, pos, tail, transit);
    }
    status, cur', pos', tail' := Refill(c, cur, pos, tail, transit);
    if status != NX_SUCCESS {
      return;
    }
    Readable(c, cur', pos', tail', transit);
    if cur' == null {
      status := NX_INVALID_PACKET;
      return;
    }
    if pos' == cur'.appendPtr {
      status, cur', pos', tail' := NextPacket(c, cur', tail', transit);
    }
  }

  /** Reads the next byte. */
  method ResponseRead(c: Client, cur: Packet?, pos: nat, ghost tail: seq<Packet>, ghost transit: set<Packet>)
    returns (status: Status, data: Byte, cur': Packet?, pos': nat, ghost tail': seq<Packet>)
    requires Cursor(c, cur, pos, tail, transit)
    modifies c`remainingSize, c`responsePacket, c`network, c`held, c`arrived, c`released
    modifies if c.responsePacket == null then {} else {c.responsePacket}
    ensures forall p :: p in c.held ==> p in old(c.held) || fresh(p)
    ensures Cursor(c, cur', pos', tail', transit)
    ensures status == if old(Stream(c, pos, tail)) == [] then NX_NOT_CONNECTED else NX_SUCCESS
    ensures status == NX_SUCCESS ==> old(Stream(c, pos, tail)) == [data] + Stream(c, pos', tail')
    ensures status == NX_SUCCESS ==> At(cur', pos', tail')
    ensures status == NX_SUCCESS ==> Took(old(c.network), c.network, |Stream(c, pos', tail')|)
    ensures status == NX_SUCCESS && c.held != [] ==> c.held == tail'
    ensures status == NX_SUCCESS && c.held == [] ==>
      && c.network == old(c.network) && c.remainingSize == old(c.remainingSize) - 1 && old(c.held) == []
      && tail != [] && (tail' == tail || tail' == tail[1..])
  {
    hide Owned, Linked, Full, Distinct, NetOk, NetBytes, ChainBytes, Unread, Took;
    data := 0;
    status, cur', pos', tail' := SeekByte(c, cur, pos, tail, transit);
    if status == NX_SUCCESS {
      data, pos' := TakeByte(c, cur', pos', tail', transit);
    }
  }

  /** Reads the next byte and compares it. */
  method ByteExpect(c: Client, expected: Byte, cur: Packet?, pos: nat, ghost tail: seq<Packet>,
      ghost transit: set<Packet>)
    returns (status: Status, cur': Packet?, pos': nat, ghost tail': seq<Packet>)
    requires Cursor(c, cur, pos, tail, transit)
    modifies c`remainingSize, c`responsePacket, c`network, c`held, c`arrived, c`released
    modifies if c.responsePacket == null then {} else {c.responsePacket}
    ensures forall p :: p in c.held ==> p in old(c.held) || fresh(p)
    ensures Cursor(c, cur', pos', tail', transit)
    ensures status ==
      if old(Stream(c, pos, tail)) == [] then NX_NOT_CONNECTED
      else if old(Stream(c, pos, tail))[0] != expected then NX_NOT_FOUND
      else NX_SUCCESS
    ensures status == NX_SUCCESS ==> old(Stream(c, pos, tail)) == [expected] + Stream(c, pos', tail')
    ensures status == NX_SUCCESS ==> At(cur', pos', tail')
    ensures status == NX_SUCCESS ==> Took(old(c.network), c.network, |Stream(c, pos', tail')|)
    ensures status == NX_SUCCESS && c.held != [] ==> c.held == tail'
    ensures status == NX_SUCCESS && c.held == [] ==>
      && c.network == old(c.network) && c.remainingSize == old(c.remainingSize) - 1 && old(c.held) == []
      && tail != [] && (tail' == tail || tail' == tail[1..])
  {
    hide Owned, Linked, Full, Distinct, NetOk, NetBytes, ChainBytes, Unread, Took;
    var data;
    status, data, cur', pos', tail' := ResponseRead(c, cur, pos, tail, transit);
    if status == NX_SUCCESS && data != expected {
      status := NX_NOT_FOUND;
    }
  }

  /** The read cursor while a size line or the end of the body is read: only held packets are under it. */
  ghost predicate HeldCursor(c: Client, cur: Packet?, pos: nat, tail: seq<Packet>)
    reads c`responsePacket, c`held, c`handed, c`released, c`arrived, c`network, c`remainingSize, c.held, tail
  {
    Cursor(c, cur, pos, tail, {}) && (c.held == [] ==> c.remainingSize == 0)
  }

  lemma CursorHeld(c: Client, cur: Packet?, pos: nat, tail: seq<Packet>)
    requires Cursor(c, cur, pos, tail, {})
    ensures HeldCursor(c, cur, pos, tail)
  {
    assert tail != [] ==> tail[0] in Nodes(tail);
  }

  /** Accounts for one byte of a size line. */
  method AddSizeByte(size: nat, chunkExtension: bool, tmp: Byte) returns (line: LineState)
    ensures line == LineStep(size, chunkExtension, tmp)
  {
    if chunkExtension && tmp != CR {
      return Reading(size, chunkExtension);
    }
    hide Shift;
    var shifted := size * 16 % UINT_RANGE;
    if 'a' as int <= tmp <= 'f' as int {
      line := Reading((shifted + 10 + (tmp - 'a' as int)) % UINT_RANGE, chunkExtension);
      ShiftWraps(size, 10 + (tmp - 'a' as int));
    } else if 'A' as int <= tmp <= 'F' as int {
      line := Reading((shifted + 10 + (tmp - 'A' as int)) % UINT_RANGE, chunkExtension);
      ShiftWraps(size, 10 + (tmp - 'A' as int));
    } else if '0' as int <= tmp <= '9' as int {
      line := Reading((shifted + (tmp - '0' as int)) % UINT_RANGE, chunkExtension);
      ShiftWraps(size, tmp - '0' as int);
    } else if tmp == CR {
      line := AtCR;
    } else if tmp == ';' as int {
      line := Reading(size, true);
    } else {
      line := Rejected;
    }
  }

  /** Reads the next byte from the held packets. */
  method ReadHeld(c: Client, cur: Packet?, pos: nat, ghost tail: seq<Packet>, ghost s: seq<Byte>)
    returns (status: Status, data: Byte, cur': Packet?, pos': nat, ghost tail': seq<Packet>)
    requires HeldCursor(c, cur, pos, tail) && s == Stream(c, pos, tail)
    modifies c`remainingSize, c`responsePacket, c`network, c`held, c`arrived, c`released
    modifies if c.responsePacket == null then {} else {c.responsePacket}
    ensures forall p :: p in c.held ==> p in old(c.held) || fresh(p)
    ensures HeldCursor(c, cur', pos', tail')
    ensures status == if s == [] then NX_NOT_CONNECTED else NX_SUCCESS
    ensures status == NX_SUCCESS ==>
      && data == s[0] && Stream(c, pos', tail') == s[1..] && At(cur', pos', tail') && c.held == tail'
      && Took(old(c.network), c.network, |s| - 1)
  {
    hide Owned, Linked, Full, Distinct, NetOk, NetBytes, ChainBytes, Unread, Took;
    status, data, cur', pos', tail' := ResponseRead(c, cur, pos, tail, {});
    CursorHeld(c, cur', pos', tail');
    if status == NX_SUCCESS {
      HeadTail(s, data, Stream(c, pos', tail'));
    }
  }

  /** Reads the next byte from the held packets and compares it. */
  method ExpectHeld(c: Client, expected: Byte, cur: Packet?, pos: nat, ghost tail: seq<Packet>, ghost s: seq<Byte>)
    returns (status: Status, cur': Packet?, pos': nat, ghost tail': seq<Packet>)
    requires HeldCursor(c, cur, pos, tail) && s == Stream(c, pos, tail)
    modifies c`remainingSize, c`responsePacket, c`network, c`held, c`arrived, c`released
    modifies if c.responsePacket == null then {} else {c.responsePacket}
    ensures forall p :: p in c.held ==> p in old(c.held) || fresh(p)
    ensures HeldCursor(c, cur', pos', tail')
    ensures status == if s == [] then NX_NOT_CONNECTED else if s[0] != expected then NX_NOT_FOUND else NX_SUCCESS
    ensures status == NX_SUCCESS ==>
      && Stream(c, pos', tail') == s[1..] && At(cur', pos', tail') && c.held == tail'
      && Took(old(c.network), c.network, |s| - 1)
  {
    hide Owned, Linked, Full, Distinct, NetOk, NetBytes, ChainBytes, Unread, Took;
    status, cur', pos', tail' := ByteExpect(c, expected, cur, pos, tail, {});
    CursorHeld(c, cur', pos', tail');
    if status == NX_SUCCESS {
      HeadTail(s, expected, Stream(c, pos', tail'));
    }
  }

  /** Reads a size line up to its carriage return. */
  method ReadSize(c: Client, cur: Packet?, pos: nat, ghost tail: seq<Packet>, ghost s: seq<Byte>)
    returns (status: Status, size: nat, cur': Packet?, pos': nat, ghost tail': seq<Packet>)
    requires HeldCursor(c, cur, pos, tail) && s == Stream(c, pos, tail)
    modifies c`remainingSize, c`responsePacket, c`network, c`held, c`arrived, c`released, c.held
    ensures forall p :: p in c.held ==> p in old(c.held) || fresh(p)
    ensures c.responsePacket != null ==> c.responsePacket in c.held
    ensures HeldCursor(c, cur', pos', tail')
    ensures status == NX_SUCCESS ==> SizeLine(s, 0, false) == LineEnd(Stream(c, pos', tail'), size)
    ensures status == NX_SUCCESS ==> Took(old(c.network), c.network, |Stream(c, pos', tail')|)
    ensures status == NX_NOT_FOUND ==> SizeLine(s, 0, false) == BadLine
    ensures status == NX_NOT_CONNECTED ==> SizeLine(s, 0, false) == OpenLine
    ensures status == NX_SUCCESS || status == NX_NOT_FOUND || status == NX_NOT_CONNECTED
  {
    hide Owned, Linked, Full, Distinct, NetOk, NetBytes, ChainBytes, Unread, LineStep, At, Took;
    size, cur', pos', tail' := 0, cur, pos, tail;
    var chunkExtension := false;
    ghost var left, net := s, c.network;
    TookNothing(net, |s|);
    while true
      invariant forall p :: p in c.held ==> p in old(c.held) || fresh(p)
      invariant c.responsePacket != null ==> c.responsePacket in c.held
      invariant HeldCursor(c, cur', pos', tail') && left == Stream(c, pos', tail')
      invariant Took(net, c.network, |left|)
      invariant SizeLine(left, size, chunkExtension) == SizeLine(s, 0, false)
      decreases |left|
    {
      var tmp;
      ghost var was := c.network;
      status, tmp, cur', pos', tail' := ReadHeld(c, cur', pos', tail', left);
      if status != NX_SUCCESS {
        return;
      }
      TookMore(net, was, c.network, |left|, |left| - 1);
      left := left[1..];
      var line := AddSizeByte(size, chunkExtension, tmp);
      if line.AtCR? {
        return;
      } else if line.Rejected? {
        status := NX_NOT_FOUND;
        return;
      }
      size, chunkExtension := line.size, line.extension;
    }
  }

  /** Reads a size line up to and including its line feed. */
  method ReadSizeLine(c: Client, cur: Packet?, pos: nat, ghost tail: seq<Packet>, ghost s: seq<Byte>)
    returns (status: Status, size: nat, cur': Packet?, pos': nat, ghost tail': seq<Packet>)
    requires HeldCursor(c, cur, pos, tail) && s == Stream(c, pos, tail)
    modifies c`remainingSize, c`responsePacket, c`network, c`held, c`arrived, c`released, c.held
    ensures forall p :: p in c.held ==> p in old(c.held) || fresh(p)
    ensures HeldCursor(c, cur', pos', tail')
    ensures match SizeLine(s, 0, false)
      case BadLine => status == NX_NOT_FOUND
      case OpenLine => status == NX_NOT_CONNECTED
      case Line(n, rest) =>
        && status == NX_SUCCESS && size == n && Stream(c, pos', tail') == rest
        && At(cur', pos', tail') && c.held == tail' && Took(old(c.network), c.network, |rest|)
  {
    hide Owned, Linked, Full, Distinct, NetOk, NetBytes, ChainBytes, Unread, SizeLine, Took;
    ghost var net := c.network;
    status, size, cur', pos', tail' := ReadSize(c, cur, pos, tail, s);
    if status == NX_SUCCESS {
      ghost var left := Stream(c, pos', tail');
      assert SizeLine(s, 0, false) == LineEnd(left, size);
      ghost var was := c.network;
      status, cur', pos', tail' := ExpectHeld(c, LF, cur', pos', tail', left);
      if status == NX_SUCCESS {
        TookMore(net, was, c.network, |left|, |left| - 1);
      }
    }
  }

  /** Finds out how many bytes of the open chunk are missing, reading the next size line when there is none. */
  method ChunkedSizeGet(c: Client, cur: Packet?, pos: nat, ghost tail: seq<Packet>)
    returns (status: Status, chunkSize: nat, cur': Packet?, pos': nat, ghost tail': seq<Packet>)
    requires HeldCursor(c, cur, pos, tail)
    requires c.actualBytesReceived <= c.totalReceiveBytes
    modifies c`remainingSize, c`responsePacket, c`network, c`held, c`arrived, c`released, c.held
    ensures forall p :: p in c.held ==> p in old(c.held) || fresh(p)
    ensures HeldCursor(c, cur', pos', tail')
    ensures status == NX_SUCCESS ==> c.remainingSize > 0
    ensures status == NX_SUCCESS ==> Took(old(c.network), c.network, |Stream(c, pos', tail')| - 1)
    ensures match OpenOf(c.totalReceiveBytes - c.actualBytesReceived, old(Stream(c, pos, tail)))
      case OpenChunk(n, rest) =>
        if rest == [] then status == NX_NOT_CONNECTED
        else status == NX_SUCCESS && chunkSize == n && Stream(c, pos', tail') == rest
      case LastChunk(rest) =>
        if rest == [] then status == NX_NOT_CONNECTED
        else status == NX_SUCCESS && chunkSize == 0 && Stream(c, pos', tail') == rest
      case NoChunk(why) => status == if why == Malformed then NX_NOT_FOUND else NX_NOT_CONNECTED
  {
    ghost var net := c.network;
    hide Cursor, Took, NetBytes, Unread, SizeLine;
    TookNothing(net, |Stream(c, pos, tail)|);
    if c.actualBytesReceived < c.totalReceiveBytes {
      status, chunkSize := NX_SUCCESS, c.totalReceiveBytes - c.actualBytesReceived;
      cur', pos', tail' := cur, pos, tail;
    } else {
      status, chunkSize, cur', pos', tail' := ReadSizeLine(c, cur, pos, tail, Stream(c, pos, tail));
      if status != NX_SUCCESS {
        return;
      }
    }
    ghost var was, left := c.network, Stream(c, pos', tail');
    status, cur', pos', tail' := Refill(c, cur', pos', tail', {});
    CursorHeld(c, cur', pos', tail');
    if status == NX_SUCCESS {
      TookMore(net, was, c.network, |left|, |left| - 1);
    }
  }

  /** Walks over the chunk's bytes; nothing is changed. */
  method SkipData(chunkSize: nat, cur: Packet, pos: nat, ghost tail: seq<Packet>)
    returns (status: Status, cur': Packet, pos': nat, ghost k: nat)
    requires At(cur, pos, tail) && chunkSize <= |Unread(tail, pos)|
    ensures status == NX_SUCCESS
    ensures k < |tail| && At(cur', pos', tail[k..])
    ensures Unread(tail[k..], pos') == Unread(tail, pos)[chunkSize..]
  {
    hide Linked, Full, ChainBytes, Unread;
    status, cur', pos', k := NX_SUCCESS, cur, pos, 0;
    var tempSize: nat := chunkSize;
    while tempSize > cur'.appendPtr - pos'
      invariant status == NX_SUCCESS
      invariant k < |tail| && At(cur', pos', tail[k..])
      invariant tempSize <= |Unread(tail[k..], pos')|
      invariant Unread(tail[k..], pos')[tempSize..] == Unread(tail, pos)[chunkSize..]
      decreases |tail| - k
    {
      NextUnread(tail[k..], pos', tempSize);
      assert tail[k..][1..] == tail[k + 1..];
      if cur'.next == null {
        status := NX_INVALID_PACKET;
        return;
      }
      tempSize := tempSize - (cur'.appendPtr - pos');
      cur', k := cur'.next, k + 1;
      pos' := cur'.prependPtr;
    }
    UnreadSkip(tail[k..], pos', tempSize);
    pos' := pos' + tempSize;
  }

  lemma NextUnread(tail: seq<Packet>, pos: nat, n: nat)
    requires tail != [] && At(tail[0], pos, tail) && tail[0].appendPtr - pos < n <= |Unread(tail, pos)|
    ensures |tail| > 1 && tail[0].next == tail[1] && At(tail[1], tail[1].prependPtr, tail[1..])
    ensures var m := n - (tail[0].appendPtr - pos);
            m <= |Unread(tail[1..], tail[1].prependPtr)|
            && Unread(tail[1..], tail[1].prependPtr)[m..] == Unread(tail, pos)[n..]
  {
    LinkedSuffix(tail, 1);
    var w, r := tail[0].BytesFrom(pos), ChainBytes(tail[1..]);
    assert |w| == tail[0].appendPtr - pos && Unread(tail, pos) == w + r;
    assert r != [];
    assert tail[0].next == tail[1] && tail[1].Valid();
    assert Unread(tail[1..], tail[1].prependPtr) == r;
    LinkedSuffix(tail[1..], 1);
    hide *;
    DropBehind(w, r, n);
  }

  lemma DropBehind(w: seq<Byte>, r: seq<Byte>, n: nat)
    requires |w| <= n <= |w + r|
    ensures (w + r)[n..] == r[n - |w|..]
  {
  }

  lemma UnreadSkip(tail: seq<Packet>, pos: nat, n: nat)
    requires tail != [] && At(tail[0], pos, tail) && n <= tail[0].appendPtr - pos
    ensures Unread(tail, pos + n) == Unread(tail, pos)[n..]
  {
    assert tail[0].BytesFrom(pos + n) == tail[0].BytesFrom(pos)[n..];
  }

  function Expected(e: Ending): Status {
    match e
    case Ended => NX_SUCCESS
    case NotEnded => NX_NOT_FOUND
    case Cut => NX_NOT_CONNECTED
  }

  /** Reads the CRLF behind the chunk's bytes, first from the packets in transit, then from new ones. */
  method ReadChunkEnd(c: Client, cur: Packet?, pos: nat, ghost tail: seq<Packet>, ghost transit: set<Packet>,
      ghost s: seq<Byte>)
    returns (status: Status, cur': Packet?, pos': nat, ghost tail': seq<Packet>, ghost k: nat)
    requires Cursor(c, cur, pos, tail, transit) && c.held == [] && s == Stream(c, pos, tail)
    modifies c`remainingSize, c`responsePacket, c`network, c`held, c`arrived, c`released
    ensures Cursor(c, cur', pos', tail', transit)
    ensures forall p :: p in c.held ==> fresh(p)
    ensures status == Expected(EndOfChunk(s, 0))
    ensures status == NX_SUCCESS ==>
      && Stream(c, pos', tail') == s[2..] && At(cur', pos', tail') && Took(old(c.network), c.network, |s| - 2)
      && (if c.held == [] then k < |tail| && tail' == tail[k..] && c.remainingSize < old(c.remainingSize)
          else c.held == tail')
  {
    hide Owned, Linked, Full, Distinct, NetOk, NetBytes, ChainBytes, Unread, Took;
    ghost var net := c.network;
    k := 0;
    status, cur', pos', tail' := ByteExpect(c, CR, cur, pos, tail, transit);
    if status != NX_SUCCESS {
      return;
    }
    ghost var s1, middle, was := Stream(c, pos', tail'), tail', c.network;
    HeadTail(s, CR, s1);
    assert c.responsePacket != null ==> c.responsePacket in c.held;
    status, cur', pos', tail' := ByteExpect(c, LF, cur', pos', tail', transit);
    if status == NX_SUCCESS {
      HeadTail(s1, LF, Stream(c, pos', tail'));
      DropDrop(s, 1, 1);
      TookMore(net, was, c.network, |s1|, |s1| - 1);
      k := if c.held == [] then |tail| - |tail'| else 0;
    }
  }

  /** Makes the cursor the start of a chain. */
  method StartAt(p: Packet, pos: nat, ghost tail: seq<Packet>)
    requires At(p, pos, tail)
    modifies p`prependPtr
    ensures At(p, pos, tail)
    ensures ChainBytes(tail) == Unread(tail, pos) == old(Unread(tail, pos))
  {
    ghost var rest := tail[1..];
    hide Links, Distinct;
    p.prependPtr := pos;
  }

  /** Takes the held chain away from the client; its first packet now starts at the cursor. */
  method TakeHeld(c: Client, pos: nat, ghost tail: seq<Packet>) returns (packet: Packet)
    requires HeldCursor(c, c.responsePacket, pos, tail) && c.remainingSize > 0
    modifies c`responsePacket, c`held, c.responsePacket`prependPtr
    ensures packet == old(c.responsePacket) && c.responsePacket == null && c.held == []
    ensures tail == old(c.held) && At(packet, pos, tail)
    ensures ChainBytes(tail) == Unread(tail, pos) == old(Unread(tail, pos))
    ensures Connected(c, Nodes(tail))
  {
    hide Links, Distinct, Unread, ChainBytes, AllValid, Full, NetOk;
    packet := c.responsePacket;
    StartAt(packet, pos, tail);
    c.responsePacket, c.held := null, [];
    EmptyChain(c.held);
  }

  lemma {:induction false} LinkedCut(out: seq<Packet>, k: nat)
    requires k < |out| && Distinct(out)
    requires forall i :: 0 <= i <= k ==> out[i].Valid()
    requires forall i {:trigger out[i].next} :: 0 <= i < k ==> out[i].next == out[i + 1]
    requires out[k].next == null
    ensures Linked(out[..k + 1])
  {
    var d := out[..k + 1];
    DistinctSplit(out, k + 1);
    forall i | 0 <= i < |d|
      ensures d[i].next == if i + 1 < |d| then d[i + 1] else null
    {
      assert d[i] == out[i];
    }
  }

  /** Cuts a chain behind its packet number `k`. */
  method CutBehind(last: Packet, ghost out: seq<Packet>, ghost k: nat)
    requires Linked(out) && k < |out| && out[k] == last
    modifies last`next
    ensures last.next == null
    ensures Linked(out[..k + 1]) && Linked(out[k + 1..]) && Nodes(out[..k + 1]) !! Nodes(out[k + 1..])
    ensures Full(out[k + 1..]) == old(Full(out[k + 1..]))
    ensures ChainBytes(out[..k + 1]) == old(ChainBytes(out[..k + 1]))
    ensures ChainBytes(out[k + 1..]) == old(ChainBytes(out[k + 1..]))
  {
    LinkedSuffix(out, k + 1);
    DistinctAt(out, k);
    DistinctSplit(out, k + 1);
    last.next := null;
    LinkedCut(out, k);
  }

  // ---------------------------------------------------------------- the state between calls

  /** The held chain has exactly `remainingSize` unread bytes, from its first window on. */
  ghost predicate InOrder(c: Client)
    reads c`responsePacket, c`held, c`network, c`remainingSize, c.held
  {
    && Holds(c) && NetOk(c.network)
    && (c.remainingSize > 0 ==> c.held != [] && Full(c.held[1..]) && |ChainBytes(c.held)| == c.remainingSize)
  }

  /** What holds between calls. */
  ghost predicate Ready(c: Client, transit: set<Packet>)
    reads c`responsePacket, c`held, c`handed, c`released, c`arrived, c`network, c`remainingSize, c.held
  {
    InOrder(c) && Owned(c, transit)
  }

  /** The bytes of the response still to come. */
  ghost function Pending(c: Client): seq<Byte>
    reads c`remainingSize, c`network, c`held, c.held
  {
    (if c.remainingSize > 0 then ChainBytes(c.held) else []) + NetBytes(c.network)
  }

  lemma RestShape(remaining: nat, cur: Packet, pos: nat, out: seq<Packet>, k: nat)
    requires Linked(out) && k < |out| && At(cur, pos, out[k..]) && |Unread(out[k..], pos)| == remaining
    ensures Linked(out[k + 1..]) && Full(out[k + 1..]) && Nodes(out[..k + 1]) !! Nodes(out[k + 1..])
    ensures out[k] == cur && Unread(out[k..], pos) == cur.BytesFrom(pos) + ChainBytes(out[k + 1..])
    ensures pos <= cur.appendPtr && cur.Valid()
    ensures if remaining > cur.appendPtr - pos then |out| > k + 1 && cur.next == out[k + 1] else |out| == k + 1
  {
    assert cur.Valid();
    hide Distinct, ChainBytes, AllValid, Full;
    LinkedSuffix(out, k + 1);
    DistinctSplit(out, k + 1);
    assert out[k..][1..] == out[k + 1..];
    FullChainHasBytes(out[k + 1..]);
    assert out[k].next == if k + 1 < |out| then out[k + 1] else null;
    if |out| == k + 1 {
      EmptyChain(out[k + 1..]);
    }
  }

  /** A packet from the pool with a copy of `bytes`, in front of the packets from `next` on. */
  method CopyInFront(bytes: seq<Byte>, next: Packet?, last: Packet?, length: nat) returns (q: Packet)
    ensures fresh(q) && q.Valid() && q.Bytes() == bytes
    ensures q.next == next && q.last == last && q.length == length
  {
    q := new Packet(bytes);
    q.next, q.last, q.length := next, last, length;
  }

  /** Copies the current packet's share, links the packets behind it to the copy, and cuts them off the old chain. */
  method MoveBehind(bytes: seq<Byte>, cur: Packet, remaining: nat, ghost out: seq<Packet>, ghost k: nat,
      ghost front: seq<Packet>, ghost rest: seq<Packet>)
    returns (q: Packet)
    requires Linked(out) && k + 1 < |out| && out[k] == cur && cur.next == out[k + 1]
    requires front == out[..k + 1] && rest == out[k + 1..]
    modifies cur`next
    ensures fresh(q) && q.Valid() && q.Bytes() == bytes && q.next == rest[0] && q.length == remaining
    ensures Linked(front) && Linked(rest) && Full(rest) == old(Full(rest))
    ensures ChainBytes(front) == old(ChainBytes(front)) && ChainBytes(rest) == old(ChainBytes(rest))
  {
    hide *;
    ghost var full, frontBytes, restBytes := Full(rest), ChainBytes(front), ChainBytes(rest);
    q := CopyInFront(bytes, cur.next, cur.last, remaining);
    assert Linked(out) && Full(rest) == full && ChainBytes(front) == frontBytes && ChainBytes(rest) == restBytes;
    CutBehind(cur, out, k);
  }

  /**
   Moves the unread bytes behind the cursor into a chain of their own: the current packet's share is copied
   into a packet from the pool, the packets behind it are linked to that one and cut off the old chain.
   */
  method SplitRest(remaining: nat, cur: Packet, pos: nat, ghost out: seq<Packet>, ghost k: nat,
      ghost front: seq<Packet>, ghost rest: seq<Packet>)
    returns (status: Status, q: Packet)
    requires Linked(out) && k < |out| && At(cur, pos, out[k..]) && |Unread(out[k..], pos)| == remaining
    requires front == out[..k + 1] && rest == out[k + 1..]
    modifies cur`next
    ensures status == NX_SUCCESS
    ensures fresh(q) && q.length == remaining
    ensures Linked([q] + rest) && Full(rest)
    ensures ChainBytes([q] + rest) == old(Unread(out[k..], pos))
    ensures Linked(front) && ChainBytes(front) == old(ChainBytes(front))
  {
    ghost var frontBytes, restBytes := ChainBytes(front), ChainBytes(rest);
    hide Linked, Distinct, Full, ChainBytes, Unread, At;
    RestShape(remaining, cur, pos, out, k);
    status := NX_SUCCESS;
    var bytes, tempSize := cur.memory[pos..cur.appendPtr], cur.appendPtr - pos;
    if remaining > tempSize {
      if cur.next == null {
        status := NX_INVALID_PACKET;
      }
      q := MoveBehind(bytes, cur, remaining, out, k, front, rest);
    } else {
      q := CopyInFront(bytes, null, null, remaining);
      assert front == out && Linked(out) && ChainBytes(front) == frontBytes;
    }
    LinkedCons(q, rest);
  }

  /** Records a new packet and the packets behind it, taken from those in transit, as the held chain. */
  method Hold(c: Client, q: Packet, ghost rest: seq<Packet>, ghost transit: set<Packet>)
    requires Connected(c, transit + Nodes(rest)) && c.held == []
    requires Linked([q] + rest)
    requires transit !! Nodes(rest) && q !in c.arrived
    modifies c`responsePacket, c`held, c`arrived
    ensures Connected(c, transit) && c.held == [q] + rest && c.held[1..] == rest
    ensures ChainBytes(c.held) == old(ChainBytes([q] + rest))
  {
    NodesAppend([q], rest);
    c.responsePacket, c.held, c.arrived := q, [q] + rest, c.arrived + {q};
  }

  lemma SuffixIn(out: seq<Packet>, k: nat)
    requires k <= |out|
    ensures forall p :: p in out[k..] ==> p in out
  {
  }

  /** The client keeps the unread bytes behind the cursor, `rest`, and no longer the packets `front` before it. */
  method KeepRest(c: Client, cur: Packet, pos: nat, ghost out: seq<Packet>, ghost k: nat,
      ghost front: seq<Packet>, ghost rest: seq<Packet>)
    returns (status: Status)
    requires Connected(c, Nodes(front) + Nodes(rest)) && Nodes(front) !! Nodes(rest) && c.held == []
    requires Linked(out) && k < |out| && At(cur, pos, out[k..]) && |Unread(out[k..], pos)| == c.remainingSize
    requires front == out[..k + 1] && rest == out[k + 1..]
    modifies c`responsePacket, c`held, c`arrived, cur`next
    ensures status == NX_SUCCESS
    ensures Linked(front) && ChainBytes(front) == old(ChainBytes(front))
    ensures Ready(c, Nodes(front)) && c.held != [] && ChainBytes(c.held) == old(Unread(out[k..], pos))
    ensures forall p :: p in c.held ==> p in rest || fresh(p)
  {
    hide Linked, Distinct, ChainBytes, Holds, At, Unread, Nodes;
    var q;
    status, q := SplitRest(c.remainingSize, cur, pos, out, k, front, rest);
    Hold(c, q, rest, Nodes(front));
  }

  lemma FrontSize(out: seq<Packet>, k: nat, pos: nat)
    requires k < |out|
    ensures |ChainBytes(out[..k + 1])| + |Unread(out[k..], pos)| >= |ChainBytes(out)|
    ensures ChainBytes(out[..k + 1]) <= ChainBytes(out)
  {
    ChainBytesSplit(out, k + 1);
    assert out[k..][1..] == out[k + 1..];
  }

  /** The newly received chain under the cursor stays with the client, without the bytes already read. */
  method AdoptRest(c: Client, pos: nat, ghost tail: seq<Packet>, ghost transit: set<Packet>)
    requires Cursor(c, c.responsePacket, pos, tail, transit) && c.held != [] && c.remainingSize > 0
    modifies c.responsePacket`prependPtr, c.responsePacket`length
    ensures Ready(c, transit) && Pending(c) == old(Stream(c, pos, tail))
  {
    hide Links, Distinct, Unread, ChainBytes, AllValid, Full, NetOk, Owned;
    c.responsePacket.length := c.remainingSize;
    StartAt(c.responsePacket, pos, tail);
  }

  /** Keeps what was received behind the end of a chunk for the next call. */
  method KeepUnread(c: Client, cur: Packet?, pos: nat, ghost tail: seq<Packet>, ghost out: seq<Packet>, ghost k: nat)
    returns (status: Status, ghost front: seq<Packet>)
    requires Cursor(c, cur, pos, tail, Nodes(out)) && At(cur, pos, tail)
    requires Linked(out) && out != []
    requires if c.held == [] then k < |out| && tail == out[k..] else c.held == tail
    modifies c`responsePacket, c`held, c`arrived
    modifies if c.held == [] then {cur} else {c.responsePacket}
    ensures status == NX_SUCCESS
    ensures Ready(c, Nodes(front)) && Pending(c) == old(Stream(c, pos, tail))
    ensures Linked(front) && front != [] && front[0] == out[0] && Nodes(front) <= Nodes(out)
      && ChainBytes(front) <= old(ChainBytes(out))
    ensures |ChainBytes(front)| + (if old(c.held) == [] then c.remainingSize else 0) >= old(|ChainBytes(out)|)
    ensures forall p :: p in c.held ==> p in old(c.held) || p in out || fresh(p)
  {
    status, front := NX_SUCCESS, out;
    if c.remainingSize == 0 {
      return;
    }
    assert c.responsePacket != null ==> c.held != [] && c.held[0] == c.responsePacket;
    hide Linked, ChainBytes, Full, NetBytes, NetOk;
    if c.responsePacket != null {
      ghost var bytes := ChainBytes(out);
      assert c.responsePacket !in out by {
        assert c.responsePacket in Nodes(c.held);
      }
      AdoptRest(c, pos, tail, Nodes(out));
      assert Linked(out) && ChainBytes(out) == bytes;
    } else {
      FrontSize(out, k, pos);
      NodesSplit(out, k + 1);
      SuffixIn(out, k + 1);
      front := out[..k + 1];
      status := KeepRest(c, cur, pos, out, k, front, out[k + 1..]);
    }
  }

  lemma ChainBytesStep(out: seq<Packet>, m: nat)
    requires m < |out|
    ensures ChainBytes(out[m..]) == out[m].Bytes() + ChainBytes(out[m + 1..])
    ensures ChainBytes(out[..m + 1]) == ChainBytes(out[..m]) + out[m].Bytes()
  {
    assert out[m..][1..] == out[m + 1..];
    assert out[..m + 1] == out[..m] + [out[m]];
    ChainBytesAppend(out[..m], [out[m]]);
    assert ChainBytes([out[m]]) == out[m].Bytes();
  }

  /**
   Packet number `m` holds the last of the first `length` bytes of a chain or comes before it; `rest` of them are from
   it on.
   */
  ghost predicate LastAt(out: seq<Packet>, m: nat, rest: nat, length: nat)
    reads out
  {
    && m < |out| && rest <= |ChainBytes(out[m..])| && length == |ChainBytes(out[..m])| + rest
    && (m == 0 ==> rest == length)
  }

  /** Steps over a packet that is wholly needed. */
  lemma LastStep(out: seq<Packet>, m: nat, rest: nat, length: nat)
    requires Linked(out) && LastAt(out, m, rest, length)
    ensures out[m].Valid() && |out[m].Bytes()| == out[m].appendPtr - out[m].prependPtr >= 0
    ensures out[m].next == if m + 1 < |out| then out[m + 1] else null
    ensures m + 1 < |out| && rest > |out[m].Bytes()| ==> LastAt(out, m + 1, rest - |out[m].Bytes()|, length)
    ensures m + 1 == |out| || rest <= |out[m].Bytes()| ==> LastFound(out, m, rest, length)
  {
    ChainBytesStep(out, m);
    if m + 1 == |out| {
      EmptyChain(out[m + 1..]);
    }
    ChainBytesSplit(out, m + 1);
    assert out[m].Valid() && out[m].next == if m + 1 < |out| then out[m + 1] else null;
    hide ChainBytes, Linked;
    if m + 1 == |out| || rest <= |out[m].Bytes()| {
      TakeFront(ChainBytes(out[..m + 1]), ChainBytes(out[m + 1..]), length);
    }
  }

  /** Packet number `m` holds the last of the first `length` bytes of a chain, and `rest` of them. */
  ghost predicate LastFound(out: seq<Packet>, m: nat, rest: nat, length: nat)
    reads out
  {
    && m < |out| && rest <= |out[m].Bytes()| && length == |ChainBytes(out[..m + 1])| - |out[m].Bytes()| + rest
    && length <= |ChainBytes(out)| && ChainBytes(out)[..length] == ChainBytes(out[..m + 1])[..length]
    && (m == 0 ==> rest == length)
  }

  lemma {:induction false} LastStart(out: seq<Packet>, length: nat)
    requires out != [] && length <= |ChainBytes(out)|
    ensures LastAt(out, 0, length, length)
  {
    EmptyChain(out[..0]);
    assert out[0..] == out;
  }

  lemma FoundLast(out: seq<Packet>, m: nat, rest: nat, length: nat)
    requires Linked(out) && LastFound(out, m, rest, length)
    ensures m < |out| && rest <= |out[m].Bytes()|
    ensures length == |ChainBytes(out[..m + 1])| - |out[m].Bytes()| + rest
    ensures length <= |ChainBytes(out)| && length <= |ChainBytes(out[..m + 1])|
    ensures ChainBytes(out)[..length] == ChainBytes(out[..m + 1])[..length]
    ensures out[m] == out[0] ==> rest == length
  {
    DistinctAt(out, 0);
  }

  /** The search for the last packet needed stands at `p`. */
  ghost predicate Seeking(out: seq<Packet>, p: Packet, m: nat, rest: nat, length: nat)
    reads out
  {
    Linked(out) && LastAt(out, m, rest, length) && p == out[m]
  }

  lemma SeekingStep(out: seq<Packet>, p: Packet, m: nat, rest: nat, length: nat)
    requires Seeking(out, p, m, rest, length)
    ensures m < |out| && p.prependPtr <= p.appendPtr
    ensures if p.next == null || rest <= p.appendPtr - p.prependPtr then p == out[m] && LastFound(out, m, rest, length)
            else Seeking(out, p.next, m + 1, rest - (p.appendPtr - p.prependPtr), length)
  {
    LastStep(out, m, rest, length);
  }

  /** Finds the packet that holds the last of the first `length` bytes of a chain, and that packet's share. */
  method FindLast(packet: Packet, length: nat, ghost out: seq<Packet>) returns (p: Packet, rest: nat, ghost m: nat)
    requires Linked(out) && out != [] && out[0] == packet && length <= |ChainBytes(out)|
    ensures m < |out| && p == out[m] && LastFound(out, m, rest, length)
  {
    p, rest, m := packet, length, 0;
    LastStart(out, length);
    SeekingStep(out, p, m, rest, length);
    hide *;
    while p.next != null && rest > p.appendPtr - p.prependPtr
      invariant Seeking(out, p, m, rest, length)
      invariant m < |out|
      decreases |out| - m
    {
      SeekingStep(out, p, m, rest, length);
      rest := rest - (p.appendPtr - p.prependPtr);
      p, m := p.next, m + 1;
      SeekingStep(out, p, m, rest, length);
    }
    SeekingStep(out, p, m, rest, length);
  }

  lemma LastBytes(front: seq<Packet>)
    requires front != [] && Distinct(front)
    ensures front[|front| - 1] !in front[..|front| - 1]
    ensures ChainBytes(front) == ChainBytes(front[..|front| - 1]) + front[|front| - 1].Bytes()
  {
    DistinctAt(front, |front| - 1);
    assert front[..|front|] == front;
    ChainBytesStep(front, |front| - 1);
  }

  /** Takes the bytes of the last packet of a chain back to the first `rest`. */
  method Shorten(p: Packet, rest: nat, ghost front: seq<Packet>, ghost length: nat)
    requires front != [] && front[|front| - 1] == p && Linked(front) && rest <= |p.Bytes()|
    requires length == |ChainBytes(front)| - |p.Bytes()| + rest
    modifies p`appendPtr, p`length
    ensures Linked(front) && p.length == rest
    ensures ChainBytes(front) == old(ChainBytes(front))[..length]
  {
    hide Links, Distinct, ChainBytes;
    ghost var before := front[..|front| - 1];
    ghost var beforeBytes, bytes := ChainBytes(before), p.Bytes();
    LastBytes(front);
    TakeInto(beforeBytes, bytes, rest);
    p.length, p.appendPtr := rest, p.prependPtr + rest;
    assert AllValid(front);
    hide AllValid;
    assert ChainBytes(before) == beforeBytes && p.Bytes() == bytes[..rest];
    LastBytes(front);
  }

  /** Gives the packets behind packet number `m` of a chain back. */
  method ReleaseBehind(c: Client, p: Packet, ghost out: seq<Packet>, ghost m: nat)
    requires Linked(out) && m < |out| && out[m] == p
    requires Nodes(out[m + 1..]) !! c.released + c.handed
    modifies c`released, p`next
    ensures Linked(out[..m + 1]) && c.released == old(c.released) + Nodes(out[m + 1..])
    ensures ChainBytes(out[..m + 1]) == old(ChainBytes(out[..m + 1]))
  {
    hide Distinct, ChainBytes, Full;
    LinkedSuffix(out, m + 1);
    NodesSplit(out, m + 1);
    assert p.next == if m + 1 < |out| then out[m + 1] else null;
    if p.next != null {
      Release(c, p.next, out[m + 1..]);
      CutBehind(p, out, m);
    } else {
      assert out[..m + 1] == out && out[m + 1..] == [];
    }
  }

  /** Makes packet `p`, with its first `rest` bytes, the end of a chain. */
  method EndAt(c: Client, p: Packet, rest: nat, ghost out: seq<Packet>, ghost m: nat, ghost length: nat)
    requires Linked(out) && m < |out| && out[m] == p && rest <= |p.Bytes()|
    requires Nodes(out[m + 1..]) !! c.released + c.handed
    requires length == |ChainBytes(out[..m + 1])| - |p.Bytes()| + rest
    modifies c`released, p`next, p`appendPtr, p`length
    ensures Linked(out[..m + 1]) && c.released == old(c.released) + Nodes(out[m + 1..])
    ensures ChainBytes(out[..m + 1]) == old(ChainBytes(out[..m + 1]))[..length] && p.length == rest
  {
    hide Linked, Distinct, ChainBytes;
    ReleaseBehind(c, p, out, m);
    Shorten(p, rest, out[..m + 1], length);
  }

  /** A packet as the caller gets it: a chain with its byte count on the head. */
  ghost predicate Returned(packet: Packet?, ret: seq<Packet>)
    reads ret
  {
    ret != [] && packet == ret[0] && Linked(ret) && ret[0].length == |ChainBytes(ret)|
  }

  lemma {:induction false} OwnedSplit(c: Client, out: seq<Packet>, k: nat)
    requires Owned(c, Nodes(out)) && Distinct(out) && k <= |out|
    ensures Nodes(out[k..]) !! c.released + c.handed
    ensures Partition(Nodes(c.held), Nodes(out[..k]), c.handed, c.released + Nodes(out[k..]), c.arrived)
  {
    hide Nodes;
    NodesSplit(out, k);
    ReleaseTransit(Nodes(c.held), Nodes(out[..k]), Nodes(out[k..]), c.handed, c.released, c.arrived);
  }

  /**
   Ends a chain behind its first `length` bytes: the packets behind the last one needed are given back,
   and that one is shortened.
   */
  method Trim(c: Client, packet: Packet, length: nat, ghost out: seq<Packet>,
      ghost bytes: seq<Byte>) returns (ghost m: nat)
    requires Owned(c, Nodes(out))
    requires Linked(out) && out != [] && out[0] == packet && ChainBytes(out) == bytes && length <= |bytes|
    modifies c`released, Nodes(out)
    ensures m < |out| && Owned(c, Nodes(out[..m + 1]))
    ensures Returned(packet, out[..m + 1]) && ChainBytes(out[..m + 1]) == bytes[..length]
  {
    hide ChainBytes, Partition, AllValid, Links, LastFound;
    var p, rest;
    p, rest, m := FindLast(packet, length, out);
    FoundLast(out, m, rest, length);
    ghost var front := out[..m + 1];
    ghost var frontBytes := ChainBytes(front);
    packet.length, packet.last := length, p;
    assert Linked(out);
    assert ChainBytes(front) == frontBytes;
    OwnedSplit(c, out, m + 1);
    EndAt(c, p, rest, out, m, length);
  }

  // ---------------------------------------------------------------- one chunked response packet

  lemma StreamSkip(u: seq<Byte>, net: seq<Byte>, n: nat)
    requires n <= |u|
    ensures (u + net)[n..] == u[n..] + net
  {
  }

  /** Puts the cursor behind a chunk that lies in the packets in transit. */
  method SkipChunk(c: Client, chunkSize: nat, packet: Packet, pos: nat, ghost out: seq<Packet>, ghost d: seq<Byte>)
    returns (status: Status, cur: Packet, pos': nat, ghost k: nat)
    requires Connected(c, Nodes(out)) && c.held == [] && At(packet, pos, out)
    requires |Unread(out, pos)| == c.remainingSize && chunkSize <= c.remainingSize
    requires d == Unread(out, pos) + NetBytes(c.network)
    modifies c`remainingSize
    ensures status == NX_SUCCESS && c.remainingSize == old(c.remainingSize) - chunkSize
    ensures k < |out| && Cursor(c, cur, pos', out[k..], Nodes(out))
    ensures chunkSize <= |d| && Stream(c, pos', out[k..]) == d[chunkSize..]
  {
    hide Linked, Distinct, Owned, NetBytes, Unread;
    StreamSkip(Unread(out, pos), NetBytes(c.network), chunkSize);
    status, cur, pos', k := SkipData(chunkSize, packet, pos, out);
    c.remainingSize := c.remainingSize - chunkSize;
  }

  /** Reads the CRLF behind a chunk and keeps what follows. */
  method EndChunk(c: Client, cur: Packet, pos: nat, ghost out: seq<Packet>, ghost k: nat, ghost s: seq<Byte>,
      ghost bytes: seq<Byte>)
    returns (status: Status, ghost front: seq<Packet>)
    requires Linked(out) && k < |out| && Cursor(c, cur, pos, out[k..], Nodes(out)) && c.held == []
    requires s == Stream(c, pos, out[k..]) && bytes == ChainBytes(out)
    modifies c`remainingSize, c`responsePacket, c`network, c`held, c`arrived, c`released, Nodes(out)
    ensures status == Expected(EndOfChunk(s, 0))
    ensures status == NX_SUCCESS ==>
      && Ready(c, Nodes(front)) && Pending(c) == s[2..] && Took(old(c.network), c.network, |s| - 2)
      && Linked(front) && front != [] && front[0] == out[0] && Nodes(front) <= Nodes(out) && ChainBytes(front) <= bytes
      && |ChainBytes(front)| + old(c.remainingSize) >= |bytes|
    ensures status == NX_SUCCESS ==> forall p :: p in c.held ==> p in out || fresh(p)
  {
    hide Owned, Linked, Distinct, ChainBytes, Full, NetBytes, NetOk, Unread, Took;
    front := out;
    var cur', pos';
    ghost var tail, j;
    status, cur', pos', tail, j := ReadChunkEnd(c, cur, pos, out[k..], Nodes(out), s);
    if status != NX_SUCCESS {
      return;
    }
    assert Linked(out) && ChainBytes(out) == bytes;
    ghost var k' := 0;
    if c.held == [] {
      k' := k + j;
      assert tail == out[k'..] && cur' == out[k'];
    }
    assert c.responsePacket != null ==> c.responsePacket in c.held;
    status, front := KeepUnread(c, cur', pos', tail, out, k');
  }

  /** Steps over a chunk that lies in the packets in transit, and over its CRLF; keeps what follows. */
  method PassChunk(c: Client, chunkSize: nat, packet: Packet, pos: nat, ghost out: seq<Packet>,
      ghost d: seq<Byte>, ghost bytes: seq<Byte>)
    returns (status: Status, ghost front: seq<Packet>)
    requires Connected(c, Nodes(out)) && c.held == [] && Linked(out) && At(packet, pos, out)
    requires |Unread(out, pos)| == c.remainingSize && chunkSize <= c.remainingSize
    requires d == Unread(out, pos) + NetBytes(c.network) && bytes == ChainBytes(out)
    modifies c`remainingSize, c`responsePacket, c`network, c`held, c`arrived, c`released, Nodes(out)
    ensures status == Expected(EndOfChunk(d, chunkSize))
    ensures status == NX_SUCCESS ==>
      && Ready(c, Nodes(front)) && Pending(c) == d[chunkSize + 2..]
      && Took(old(c.network), c.network, |d| - chunkSize - 2)
      && Linked(front) && front != [] && front[0] == out[0] && Nodes(front) <= Nodes(out) && ChainBytes(front) <= bytes
      && |ChainBytes(front)| + old(c.remainingSize) >= |bytes| + chunkSize
    ensures status == NX_SUCCESS ==> forall p :: p in c.held ==> p in out || fresh(p)
  {
    hide Connected, Cursor, Linked, ChainBytes, NetBytes, At, Ready, Pending, Stream, Unread, Nodes, Took;
    var cur, pos';
    ghost var k;
    status, cur, pos', k := SkipChunk(c, chunkSize, packet, pos, out, d);
    EndOfChunkShift(d, chunkSize);
    status, front := EndChunk(c, cur, pos', out, k, d[chunkSize..], bytes);
    if status == NX_SUCCESS {
      DropDrop(d, chunkSize, 2);
    }
  }

  /** Cuts the packets in transit down to `length` bytes for the caller. */
  method FinishPacket(c: Client, packet: Packet, length: nat, ghost front: seq<Packet>, ghost bytes: seq<Byte>,
      ghost pending: seq<Byte>)
    returns (ghost ret: seq<Packet>)
    requires Ready(c, Nodes(front)) && Pending(c) == pending
    requires Linked(front) && front != [] && front[0] == packet && ChainBytes(front) == bytes && length <= |bytes|
    modifies c`released, Nodes(front)
    ensures Ready(c, Nodes(ret)) && Pending(c) == pending
    ensures Returned(packet, ret) && ChainBytes(ret) == bytes[..length]
  {
    assert forall p :: p in c.held ==> p !in Nodes(front);
    ReadyParts(c, Nodes(front));
    hide *;
    ghost var m := Trim(c, packet, length, front, bytes);
    ret := front[..m + 1];
    ReadyParts(c, Nodes(ret));
  }

  lemma ReadyParts(c: Client, transit: set<Packet>)
    ensures Ready(c, transit) <==> InOrder(c) && Owned(c, transit)
  {
    hide Holds, NetOk, Full, ChainBytes, Owned;
  }

  /** What is gathered for the caller: at least `length` bytes, all that is at hand or the rest of the chunk. */
  ghost predicate Gathered(c: Client, packet: Packet, length: nat, front: seq<Packet>, chunkSize: nat, d: seq<Byte>)
    reads c, c.held, front
  {
    && Ready(c, Nodes(front)) && Linked(front) && front != [] && front[0] == packet
    && 0 < length <= chunkSize && length <= |ChainBytes(front)| && ChainBytes(front) <= d
    && (length < chunkSize ==> c.remainingSize == 0 && Pending(c) == d[length..])
    && (length == chunkSize ==> EndOfChunk(d, chunkSize) == Ended && Pending(c) == d[chunkSize + 2..])
  }

  /**
   Takes the packets with the bytes at hand away from the client, up to the end of the open chunk. When the
   chunk ends in them, its CRLF is read and what follows is kept.
   */
  method GatherData(c: Client, chunkSize: nat, pos: nat, ghost tail: seq<Packet>, ghost d: seq<Byte>)
    returns (status: Status, packet: Packet, length: nat, ghost front: seq<Packet>)
    requires HeldCursor(c, c.responsePacket, pos, tail) && c.remainingSize > 0
    requires chunkSize > 0 && d == Stream(c, pos, tail)
    modifies c`remainingSize, c`responsePacket, c`network, c`held, c`arrived, c`released, Nodes(c.held)
    ensures status == NX_SUCCESS || status == Expected(EndOfChunk(d, chunkSize))
    ensures status == NX_SUCCESS ==>
      && Gathered(c, packet, length, front, chunkSize, d) && Nodes(front) <= old(Nodes(c.held))
      && Took(old(c.network), c.network, |Pending(c)|)
    ensures status == NX_SUCCESS ==> forall p :: p in c.held ==> p in old(c.held) || fresh(p)
  {
    hide *;
    HeldStream(c, pos, tail);
    ghost var bytes, net := Unread(tail, pos), NetBytes(c.network);
    packet := TakeHeld(c, pos, tail);
    AtFront(packet, pos, tail);
    front, length := tail, c.remainingSize;
    ghost var was := c.network;
    if chunkSize <= c.remainingSize {
      status, front := PassChunk(c, chunkSize, packet, pos, tail, d, bytes);
      length := chunkSize;
      if status == NX_SUCCESS {
        GatheredWhole(c, packet, length, front, d, bytes, net);
      }
    } else {
      status := NX_SUCCESS;
      c.remainingSize := 0;
      NothingHeld(c, Nodes(tail));
      TookNothing(was, |Pending(c)|);
      GatheredPart(c, packet, length, front, chunkSize, d, bytes);
    }
  }

  lemma GatheredWhole(c: Client, packet: Packet, length: nat, front: seq<Packet>, d: seq<Byte>, bytes: seq<Byte>,
      net: seq<Byte>)
    requires Ready(c, Nodes(front)) && Linked(front) && front != [] && front[0] == packet && d == bytes + net
    requires ChainBytes(front) <= bytes && 0 < length <= |ChainBytes(front)|
    requires Expected(EndOfChunk(d, length)) == NX_SUCCESS && Pending(c) == d[length + 2..]
    ensures Gathered(c, packet, length, front, length, d) && |Pending(c)| == |d| - length - 2
  {
    OnlyEnded(EndOfChunk(d, length));
    hide Ready, Linked, Pending, ChainBytes, Expected, Nodes;
  }

  lemma GatheredPart(c: Client, packet: Packet, length: nat, front: seq<Packet>, chunkSize: nat, d: seq<Byte>,
      bytes: seq<Byte>)
    requires Ready(c, Nodes(front)) && Linked(front) && front != [] && front[0] == packet
    requires ChainBytes(front) == bytes && 0 < |bytes| == length < chunkSize
    requires c.remainingSize == 0 && d == bytes + Pending(c)
    ensures Gathered(c, packet, length, front, chunkSize, d)
  {
    hide Ready, Linked, Pending, ChainBytes, EndOfChunk, Nodes;
    DropBehind(bytes, Pending(c), length);
  }

  lemma HeldStream(c: Client, pos: nat, tail: seq<Packet>)
    requires HeldCursor(c, c.responsePacket, pos, tail) && c.remainingSize > 0
    ensures c.held == tail && c.responsePacket != null && c.responsePacket in Nodes(c.held)
    ensures Stream(c, pos, tail) == Unread(tail, pos) + NetBytes(c.network) && |Unread(tail, pos)| == c.remainingSize
  {
  }

  lemma AtFront(packet: Packet, pos: nat, tail: seq<Packet>)
    requires At(packet, pos, tail)
    ensures Linked(tail) && tail != [] && tail[0] == packet
  {
  }

  lemma OnlyEnded(e: Ending)
    ensures Expected(e) == NX_SUCCESS ==> e == Ended
  {
  }

  lemma NothingHeld(c: Client, transit: set<Packet>)
    requires Connected(c, transit) && c.remainingSize == 0
    ensures Ready(c, transit) && Pending(c) == NetBytes(c.network)
  {
    assert [] + NetBytes(c.network) == NetBytes(c.network);
    hide Owned, Holds, NetOk, NetBytes;
  }

  lemma GatheredLess(c: Client, packet: Packet, length: nat, front: seq<Packet>, chunkSize: nat, d: seq<Byte>,
      net: seq<seq<seq<Byte>>>, was: seq<seq<seq<Byte>>>)
    requires Gathered(c, packet, length, front, chunkSize, d)
    requires Took(net, was, |d| - 1) && Took(was, c.network, |Pending(c)|)
    ensures c.network == Untaken(net, |Pending(c)|)
  {
    PendingEnds(c, Nodes(front));
    hide Ready, Linked, Pending, Took, EndOfChunk, ChainBytes, Untaken;
    assert |Pending(c)| <= |d| - 1 by {
      if length == chunkSize {
        EndedFits(d, chunkSize);
      }
    }
    TookBoth(net, was, c.network, |d| - 1, Pending(c));
  }

  lemma EndedFits(d: seq<Byte>, n: nat)
    ensures EndOfChunk(d, n) == Ended ==> n + 2 <= |d|
  {
  }

  /** What the network still has is the end of what is to be read. */
  lemma PendingEnds(c: Client, transit: set<Packet>)
    requires Ready(c, transit)
    ensures EndsWith(Pending(c), NetBytes(c.network))
  {
    hide Owned, Holds, NetOk, ChainBytes, NetBytes;
  }

  lemma TookBoth(net: seq<seq<seq<Byte>>>, was: seq<seq<seq<Byte>>>, now: seq<seq<seq<Byte>>>, n: int, rest: seq<Byte>)
    requires Took(net, was, n) && Took(was, now, |rest|) && |rest| <= n && EndsWith(rest, NetBytes(now))
    ensures now == Untaken(net, |rest|)
  {
    TookMore(net, was, now, n, |rest|);
    TookIs(net, now, |rest|);
  }

  /** Hands out the bytes of the open chunk that are at hand. */
  method DeliverData(c: Client, chunkSize: nat, pos: nat, ghost tail: seq<Packet>, ghost d: seq<Byte>,
      ghost net: seq<seq<seq<Byte>>>)
    returns (status: Status, packet: Packet, ghost ret: seq<Packet>)
    requires HeldCursor(c, c.responsePacket, pos, tail) && c.remainingSize > 0 && Took(net, c.network, |d| - 1)
    requires chunkSize > 0 && d == Stream(c, pos, tail)
    modifies c`remainingSize, c`responsePacket, c`network, c`held, c`arrived, c`released, Nodes(c.held)
    modifies c`totalReceiveBytes, c`actualBytesReceived
    ensures status == NX_SUCCESS || status == Expected(EndOfChunk(d, chunkSize))
    ensures status == NX_SUCCESS ==>
      && Ready(c, Nodes(ret)) && Returned(packet, ret) && c.network == Untaken(net, |Pending(c)|)
      && 0 < |ChainBytes(ret)| <= chunkSize && ChainBytes(ret) <= d
      && c.totalReceiveBytes == chunkSize && c.actualBytesReceived == |ChainBytes(ret)|
      && (|ChainBytes(ret)| < chunkSize ==> c.remainingSize == 0 && Pending(c) == d[|ChainBytes(ret)|..])
      && (|ChainBytes(ret)| == chunkSize ==>
            EndOfChunk(d, chunkSize) == Ended && Pending(c) == d[chunkSize + 2..])
    ensures status == NX_SUCCESS ==> forall p :: p in c.held ==> p in old(c.held) || fresh(p)
  {
    hide Linked, ChainBytes, NetBytes, Connected, Nodes, EndOfChunk, HeldCursor, Unread, Pending, Returned, Took;
    var length;
    ghost var front, was := [], c.network;
    status, packet, length, front := GatherData(c, chunkSize, pos, tail, d);
    ret := [];
    if status != NX_SUCCESS {
      return;
    }
    GatheredLess(c, packet, length, front, chunkSize, d, net, was);
    ghost var bytes := ChainBytes(front);
    c.totalReceiveBytes, c.actualBytesReceived := chunkSize, length;
    ret := FinishPacket(c, packet, length, front, bytes, Pending(c));
  }

  /** Reads the CRLF that ends the body and makes the packet it was in an empty one. */
  method FinishBody(c: Client, cur: Packet?, pos: nat, ghost tail: seq<Packet>, ghost s: seq<Byte>,
      ghost net: seq<seq<seq<Byte>>>)
    returns (status: Status)
    requires HeldCursor(c, cur, pos, tail) && s == Stream(c, pos, tail) && Took(net, c.network, |s| - 1)
    modifies c`remainingSize, c`responsePacket, c`network, c`held, c`arrived, c`released, c.held
    ensures status == if EndOfChunk(s, 0) == Ended then NX_WEB_HTTP_GET_DONE else Expected(EndOfChunk(s, 0))
    ensures status == NX_WEB_HTTP_GET_DONE ==>
      && Connected(c, {}) && c.held != [] && c.responsePacket.length == 0
      && c.responsePacket.prependPtr == c.responsePacket.appendPtr
    ensures status == NX_WEB_HTTP_GET_DONE ==> |s| >= 2 && c.network == Untaken(net, |s| - 2)
  {
    hide Owned, Linked, Full, Distinct, NetOk, NetBytes, ChainBytes, Unread, Took, Untaken;
    ghost var net0 := c.network;
    var cur', pos';
    ghost var tail';
    status, cur', pos', tail' := ExpectHeld(c, CR, cur, pos, tail, s);
    if status != NX_SUCCESS {
      return;
    }
    assert c.responsePacket in c.held;
    ghost var was := c.network;
    status, cur', pos', tail' := ExpectHeld(c, LF, cur', pos', tail', s[1..]);
    if status != NX_SUCCESS {
      return;
    }
    assert c.responsePacket in c.held;
    StreamEnds(c, cur', pos', tail');
    assert Stream(c, pos', tail') == s[1..][1..] == s[2..];
    TookMore(net0, was, c.network, |s| - 1, |s| - 2);
    TookBoth(net, net0, c.network, |s| - 1, s[2..]);
    MakeEmpty(c, tail');
    status := NX_WEB_HTTP_GET_DONE;
  }

  /** What the network still has is the end of the stream. */
  lemma StreamEnds(c: Client, cur: Packet?, pos: nat, tail: seq<Packet>)
    requires HeldCursor(c, cur, pos, tail)
    ensures EndsWith(Stream(c, pos, tail), NetBytes(c.network))
  {
  }

  method MakeEmpty(c: Client, ghost tail: seq<Packet>)
    requires Connected(c, {}) && c.held != []
    modifies c.responsePacket`appendPtr, c.responsePacket`length
    ensures Connected(c, {}) && c.responsePacket.length == 0
    ensures c.responsePacket.prependPtr == c.responsePacket.appendPtr
  {
    hide Owned, Links, Distinct, NetOk;
    assert c.responsePacket.Valid();
    c.responsePacket.appendPtr, c.responsePacket.length := c.responsePacket.prependPtr, 0;
  }

  /** The data bytes of the open chunk that a chunked response still owes. */
  ghost function Owed(c: Client): nat
    reads c`totalReceiveBytes, c`actualBytesReceived
  {
    if c.actualBytesReceived <= c.totalReceiveBytes then c.totalReceiveBytes - c.actualBytesReceived else 0
  }

  lemma CursorHead(c: Client, cur: Packet?, pos: nat, tail: seq<Packet>)
    requires HeldCursor(c, cur, pos, tail) && c.remainingSize > 0
    ensures cur == c.responsePacket
  {
  }

  lemma IsDelivery(owed: nat, s: seq<Byte>, n: nat, rest: seq<Byte>, b: seq<Byte>, owed': nat, s': seq<Byte>)
    requires OpenOf(owed, s) == OpenChunk(n, rest) && 0 < |b| <= n && b <= rest
    requires owed' == n - |b|
    requires |b| < n ==> s' == rest[|b|..]
    requires |b| == n ==> EndOfChunk(rest, n) == Ended && s' == rest[n + 2..]
    ensures Delivers(owed, s, b, owed', s')
  {
  }

  lemma OwedIs(c: Client)
    requires c.actualBytesReceived <= c.totalReceiveBytes
    ensures Owed(c) == c.totalReceiveBytes - c.actualBytesReceived
  {
  }

  lemma NodesAre(chain: seq<Packet>)
    ensures forall p :: p in Nodes(chain) <==> p in chain
  {
  }

  /** What the statuses of a call say of the decoder. */
  lemma {:induction false} Outcomes(owed: nat, s: seq<Byte>)
    ensures match OpenOf(owed, s)
      case NoChunk(why) => Decode(owed, s) == why && (why == Malformed || why == Truncated)
      case LastChunk(rest) =>
        var end := EndOfChunk(rest, 0);
        && (rest == [] ==> Decode(owed, s) == Truncated) && EndSays(end, Decode(owed, s))
        && (end == Ended ==> |rest| >= 2 && Decode(owed, s) == Done([], rest[2..]))
      case OpenChunk(n, rest) =>
        n > 0 && (rest == [] ==> Decode(owed, s) == Truncated) && EndSays(EndOfChunk(rest, n), Decode(owed, s))
  {
    OpenDecodes(owed, s);
    hide Decode, OpenOf;
  }

  /** The end of a chunk is missing exactly if the status says so, and then the decoder says so, too. */
  predicate EndSays(end: Ending, d: Decoded) {
    match Expected(end)
    case NX_SUCCESS => end == Ended
    case NX_NOT_FOUND => end != Ended && d == Malformed
    case NX_NOT_CONNECTED => end != Ended && d == Truncated
    case _ => false
  }

  /** How a call during a chunked body ends, with `net` still to come before it. */
  ghost predicate ChunkGot(c: Client, owed: nat, s: seq<Byte>, net: seq<seq<seq<Byte>>>, status: Status,
      packet: Packet?, ret: seq<Packet>)
    reads c`remainingSize, c`responsePacket, c`network, c`held, c`arrived, c`handed, c`released
    reads c`totalReceiveBytes, c`actualBytesReceived, c.held, ret, if packet == null then {} else {packet}
  {
    match status
    case NX_SUCCESS =>
      && Ready(c, Nodes(ret)) && Returned(packet, ret) && c.actualBytesReceived <= c.totalReceiveBytes
      && Delivers(owed, s, ChainBytes(ret), Owed(c), Pending(c)) && c.network == Untaken(net, |Pending(c)|)
      && (Owed(c) > 0 ==> c.remainingSize == 0)
    case NX_WEB_HTTP_GET_DONE =>
      && Connected(c, {}) && c.held != [] && packet == c.responsePacket
      && packet.length == 0 && packet.prependPtr == packet.appendPtr
      && Decode(owed, s).Done? && Decode(owed, s).content == []
      && c.network == Untaken(net, |Decode(owed, s).rest|)
    case NX_NOT_FOUND => Decode(owed, s) == Malformed
    case NX_NOT_CONNECTED => Decode(owed, s) == Truncated
    case _ => false
  }

  /** Ends the body. */
  method GetEnd(c: Client, cur: Packet?, pos: nat, ghost tail: seq<Packet>, ghost owed: nat, ghost s: seq<Byte>,
      ghost net: seq<seq<seq<Byte>>>)
    returns (status: Status, packet: Packet?)
    requires OpenOf(owed, s).LastChunk? && HeldCursor(c, cur, pos, tail)
    requires OpenOf(owed, s).rest == Stream(c, pos, tail) && Took(net, c.network, |Stream(c, pos, tail)| - 1)
    modifies c`remainingSize, c`responsePacket, c`network, c`held, c`arrived, c`released, c.held
    ensures status != NX_SUCCESS && ChunkGot(c, owed, s, net, status, packet, [])
  {
    ghost var rest := OpenOf(owed, s).rest;
    Outcomes(owed, s);
    hide *;
    status := FinishBody(c, cur, pos, tail, rest, net);
    packet := c.responsePacket;
    EndGot(c, owed, s, net, status, rest);
  }

  lemma EndGot(c: Client, owed: nat, s: seq<Byte>, net: seq<seq<seq<Byte>>>, status: Status, rest: seq<Byte>)
    requires var end := EndOfChunk(rest, 0);
      && EndSays(end, Decode(owed, s)) && (end == Ended ==> |rest| >= 2 && Decode(owed, s) == Done([], rest[2..]))
      && status == if end == Ended then NX_WEB_HTTP_GET_DONE else Expected(end)
    requires status == NX_WEB_HTTP_GET_DONE ==>
      && Connected(c, {}) && c.held != [] && c.responsePacket.length == 0
      && c.responsePacket.prependPtr == c.responsePacket.appendPtr
      && c.network == Untaken(net, |rest| - 2)
    ensures status != NX_SUCCESS && ChunkGot(c, owed, s, net, status, c.responsePacket, [])
  {
    hide Connected, Decode, EndOfChunk, Untaken;
  }

  /** Hands out bytes of the open chunk. */
  method GetData(c: Client, chunkSize: nat, cur: Packet?, pos: nat, ghost tail: seq<Packet>, ghost owed: nat,
      ghost s: seq<Byte>, ghost net: seq<seq<seq<Byte>>>)
    returns (status: Status, packet: Packet?, ghost ret: seq<Packet>)
    requires OpenOf(owed, s).OpenChunk? && HeldCursor(c, cur, pos, tail) && c.remainingSize > 0
    requires OpenOf(owed, s).rest == Stream(c, pos, tail) && Took(net, c.network, |Stream(c, pos, tail)| - 1)
    requires chunkSize == OpenOf(owed, s).size
    modifies c`remainingSize, c`responsePacket, c`network, c`held, c`arrived, c`released, Nodes(c.held)
    modifies c`totalReceiveBytes, c`actualBytesReceived
    ensures status == NX_SUCCESS ==> forall p :: p in c.held ==> p in old(c.held) || fresh(p)
    ensures ChunkGot(c, owed, s, net, status, packet, ret)
  {
    ghost var rest := OpenOf(owed, s).rest;
    Outcomes(owed, s);
    hide *;
    CursorHead(c, cur, pos, tail);
    status, packet, ret := DeliverData(c, chunkSize, pos, tail, rest, net);
    if status == NX_SUCCESS {
      OwedIs(c);
      IsDelivery(owed, s, chunkSize, rest, ChainBytes(ret), Owed(c), Pending(c));
    }
    DataGot(c, owed, s, net, status, packet, ret, EndOfChunk(rest, chunkSize));
  }

  lemma DataGot(c: Client, owed: nat, s: seq<Byte>, net: seq<seq<seq<Byte>>>, status: Status, packet: Packet?,
      ret: seq<Packet>, end: Ending)
    requires EndSays(end, Decode(owed, s)) && (status == NX_SUCCESS || status == Expected(end))
    requires status == NX_SUCCESS ==>
      && Ready(c, Nodes(ret)) && Returned(packet, ret) && c.actualBytesReceived <= c.totalReceiveBytes
      && Delivers(owed, s, ChainBytes(ret), Owed(c), Pending(c)) && c.network == Untaken(net, |Pending(c)|)
      && (Owed(c) > 0 ==> c.remainingSize == 0)
    ensures ChunkGot(c, owed, s, net, status, packet, ret)
  {
    hide Ready, Returned, Delivers, ChainBytes, Owed, Pending, Decode, Untaken;
  }

  /** Gets the next bytes of a chunked response. */
  method ResponseChunkedGet(c: Client, ghost owed: nat, ghost s: seq<Byte>)
    returns (status: Status, packet: Packet?, ghost ret: seq<Packet>)
    requires Ready(c, {}) && c.actualBytesReceived <= c.totalReceiveBytes
    requires owed == Owed(c) && s == Pending(c)
    modifies c`remainingSize, c`responsePacket, c`network, c`held, c`arrived, c`released, Nodes(c.held)
    modifies c`totalReceiveBytes, c`actualBytesReceived
    ensures status == NX_SUCCESS ==> forall p :: p in c.held ==> p in old(c.held) || fresh(p)
    ensures ChunkGot(c, owed, s, old(c.network), status, packet, ret)
  {
    packet, ret := null, [];
    var cur, pos, chunkSize := c.responsePacket, 0, 0;
    ghost var tail, net := c.held, c.network;
    if cur != null {
      pos := cur.prependPtr;
    }
    StartCursor(c, pos);
    Outcomes(owed, s);
    OwedIs(c);
    hide *;
    NodesAre(c.held);
    status, chunkSize, cur, pos, tail := ChunkedSizeGet(c, cur, pos, tail);
    NodesAre(c.held);
    if status != NX_SUCCESS {
      NoneGot(c, owed, s, net, status);
    } else if chunkSize == 0 {
      status, packet := GetEnd(c, cur, pos, tail, owed, s, net);
    } else {
      status, packet, ret := GetData(c, chunkSize, cur, pos, tail, owed, s, net);
    }
  }

  lemma NoneGot(c: Client, owed: nat, s: seq<Byte>, net: seq<seq<seq<Byte>>>, status: Status)
    requires match OpenOf(owed, s)
      case NoChunk(why) =>
        && Decode(owed, s) == why && (why == Malformed || why == Truncated)
        && status == (if why == Malformed then NX_NOT_FOUND else NX_NOT_CONNECTED)
      case _ => Decode(owed, s) == Truncated && status == NX_NOT_CONNECTED
    ensures ChunkGot(c, owed, s, net, status, null, [])
  {
    hide Decode, OpenOf;
  }

  lemma StartCursor(c: Client, pos: nat)
    requires Ready(c, {})
    requires c.responsePacket != null ==> pos == c.responsePacket.prependPtr
    ensures HeldCursor(c, c.responsePacket, pos, c.held) && Stream(c, pos, c.held) == Pending(c)
  {
    if c.remainingSize > 0 {
      WholeUnread(c.held);
    }
  }
}
