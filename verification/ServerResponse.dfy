/** Receiving a response until its header is complete. */
module ServerResponse {
  import opened Bytes
  import opened Packets
  import opened HttpClient
  import opened HeaderScan
  import opened ChunkedResponse

  /** Both scans find something, or both end with the same count. */
  predicate SameOutcome(r: Scan, r': Scan) {
    r.Found? == r'.Found? && (r.Searching? ==> r == r')
  }

  method CountByte(found: nat, b: Byte) returns (found': nat)
    ensures found' == Step(found, b)
  {
    if found % 2 == 0 && b == CR {
      found' := found + 1;
    } else if found % 2 == 1 && b == LF {
      found' := found + 1;
    } else {
      found' := 0;
    }
  }

  /** Counts CR and LF through the rest of a packet. */
  method ScanPacket(p: Packet, pos: nat, found: nat, ghost s: seq<Byte>) returns (found': nat, hit: bool)
    requires p.Valid() && pos <= p.appendPtr && s == p.BytesFrom(pos)
    ensures hit <==> ScanFrom(s, found).Found?
    ensures !hit ==> ScanFrom(s, found) == Searching(found')
  {
    hide Step;
    var i := pos;
    ghost var left := s;
    found', hit := found, false;
    while i < p.appendPtr
      invariant pos <= i <= p.appendPtr && !hit && left == p.BytesFrom(i)
      invariant SameOutcome(ScanFrom(s, found), ScanFrom(left, found'))
    {
      HeadTail(left, p.memory[i], p.BytesFrom(i + 1)) by { BytesStep(p, i); }
      left := left[1..];
      found' := CountByte(found', p.memory[i]);
      if found' == 4 {
        hit := true;
        return;
      }
      i := i + 1;
    }
  }

  // ---------------------------------------------------------------- appending received bytes

  lemma {:induction false} ChainSnoc(init: seq<Packet>, p: Packet)
    ensures ChainBytes(init + [p]) == ChainBytes(init) + p.Bytes()
  {
    ChainBytesAppend(init, [p]);
    assert ChainBytes([p]) == p.Bytes() + [];
  }

  lemma UnreadSnoc(init: seq<Packet>, p: Packet, pos: nat)
    ensures Unread(init + [p], pos) == if init == [] then p.BytesFrom(pos) else Unread(init, pos) + p.Bytes()
  {
    if init == [] {
      assert Unread(init + [p], pos) == p.BytesFrom(pos) + [];
    } else {
      assert (init + [p])[1..] == init[1..] + [p];
      ChainSnoc(init[1..], p);
    }
  }

  method FindTail(head: Packet, ghost chain: seq<Packet>) returns (tail: Packet)
    requires Links(chain) && chain != [] && chain[0] == head
    ensures tail == chain[|chain| - 1]
  {
    hide Distinct, AllValid;
    tail := head;
    ghost var k := 0;
    while tail.next != null
      invariant k < |chain| && tail == chain[k]
      decreases |chain| - k
    {
      tail, k := tail.next, k + 1;
    }
  }

  /** No packet behind the first one is empty. */
  ghost predicate FullBehind(chain: seq<Packet>)
    reads chain`prependPtr, chain`appendPtr
  {
    forall i :: 1 <= i < |chain| ==> chain[i].prependPtr < chain[i].appendPtr
  }

  predicate Suffix(rest: seq<Packet>, chain: seq<Packet>) {
    |rest| <= |chain| && rest == chain[|chain| - |rest|..]
  }

  /** A chain, and its end from some packet on. */
  ghost predicate Shape(chain: seq<Packet>, rest: seq<Packet>)
    reads chain`next
  {
    Links(chain) && Distinct(chain) && Suffix(rest, chain) && rest != []
  }

  /** The bytes of the packets `chain`, and those of the packets `rest` from a position in the first one on. */
  ghost predicate Windows(chain: seq<Packet>, rest: seq<Packet>, pos: nat, all: seq<Byte>, unread: seq<Byte>)
    reads chain`memory, chain`prependPtr, chain`appendPtr
    reads rest`memory, rest`prependPtr, rest`appendPtr
  {
    && AllValid(chain) && FullBehind(chain) && ChainBytes(chain) == all && Unread(rest, pos) == unread
    && (rest != [] ==> rest[0].prependPtr <= pos <= rest[0].appendPtr)
  }

  /** A chain with a position in it: the chain carries the bytes `all`, and `unread` from the position on. */
  ghost predicate Carries(chain: seq<Packet>, rest: seq<Packet>, pos: nat, all: seq<Byte>, unread: seq<Byte>)
    reads chain`memory, chain`prependPtr, chain`appendPtr, chain`next
    reads rest`memory, rest`prependPtr, rest`appendPtr
  {
    Shape(chain, rest) && Windows(chain, rest, pos, all, unread)
  }

  /** Puts bytes into the memory behind a packet's last byte. */
  method FillPacket(p: Packet, bytes: seq<Byte>)
    requires p.Valid()
    modifies p`memory, p`appendPtr
    ensures p.Valid() && p.appendPtr == old(p.appendPtr) + |bytes|
    ensures forall from :: 0 <= from <= old(p.appendPtr) ==> p.BytesFrom(from) == old(p.BytesFrom(from)) + bytes
  {
    p.memory := p.memory[..p.appendPtr] + bytes;
    p.appendPtr := p.appendPtr + |bytes|;
  }

  function Front(chain: seq<Packet>): seq<Packet>
    requires chain != []
  {
    chain[..|chain| - 1]
  }

  function Last(chain: seq<Packet>): Packet
    requires chain != []
  {
    chain[|chain| - 1]
  }

  lemma LastApart(chain: seq<Packet>, rest: seq<Packet>)
    requires Shape(chain, rest)
    ensures chain == Front(chain) + [Last(chain)] && Last(chain) !in Front(chain)
    ensures rest == Front(rest) + [Last(chain)] && Last(chain) !in Front(rest)
  {
    DistinctAt(chain, |chain| - 1);
  }

  /** Takes the last packet off. */
  lemma {:induction false} WindowsFront(chain: seq<Packet>, rest: seq<Packet>, tail: Packet, pos: nat)
    requires Windows(chain + [tail], rest + [tail], pos, ChainBytes(chain + [tail]), Unread(rest + [tail], pos))
    ensures Windows(chain, rest, pos, ChainBytes(chain), Unread(rest, pos))
    ensures tail.Valid() && (chain != [] ==> tail.prependPtr < tail.appendPtr)
    ensures rest == [] ==> tail.prependPtr <= pos <= tail.appendPtr
    ensures ChainBytes(chain + [tail]) == ChainBytes(chain) + tail.Bytes()
    ensures Unread(rest + [tail], pos) == if rest == [] then tail.BytesFrom(pos) else Unread(rest, pos) + tail.Bytes()
  {
    assert (chain + [tail])[|chain|] == tail;
    assert forall i :: 0 <= i < |chain| ==> chain[i] == (chain + [tail])[i];
    ChainSnoc(chain, tail);
    UnreadSnoc(rest, tail, pos);
  }

  /** Puts a last packet on. */
  lemma WindowsSnoc(chain: seq<Packet>, rest: seq<Packet>, tail: Packet, pos: nat, all: seq<Byte>, unread: seq<Byte>)
    requires Windows(chain, rest, pos, all, unread)
    requires tail.Valid() && (chain != [] ==> tail.prependPtr < tail.appendPtr)
    requires rest == [] ==> tail.prependPtr <= pos <= tail.appendPtr
    ensures var more := if rest == [] then tail.BytesFrom(pos) else unread + tail.Bytes();
      Windows(chain + [tail], rest + [tail], pos, all + tail.Bytes(), more)
  {
    ChainSnoc(chain, tail);
    UnreadSnoc(rest, tail, pos);
  }

  /** Filling up a packet changes nothing about packets it is not one of. */
  method FillApart(p: Packet, bytes: seq<Byte>, ghost chain: seq<Packet>, ghost rest: seq<Packet>, ghost pos: nat,
      ghost all: seq<Byte>, ghost unread: seq<Byte>)
    requires p.Valid() && p !in chain && p !in rest
    requires Windows(chain, rest, pos, all, unread)
    modifies p`memory, p`appendPtr
    ensures Windows(chain, rest, pos, all, unread)
    ensures p.Valid() && p.appendPtr == old(p.appendPtr) + |bytes|
    ensures forall from :: 0 <= from <= old(p.appendPtr) ==> p.BytesFrom(from) == old(p.BytesFrom(from)) + bytes
  {
    hide Windows;
    FillPacket(p, bytes);
  }

  /** The chain without its last packet. */
  lemma WithoutLast(chain: seq<Packet>, rest: seq<Packet>, pos: nat, all: seq<Byte>, unread: seq<Byte>)
    returns (init: seq<Packet>, restInit: seq<Packet>, front: seq<Byte>, unreadFront: seq<Byte>)
    requires Carries(chain, rest, pos, all, unread)
    ensures chain != [] && chain == init + [Last(chain)] && rest == restInit + [Last(chain)]
    ensures Last(chain) !in init && Last(chain) !in restInit
    ensures Windows(init, restInit, pos, front, unreadFront)
    ensures Ends(Last(chain), init, restInit, pos, front, unreadFront, all, unread)
  {
    init, restInit := Front(chain), Front(rest);
    LastApart(chain, rest);
    WindowsFront(init, restInit, Last(chain), pos);
    front, unreadFront := ChainBytes(init), Unread(restInit, pos);
  }

  /** What the last packet adds to the packets before it. */
  ghost predicate Ends(tail: Packet, init: seq<Packet>, restInit: seq<Packet>, pos: nat,
      front: seq<Byte>, unreadFront: seq<Byte>, all: seq<Byte>, unread: seq<Byte>)
    reads tail
  {
    && tail.Valid() && (init != [] ==> tail.prependPtr < tail.appendPtr)
    && (restInit == [] ==> tail.prependPtr <= pos <= tail.appendPtr)
    && all == front + tail.Bytes()
    && unread == if restInit == [] then tail.BytesFrom(pos) else unreadFront + tail.Bytes()
  }

  lemma WithLast(tail: Packet, init: seq<Packet>, restInit: seq<Packet>, pos: nat,
      front: seq<Byte>, unreadFront: seq<Byte>, all: seq<Byte>, unread: seq<Byte>)
    requires Windows(init, restInit, pos, front, unreadFront)
    requires Ends(tail, init, restInit, pos, front, unreadFront, all, unread)
    ensures Windows(init + [tail], restInit + [tail], pos, all, unread)
  {
    WindowsSnoc(init, restInit, tail, pos, front, unreadFront);
  }

  /** Fills up the last packet. */
  method FillLast(tail: Packet, bytes: seq<Byte>, ghost init: seq<Packet>, ghost restInit: seq<Packet>, ghost pos: nat,
      ghost front: seq<Byte>, ghost unreadFront: seq<Byte>, ghost all: seq<Byte>, ghost unread: seq<Byte>)
    requires tail !in init && tail !in restInit && Windows(init, restInit, pos, front, unreadFront)
    requires Ends(tail, init, restInit, pos, front, unreadFront, all, unread)
    modifies tail`memory, tail`appendPtr
    ensures Windows(init, restInit, pos, front, unreadFront)
    ensures Ends(tail, init, restInit, pos, front, unreadFront, all + bytes, unread + bytes)
  {
    Assoc(front, tail.Bytes(), bytes);
    Assoc(unreadFront, tail.Bytes(), bytes);
    hide Windows;
    FillApart(tail, bytes, init, restInit, pos, front, unreadFront);
  }

  /** Extends the last packet of a chain. */
  method ExtendTail(tail: Packet, bytes: seq<Byte>, ghost chain: seq<Packet>, ghost rest: seq<Packet>, ghost pos: nat,
      ghost all: seq<Byte>, ghost unread: seq<Byte>)
    requires Carries(chain, rest, pos, all, unread) && chain != [] && tail == Last(chain)
    modifies tail`memory, tail`appendPtr
    ensures Carries(chain, rest, pos, all + bytes, unread + bytes)
  {
    hide Shape, Windows, Ends, Last;
    ghost var init, restInit, front, unreadFront := WithoutLast(chain, rest, pos, all, unread);
    FillLast(tail, bytes, init, restInit, pos, front, unreadFront, all, unread);
    WithLast(tail, init, restInit, pos, front, unreadFront, all + bytes, unread + bytes);
  }

  lemma {:induction false} DistinctSnoc(chain: seq<Packet>, p: Packet)
    requires Distinct(chain) && p !in chain
    ensures Distinct(chain + [p])
  {
    if chain != [] {
      assert (chain + [p])[1..] == chain[1..] + [p];
      DistinctSnoc(chain[1..], p);
    }
  }

  /** Links one more packet behind a chain; `chain` and `rest` contain it already. */
  method LinkTail(tail: Packet, packet: Packet, ghost init: seq<Packet>, ghost chain: seq<Packet>,
      ghost rest: seq<Packet>, ghost pos: nat,
      ghost all: seq<Byte>, ghost unread: seq<Byte>)
    requires init != [] && tail == Last(init) && Links(init) && Distinct(init)
    requires packet !in init && packet.next == null && chain == init + [packet]
    requires Suffix(rest, chain) && rest != [] && Windows(chain, rest, pos, all, unread)
    modifies tail`next
    ensures Carries(chain, rest, pos, all, unread)
  {
    DistinctSnoc(init, packet);
    DistinctAt(init, |init| - 1);
    hide Windows, Distinct, Suffix;
    tail.next := packet;
  }

  lemma AppendOwned(held: set<Packet>, chain: seq<Packet>, others: set<Packet>, p: Packet, handed: set<Packet>,
      released: set<Packet>, arrived: set<Packet>)
    requires Partition(held, Nodes(chain) + others, handed, released, arrived) && p !in arrived
    ensures Partition(held, Nodes(chain + [p]) + others, handed, released, arrived + {p})
  {
    NodesAppend(chain, [p]);
  }

  lemma {:induction false} Parts(chain: seq<Packet>, rest: seq<Packet>, pos: nat, all: seq<Byte>, unread: seq<Byte>,
      p: Packet)
    requires Carries(chain, rest, pos, all, unread)
    ensures Links(chain) && Distinct(chain) && Suffix(rest + [p], chain + [p])
    ensures Windows(chain, rest, pos, all, unread) && chain != [] && rest != []
  {
  }

  /** Puts bytes into a new packet at the end of a chain. */
  method AddPacket(c: Client, tail: Packet, bytes: seq<Byte>, ghost chain: seq<Packet>, ghost rest: seq<Packet>,
      ghost pos: nat,
      ghost all: seq<Byte>, ghost unread: seq<Byte>, ghost others: set<Packet>)
    returns (ghost chain': seq<Packet>, ghost rest': seq<Packet>)
    requires Carries(chain, rest, pos, all, unread) && chain != [] && tail == Last(chain)
    requires Owned(c, Nodes(chain) + others) && bytes != []
    modifies c`arrived, tail`next
    ensures Carries(chain', rest', pos, all + bytes, unread + bytes)
    ensures Owned(c, Nodes(chain') + others) && chain <= chain' && rest <= rest'
    ensures forall p :: p in chain' ==> p in chain || fresh(p)
  {
    hide Carries, Last;
    var packet := new Packet(bytes);
    assert packet !in chain && packet !in c.arrived && packet.Bytes() == bytes;
    AppendOwned(Nodes(c.held), chain, others, packet, c.handed, c.released, c.arrived);
    chain', rest', c.arrived := chain + [packet], rest + [packet], c.arrived + {packet};
    assert Owned(c, Nodes(chain') + others);
    Parts(chain, rest, pos, all, unread, packet);
    WindowsSnoc(chain, rest, packet, pos, all, unread);
    hide *;
    LinkTail(tail, packet, chain, chain', rest', pos, all + bytes, unread + bytes);
  }

  lemma InTransit(c: Client, head: Packet, tail: Packet, chain: seq<Packet>, others: set<Packet>)
    requires chain != [] && head == chain[0] && tail == Last(chain) && Owned(c, Nodes(chain) + others)
    ensures head in Nodes(chain) && tail in Nodes(chain) && Nodes(chain) <= c.arrived
  {
  }

  /**
   Appends bytes to a chain: as many as fit behind the last packet's bytes, the others in a new packet. How
   many fit is left open.
   */
  method DataAppend(c: Client, head: Packet, bytes: seq<Byte>, ghost chain: seq<Packet>,
      ghost rest: seq<Packet>, ghost pos: nat,
      ghost all: seq<Byte>, ghost unread: seq<Byte>, ghost others: set<Packet>)
    returns (ghost chain': seq<Packet>, ghost rest': seq<Packet>)
    requires Carries(chain, rest, pos, all, unread) && chain != [] && chain[0] == head
      && Owned(c, Nodes(chain) + others)
    modifies c`arrived, Nodes(chain)
    ensures Carries(chain', rest', pos, all + bytes, unread + bytes)
    ensures Owned(c, Nodes(chain') + others) && chain <= chain' && rest <= rest'
    ensures forall p :: p in chain' ==> p in chain || fresh(p)
    ensures head.length == old(head.length) + |bytes|
  {
    var tail := FindTail(head, chain);
    InTransit(c, head, tail, chain, others);
    hide *;
    head.length := head.length + |bytes|;
    var fit :| 0 <= fit <= |bytes|;
    var now, later := bytes[..fit], bytes[fit..];
    assert bytes == now + later;
    chain', rest' := chain, rest;
    ExtendTail(tail, now, chain, rest, pos, all, unread);
    if later != [] {
      Assoc(all, now, later);
      Assoc(unread, now, later);
      chain', rest' := AddPacket(c, tail, later, chain, rest, pos, all + now, unread + now, others);
    } else {
      assert now == bytes;
    }
  }

  lemma FlattenSnoc(parts: seq<seq<Byte>>, k: nat)
    requires k < |parts|
    ensures Flatten(parts[..k + 1]) == Flatten(parts[..k]) + parts[k]
  {
    assert parts[..k + 1] == parts[..k] + [parts[k]];
    FlattenAppend(parts[..k], [parts[k]]);
    assert Flatten([parts[k]]) == parts[k] + [];
  }

  /** The chain `more` is linked and holds `parts`. */
  ghost predicate Source(more: seq<Packet>, parts: seq<seq<Byte>>)
    reads more
  {
    Linked(more) && HoldsParts(more, parts)
  }

  lemma SourceAt(more: seq<Packet>, parts: seq<seq<Byte>>, k: nat)
    requires Source(more, parts) && k < |more|
    ensures |more| == |parts| && more[k].Valid() && more[k].Bytes() == parts[k]
    ensures more[k].next == if k + 1 < |more| then more[k + 1] else null
  {
  }

  /** The chain of a response while another chain is appended to it, `now` being the bytes appended so far. */
  ghost predicate Growing(c: Client, chain: seq<Packet>, rest: seq<Packet>, pos: nat, all: seq<Byte>, unread: seq<Byte>,
      more: seq<Packet>, parts: seq<seq<Byte>>)
    reads c`held, c`handed, c`released, c`arrived, chain, rest, more
  {
    && Carries(chain, rest, pos, all, unread) && chain != [] && Source(more, parts)
    && Owned(c, Nodes(chain) + Nodes(more)) && Nodes(chain) !! Nodes(more)
  }

  /** Packet number `k` is next to be appended; `length` is what the head counted at the start. */
  ghost predicate Appending(c: Client, chain: seq<Packet>, rest: seq<Packet>, pos: nat, all: seq<Byte>,
      unread: seq<Byte>,
      more: seq<Packet>, parts: seq<seq<Byte>>, k: nat, tmp: Packet?, head: Packet,
      work: Packet, length: nat)
    reads c`held, c`handed, c`released, c`arrived, chain, rest, more
  {
    && k <= |more| == |parts| && tmp == (if k < |more| then more[k] else null)
    && chain != [] && chain[0] == head && rest != [] && rest[0] == work
    && head.length == length + |Flatten(parts[..k])|
    && Growing(c, chain, rest, pos, all + Flatten(parts[..k]), unread + Flatten(parts[..k]), more, parts)
  }

  lemma AppendStart(c: Client, chain: seq<Packet>, rest: seq<Packet>, pos: nat, all: seq<Byte>, unread: seq<Byte>,
      more: seq<Packet>, parts: seq<seq<Byte>>, head: Packet)
    requires Growing(c, chain, rest, pos, all, unread, more, parts) && chain[0] == head && more != []
    ensures rest != []
    ensures Appending(c, chain, rest, pos, all, unread, more, parts, 0, more[0], head, rest[0], head.length)
  {
    SourceAt(more, parts, 0);
    assert Flatten(parts[..0]) == [] && all + [] == all && unread + [] == unread;
  }

  lemma {:induction false} AppendEnd(c: Client, chain: seq<Packet>, rest: seq<Packet>, pos: nat, all: seq<Byte>,
      unread: seq<Byte>, more: seq<Packet>, parts: seq<seq<Byte>>, k: nat, tmp: Packet?, head: Packet, work: Packet,
      length: nat)
    requires Appending(c, chain, rest, pos, all, unread, more, parts, k, tmp, head, work, length)
    ensures k <= |more|
    ensures tmp != null ==> k < |more|
    ensures tmp == null ==>
      && Growing(c, chain, rest, pos, all + Flatten(parts), unread + Flatten(parts), more, parts)
      && chain[0] == head && rest != [] && rest[0] == work && head.length == length + |Flatten(parts)|
  {
    assert k == |parts| ==> parts[..k] == parts;
  }

  /** Appends the contents of one packet. */
  method AppendPacket(c: Client, head: Packet, tmp: Packet, ghost k: nat, ghost more: seq<Packet>,
      ghost parts: seq<seq<Byte>>,
      ghost chain: seq<Packet>, ghost rest: seq<Packet>, ghost pos: nat, ghost all: seq<Byte>,
      ghost unread: seq<Byte>,
      ghost work: Packet, ghost length: nat)
    returns (ghost chain': seq<Packet>, ghost rest': seq<Packet>)
    requires Appending(c, chain, rest, pos, all, unread, more, parts, k, tmp, head, work, length)
    modifies c`arrived, Nodes(chain)
    ensures Appending(c, chain', rest', pos, all, unread, more, parts, k + 1, tmp.next, head, work, length)
    ensures forall p :: p in chain' ==> p in chain || fresh(p)
  {
    hide Carries, Source, Owned, Flatten;
    ghost var now := Flatten(parts[..k]);
    SourceAt(more, parts, k);
    FlattenSnoc(parts, k);
    Assoc(all, now, parts[k]);
    Assoc(unread, now, parts[k]);
    var b := tmp.memory[tmp.prependPtr..tmp.appendPtr];
    chain', rest' := DataAppend(c, head, b, chain, rest, pos, all + now, unread + now, Nodes(more));
    SourceAt(more, parts, k);
  }

  /** Appends the contents of a received chain, packet by packet. */
  method AppendPackets(c: Client, head: Packet, packet: Packet, ghost more: seq<Packet>, ghost parts: seq<seq<Byte>>,
      ghost chain: seq<Packet>, ghost rest: seq<Packet>, ghost pos: nat, ghost all: seq<Byte>,
      ghost unread: seq<Byte>)
    returns (ghost chain': seq<Packet>, ghost rest': seq<Packet>)
    requires Growing(c, chain, rest, pos, all, unread, more, parts) && chain[0] == head
    requires more != [] && more[0] == packet
    modifies c`arrived, Nodes(chain)
    ensures Growing(c, chain', rest', pos, all + Flatten(parts), unread + Flatten(parts), more, parts)
    ensures chain'[0] == head && rest != [] && rest' != [] && rest'[0] == rest[0]
    ensures forall p :: p in chain' ==> p in chain || fresh(p)
    ensures head.length == old(head.length) + |Flatten(parts)|
  {
    AppendStart(c, chain, rest, pos, all, unread, more, parts, head);
    ghost var work, length := rest[0], head.length;
    hide Growing, Appending, Flatten;
    var tmp: Packet? := packet;
    ghost var k := 0;
    chain', rest' := chain, rest;
    while tmp != null
      invariant Appending(c, chain', rest', pos, all, unread, more, parts, k, tmp, head, work, length)
      invariant forall p :: p in chain' ==> p in chain || fresh(p)
      decreases |more| - k
    {
      AppendEnd(c, chain', rest', pos, all, unread, more, parts, k, tmp, head, work, length);
      chain', rest' := AppendPacket(c, head, tmp, k, more, parts, chain', rest', pos, all, unread, work, length);
      tmp, k := tmp.next, k + 1;
    }
    AppendEnd(c, chain', rest', pos, all, unread, more, parts, k, tmp, head, work, length);
  }

  // ---------------------------------------------------------------- the search over all that arrives

  /** The rest of a chain with a position in its first packet. */
  ghost predicate Ahead(work: Packet, rest: seq<Packet>, pos: nat)
    reads rest
  {
    && rest != [] && work == rest[0] && AllValid(rest) && Links(rest)
    && work.prependPtr <= pos <= work.appendPtr
  }

  lemma AheadNext(work: Packet, rest: seq<Packet>, pos: nat)
    requires Ahead(work, rest, pos) && pos == work.appendPtr
    ensures if work.next == null then work == Last(rest) && Unread(rest, pos) == []
            else
              && |rest| > 1 && Last(rest[1..]) == Last(rest) && Ahead(work.next, rest[1..], work.next.prependPtr)
              && Unread(rest[1..], work.next.prependPtr) == Unread(rest, pos)
  {
    if |rest| > 1 {
      assert rest[1].Valid();
    }
  }

  lemma ScanWindow(work: Packet, rest: seq<Packet>, pos: nat, found: nat)
    requires Ahead(work, rest, pos)
    ensures match ScanFrom(work.BytesFrom(pos), found)
      case Found(_) => ScanFrom(Unread(rest, pos), found).Found?
      case Searching(k) => SameOutcome(ScanFrom(Unread(rest, pos), found), ScanFrom(Unread(rest, work.appendPtr), k))
  {
    var here, there := work.BytesFrom(pos), ChainBytes(rest[1..]);
    assert work.Valid() && work.BytesFrom(work.appendPtr) == [] && [] + there == there;
    assert Unread(rest, pos) == here + there && Unread(rest, work.appendPtr) == there;
    hide *;
    ScanSplit(here, there, found);
  }

  /** Searches a chain from a position on; stops at its end when nothing is found. */
  method ScanChain(work: Packet, pos: nat, found: nat, ghost rest: seq<Packet>, ghost unread: seq<Byte>)
    returns (hit: bool, found': nat, work': Packet, pos': nat)
    requires Ahead(work, rest, pos) && unread == Unread(rest, pos)
    ensures hit <==> ScanFrom(unread, found).Found?
    ensures !hit ==> ScanFrom(unread, found) == Searching(found') && work' == Last(rest) && pos' == work'.appendPtr
  {
    hide Unread, Links, Packet.BytesFrom, Last;
    hit, found', work', pos' := false, found, work, pos;
    ghost var left := rest;
    while true
      invariant left != [] && Last(left) == Last(rest) && Ahead(work', left, pos') && !hit
      invariant SameOutcome(ScanFrom(unread, found), ScanFrom(Unread(left, pos'), found'))
      decreases |left|
    {
      ScanWindow(work', left, pos', found');
      found', hit := ScanPacket(work', pos', found', work'.BytesFrom(pos'));
      pos' := work'.appendPtr;
      if hit {
        return;
      }
      AheadNext(work', left, pos');
      if work'.next == null {
        return;
      }
      work' := work'.next;
      pos' := work'.prependPtr;
      left := left[1..];
    }
  }

  /** A received chain with the byte count on its head. */
  ghost predicate Assembled(chain: seq<Packet>, head: Packet, all: seq<Byte>)
    reads chain
  {
    && Linked(chain) && FullBehind(chain) && chain != [] && chain[0] == head
    && ChainBytes(chain) == all && head.length == |all|
  }

  lemma AtEnd(chain: seq<Packet>, head: Packet, all: seq<Byte>)
    requires Assembled(chain, head, all)
    ensures chain != [] && chain[0] == head && head.length == |all|
    ensures Carries(chain, [Last(chain)], Last(chain).appendPtr, all, [])
  {
    assert [Last(chain)] == chain[|chain| - 1..];
    assert Last(chain).Valid();
  }

  lemma CarriesAssembled(chain: seq<Packet>, head: Packet, rest: seq<Packet>, pos: nat, all: seq<Byte>,
      unread: seq<Byte>)
    requires Carries(chain, rest, pos, all, unread) && chain != [] && chain[0] == head && head.length == |all|
    ensures Assembled(chain, head, all)
    ensures rest != []
    ensures Ahead(rest[0], rest, pos) && Last(rest) == Last(chain) && Unread(rest, pos) == unread
  {
    assert forall i :: 0 <= i < |rest| ==> rest[i] == chain[|chain| - |rest| + i];
  }

  lemma {:induction false} WholeChain(chain: seq<Packet>, head: Packet, all: seq<Byte>)
    requires Linked(chain) && chain != [] && chain[0] == head && Full(chain[1..])
    requires ChainBytes(chain) == all && head.length == |all|
    ensures Assembled(chain, head, all) && Ahead(head, chain, head.prependPtr) && Unread(chain, head.prependPtr) == all
  {
    forall i | 1 <= i < |chain|
      ensures chain[i].prependPtr < chain[i].appendPtr
    {
      assert chain[i] == chain[1..][i - 1];
    }
    assert head.Valid();
  }

  lemma {:induction false} ScanOn(all: seq<Byte>, more: seq<Byte>, found: nat)
    requires ScanFrom(all, 0) == Searching(found)
    ensures SameOutcome(ScanFrom(all + more, 0), ScanFrom(more, found))
  {
    ScanSplit(all, more, 0);
  }

  lemma Joined(c: Client, chain: seq<Packet>, rest: seq<Packet>, pos: nat, all: seq<Byte>, more: seq<Packet>,
      parts: seq<seq<Byte>>, before: set<Packet>)
    requires Carries(chain, rest, pos, all, []) && chain != []
    requires Linked(more) && HoldsParts(more, parts)
    requires Nodes(chain) <= before && Nodes(more) !! before
    requires Owned(c, Nodes(chain) + Nodes(more))
    ensures Growing(c, chain, rest, pos, all, [], more, parts)
  {
  }

  /** What is known when a chain is appended and about to be given back. */
  lemma Grown(c: Client, chain: seq<Packet>, rest: seq<Packet>, pos: nat, all: seq<Byte>, unread: seq<Byte>,
      more: seq<Packet>, parts: seq<seq<Byte>>)
    requires Growing(c, chain, rest, pos, all, unread, more, parts)
    ensures Carries(chain, rest, pos, all, unread) && Linked(more) && Nodes(more) !! c.released + c.handed
    ensures Partition(Nodes(c.held), Nodes(chain), c.handed, c.released + Nodes(more), c.arrived)
  {
    ReleaseTransit(Nodes(c.held), Nodes(chain), Nodes(more), c.handed, c.released, c.arrived);
  }

  /** Gives a chain back once it is appended. */
  method GiveBack(c: Client, packet: Packet, ghost more: seq<Packet>, ghost parts: seq<seq<Byte>>,
      ghost chain: seq<Packet>, ghost rest: seq<Packet>, ghost pos: nat, ghost all: seq<Byte>,
      ghost unread: seq<Byte>)
    requires Growing(c, chain, rest, pos, all, unread, more, parts) && more != [] && more[0] == packet
    modifies c`released
    ensures Carries(chain, rest, pos, all, unread) && Owned(c, Nodes(chain))
  {
    hide Linked, Carries, Growing, Nodes, Partition;
    Grown(c, chain, rest, pos, all, unread, more, parts);
    Release(c, packet, more);
  }

  /** Appends a received chain and gives it back. */
  method TakeOver(c: Client, head: Packet, packet: Packet, ghost more: seq<Packet>, ghost parts: seq<seq<Byte>>,
      ghost bytes: seq<Byte>,
      ghost chain: seq<Packet>, ghost rest: seq<Packet>, ghost pos: nat, ghost all: seq<Byte>)
    returns (ghost chain': seq<Packet>, ghost rest': seq<Packet>)
    requires Growing(c, chain, rest, pos, all, [], more, parts) && chain[0] == head && head.length == |all|
    requires more != [] && more[0] == packet && bytes == Flatten(parts)
    modifies c`arrived, c`released, Nodes(chain)
    ensures Carries(chain', rest', pos, all + bytes, bytes) && chain' != [] && chain'[0] == head
    ensures Owned(c, Nodes(chain')) && head.length == |all + bytes| && rest != [] && rest' != [] && rest'[0] == rest[0]
    ensures forall p :: p in chain' ==> p in chain || fresh(p)
  {
    assert chain != [] && [] + bytes == bytes;
    hide *;
    chain', rest' := AppendPackets(c, head, packet, more, parts, chain, rest, pos, all, []);
    GiveBack(c, packet, more, parts, chain', rest', pos, all + bytes, bytes);
  }

  /** Receives one more chain while one is being assembled. */
  method ReceiveNext(c: Client, ghost chain: seq<Packet>, ghost rest: seq<Packet>, ghost pos: nat,
      ghost all: seq<Byte>, ghost net: seq<seq<seq<Byte>>>)
    returns (status: Status, packet: Packet?, ghost more: seq<Packet>)
    requires NetOk(c.network) && net == c.network && Carries(chain, rest, pos, all, []) && chain != []
      && Owned(c, Nodes(chain))
    modifies c`network, c`arrived
    ensures NetOk(c.network)
    ensures net == [] ==> status == NX_NOT_CONNECTED && c.network == [] && Owned(c, Nodes(chain))
    ensures net != [] ==>
      && status == NX_SUCCESS && c.network == net[1..] && packet != null && more != [] && more[0] == packet
      && Growing(c, chain, rest, pos, all, [], more, net[0])
  {
    hide Carries, NetOk, Linked, HoldsParts, Full, ChainBytes;
    ghost var before := c.arrived;
    status, packet, more := Receive(c);
    if status == NX_SUCCESS {
      forall p | p in more
        ensures p !in before
      {
      }
      Joined(c, chain, rest, pos, all, more, net[0], before);
    }
  }

  /**
   One more step of the search: another chain is received, its bytes are appended, and they are searched.
   `all` are the bytes searched so far, in which there is no blank line.
   */
  method ReceiveMore(c: Client, head: Packet, work: Packet, pos: nat, found: nat, ghost chain: seq<Packet>,
      ghost all: seq<Byte>,
      ghost net: seq<seq<seq<Byte>>>)
    returns (status: Status, hit: bool, found': nat, work': Packet, pos': nat, ghost chain': seq<Packet>,
      ghost all': seq<Byte>)
    requires NetOk(c.network) && net == c.network && Assembled(chain, head, all) && Owned(c, Nodes(chain))
    requires work == Last(chain) && pos == work.appendPtr && ScanFrom(all, 0) == Searching(found)
    modifies c`network, c`arrived, c`released, Nodes(chain)
    ensures NetOk(c.network) && Assembled(chain', head, all') && Owned(c, Nodes(chain'))
    ensures forall p :: p in chain' ==> p in chain || fresh(p)
    ensures hit <==> ScanFrom(all', 0).Found?
    ensures !hit ==> ScanFrom(all', 0) == Searching(found') && work' == Last(chain') && pos' == work'.appendPtr
    ensures net == [] ==> status == NX_NOT_CONNECTED && all' == all && c.network == []
    ensures net != [] ==> status == NX_SUCCESS && c.network == net[1..] && all' == all + Flatten(net[0])
  {
    AtEnd(chain, head, all);
    hide *;
    hit, found', work', pos', chain', all' := false, found, work, pos, chain, all;
    var packet: Packet?;
    ghost var more;
    status, packet, more := ReceiveNext(c, chain, [work], pos, all, net);
    if status != NX_SUCCESS {
      return;
    }
    ghost var bytes := Flatten(net[0]);
    ghost var rest;
    chain', rest := TakeOver(c, head, packet, more, net[0], bytes, chain, [work], pos, all);
    all' := all + bytes;
    CarriesAssembled(chain', head, rest, pos, all', bytes);
    ScanOn(all, bytes, found);
    hit, found', work', pos' := ScanChain(work, pos, found, rest, bytes);
  }

  /** A chain in assembly: with what the network still has, it makes up all the bytes `s`. */
  ghost predicate Collected(c: Client, chain: seq<Packet>, head: Packet, all: seq<Byte>, s: seq<Byte>)
    reads c`responsePacket, c`held, c`handed, c`released, c`arrived, c`network, chain
  {
    && Assembled(chain, head, all) && NetOk(c.network) && Owned(c, Nodes(chain)) && c.responsePacket == null
      && c.held == []
    && all + NetBytes(c.network) == s
  }

  /** The search has gone through `all`; it has found the blank line, or has counted to `found` and is at the end. */
  ghost predicate Searched(chain: seq<Packet>, all: seq<Byte>, hit: bool, found: nat, work: Packet?, pos: nat)
    reads chain
  {
    if hit then ScanFrom(all, 0).Found?
    else ScanFrom(all, 0) == Searching(found) && chain != [] && work == Last(chain) && pos == work.appendPtr
  }

  /** A header that ends in the first chain is found there, and nothing is received or appended after that. */
  ghost predicate FirstOnly(c: Client, chain: seq<Packet>, first: seq<seq<Byte>>, rest: seq<seq<seq<Byte>>>, hit: bool)
    reads c`network, chain
  {
    ScanFrom(Flatten(first), 0).Found? ==> hit && HoldsParts(chain, first) && c.network == rest
  }

  /** The chains received are those up to the one in which the blank line ends: `all`, with `rest` still to come. */
  predicate UpTo(net: seq<seq<seq<Byte>>>, rest: seq<seq<seq<Byte>>>, all: seq<Byte>) {
    && |rest| < |net|
    && var k := |net| - |rest|;
    && rest == net[k..] && all == NetBytes(net[..k]) && ScanFrom(NetBytes(net[..k - 1]), 0).Searching?
  }

  lemma {:induction false} UpToFirst(net: seq<seq<seq<Byte>>>)
    requires net != []
    ensures UpTo(net, net[1..], Flatten(net[0]))
  {
    NetBytesOne(net, 0);
    assert net[..0] == [] && NetBytes([]) == [];
    assert NetBytes([]) + Flatten(net[0]) == Flatten(net[0]);
    hide NetBytes, Flatten;
  }

  lemma {:induction false} UpToNext(net: seq<seq<seq<Byte>>>, rest: seq<seq<seq<Byte>>>, all: seq<Byte>)
    requires UpTo(net, rest, all) && rest != [] && ScanFrom(all, 0).Searching?
    ensures UpTo(net, rest[1..], all + Flatten(rest[0]))
  {
    NetBytesOne(net, |net| - |rest|);
    hide NetBytes, Flatten, ScanFrom;
  }

  lemma NothingInFirst(c: Client, chain: seq<Packet>, first: seq<seq<Byte>>, rest: seq<seq<seq<Byte>>>, hit: bool)
    requires !ScanFrom(Flatten(first), 0).Found?
    ensures FirstOnly(c, chain, first, rest, hit)
  {
  }

  lemma {:induction false} Concatenated(net: seq<seq<seq<Byte>>>, all: seq<Byte>)
    ensures net != [] ==> all + NetBytes(net) == all + Flatten(net[0]) + NetBytes(net[1..])
    ensures net == [] ==> NetBytes(net) == [] && all + NetBytes(net) == all
  {
  }

  lemma InHand(c: Client, chain: seq<Packet>, head: Packet, all: seq<Byte>, s: seq<Byte>)
    requires Collected(c, chain, head, all, s)
    ensures Assembled(chain, head, all) && NetOk(c.network) && Owned(c, Nodes(chain)) && all + NetBytes(c.network) == s
    ensures c.responsePacket == null && c.held == [] && Holds(c)
    ensures chain != [] && chain[0] == head && Linked(chain) && Nodes(chain) !! c.released + c.handed
    ensures Partition(Nodes(c.held), {}, c.handed, c.released + Nodes(chain), c.arrived)
  {
    EmptyChain(c.held);
    ReleaseTransit(Nodes(c.held), {}, Nodes(chain), c.handed, c.released, c.arrived);
  }

  /** Receives the first chain of a response. */
  method ReceiveFirst(c: Client, ghost net: seq<seq<seq<Byte>>>) returns (status: Status, head: Packet?,
      ghost chain: seq<Packet>)
    requires Connected(c, {}) && c.held == [] && net == c.network
    modifies c`network, c`arrived
    ensures net == [] ==> status == NX_NOT_CONNECTED && Connected(c, {}) && c.network == []
    ensures net != [] ==>
      && status == NX_SUCCESS && head != null && c.network == net[1..] && HoldsParts(chain, net[0])
      && Collected(c, chain, head, Flatten(net[0]), NetBytes(net))
      && Ahead(head, chain, head.prependPtr) && Unread(chain, head.prependPtr) == Flatten(net[0])
    ensures forall p :: p in chain ==> fresh(p)
  {
    hide HoldsParts, Linked, ChainBytes, Flatten, Full, Assembled, Ahead, Unread;
    status, head, chain := Receive(c);
    if status == NX_SUCCESS {
      WholeChain(chain, head, Flatten(net[0]));
    }
  }

  /** Receives and searches the first chain of a response. */
  method StartResponse(c: Client, ghost net: seq<seq<seq<Byte>>>)
    returns (status: Status, head: Packet?, hit: bool, found: nat, work: Packet?, pos: nat, ghost chain: seq<Packet>,
      ghost all: seq<Byte>)
    requires Connected(c, {}) && c.held == [] && net == c.network
    modifies c`network, c`arrived
    ensures net == [] ==> status == NX_NOT_CONNECTED && Connected(c, {}) && c.network == []
    ensures net != [] ==>
      && status == NX_SUCCESS && head != null && Collected(c, chain, head, all, NetBytes(net))
      && Searched(chain, all, hit, found, work, pos) && FirstOnly(c, chain, net[0], net[1..], hit)
      && UpTo(net, c.network, all)
    ensures forall p :: p in chain ==> fresh(p)
  {
    hide HoldsParts, Flatten, Collected, Ahead, Unread, Connected, ScanFrom, NetBytes;
    status, head, chain := ReceiveFirst(c, net);
    hit, found, work, pos, all := false, 0, head, 0, [];
    if status == NX_SUCCESS {
      InHand(c, chain, head, Flatten(net[0]), NetBytes(net));
      all := Flatten(net[0]);
      UpToFirst(net);
      hit, found, work, pos := ScanChain(head, head.prependPtr, 0, chain, all);
    }
  }

  /** Searches on in another chain; when none comes, what was collected is given back. */
  method ContinueResponse(c: Client, head: Packet, found: nat, work: Packet?, pos: nat,
      ghost chain: seq<Packet>, ghost all: seq<Byte>,
      ghost s: seq<Byte>, ghost net: seq<seq<seq<Byte>>>)
    returns (status: Status, hit: bool, found': nat, work': Packet?, pos': nat, ghost chain': seq<Packet>,
      ghost all': seq<Byte>)
    requires Collected(c, chain, head, all, s) && Searched(chain, all, false, found, work, pos) && net == c.network
    modifies c`network, c`arrived, c`released, Nodes(chain)
    ensures forall p :: p in chain' ==> p in chain || fresh(p)
    ensures net == [] ==> status == NX_NOT_CONNECTED && Connected(c, {}) && c.network == [] && ScanFrom(s, 0).Searching?
    ensures net != [] ==>
      && status == NX_SUCCESS && Collected(c, chain', head, all', s) && Searched(chain', all', hit, found', work', pos')
      && c.network == net[1..] && all' == all + Flatten(net[0]) && ScanFrom(all, 0).Searching?
  {
    hide *;
    InHand(c, chain, head, all, s);
    Unfound(chain, all, found, work, pos);
    Concatenated(net, all);
    status, hit, found', work', pos', chain', all' := ReceiveMore(c, head, work, pos, found, chain, all, net);
    assert all' + NetBytes(c.network) == s;
    CollectedAgain(c, chain', head, all', s);
    if status != NX_SUCCESS {
      GiveUp(c, head, chain', all', s);
    } else {
      SearchedAgain(chain', all', hit, found', work', pos');
    }
  }

  lemma {:induction false} Unfound(chain: seq<Packet>, all: seq<Byte>, found: nat, work: Packet?, pos: nat)
    requires Searched(chain, all, false, found, work, pos)
    ensures ScanFrom(all, 0) == Searching(found) && chain != [] && work == Last(chain) && pos == work.appendPtr
  {
  }

  lemma {:induction false} SearchedAgain(chain: seq<Packet>, all: seq<Byte>, hit: bool, found: nat, work: Packet,
      pos: nat)
    requires hit <==> ScanFrom(all, 0).Found?
    requires chain != []
    requires !hit ==> ScanFrom(all, 0) == Searching(found) && work == Last(chain) && pos == work.appendPtr
    ensures Searched(chain, all, hit, found, work, pos)
  {
  }

  lemma CollectedAgain(c: Client, chain: seq<Packet>, head: Packet, all: seq<Byte>, s: seq<Byte>)
    requires Assembled(chain, head, all) && NetOk(c.network) && Owned(c, Nodes(chain))
    requires c.responsePacket == null && c.held == [] && all + NetBytes(c.network) == s
    ensures Collected(c, chain, head, all, s) && chain != []
  {
  }

  /** Gives back what was collected. */
  method GiveUp(c: Client, head: Packet, ghost chain: seq<Packet>, ghost all: seq<Byte>, ghost s: seq<Byte>)
    requires Collected(c, chain, head, all, s)
    modifies c`released
    ensures Connected(c, {})
  {
    InHand(c, chain, head, all, s);
    hide NetOk, Assembled, Nodes, Partition, Linked, NetBytes;
    Release(c, head, chain);
  }

  /** Receives until the blank line behind a response header is found, appending every received chain to the first. */
  method GetServerResponse(c: Client, ghost net: seq<seq<seq<Byte>>>)
    returns (status: Status, packet: Packet?, ghost chain: seq<Packet>, ghost all: seq<Byte>)
    requires Connected(c, {}) && c.held == [] && net == c.network
    modifies c`network, c`arrived, c`released
    ensures status == if ScanFrom(NetBytes(net), 0).Found? then NX_SUCCESS else NX_NOT_CONNECTED
    ensures status == NX_SUCCESS ==>
      && packet != null && Collected(c, chain, packet, all, NetBytes(net))
      && ScanFrom(all, 0) == ScanFrom(NetBytes(net), 0)
      && net != [] && FirstOnly(c, chain, net[0], net[1..], true) && UpTo(net, c.network, all)
    ensures status != NX_SUCCESS ==> Connected(c, {}) && c.network == []
    ensures forall p :: p in chain ==> fresh(p)
  {
    NothingComes(net);
    hide *;
    packet := null;
    var hit, found, work, pos;
    var head: Packet?;
    status, head, hit, found, work, pos, chain, all := StartResponse(c, net);
    if status != NX_SUCCESS {
      return;
    }
    GoingFrom(c, net, chain, head, all, hit, found, work, pos);
    while !hit
      invariant head != null && Going(c, net, chain, head, all, hit, found, work, pos)
      invariant status == NX_SUCCESS && forall p :: p in chain ==> fresh(p)
      decreases |c.network|
    {
      NodesOf(chain);
      status, hit, found, work, pos, chain, all := SearchOn(c, net, head, found, work, pos, chain, all);
      if status != NX_SUCCESS {
        return;
      }
    }
    FoundIn(c, net, chain, head, all, found, work, pos);
    packet := head;
  }

  lemma NodesOf(chain: seq<Packet>)
    ensures forall p :: p in Nodes(chain) ==> p in chain
  {
  }

  lemma {:induction false} NothingComes(net: seq<seq<seq<Byte>>>)
    ensures net == [] ==> ScanFrom(NetBytes(net), 0).Searching?
  {
  }

  /** The state of the search between two chains. */
  ghost predicate Going(c: Client, net: seq<seq<seq<Byte>>>, chain: seq<Packet>, head: Packet, all: seq<Byte>,
      hit: bool, found: nat, work: Packet?, pos: nat)
    reads c`responsePacket, c`held, c`handed, c`released, c`arrived, c`network, chain
  {
    && net != [] && Collected(c, chain, head, all, NetBytes(net)) && Searched(chain, all, hit, found, work, pos)
    && FirstOnly(c, chain, net[0], net[1..], hit) && UpTo(net, c.network, all)
  }

  lemma {:induction false} GoingFrom(c: Client, net: seq<seq<seq<Byte>>>, chain: seq<Packet>, head: Packet,
      all: seq<Byte>, hit: bool, found: nat, work: Packet?, pos: nat)
    requires net != [] && Collected(c, chain, head, all, NetBytes(net)) && Searched(chain, all, hit, found, work, pos)
    requires FirstOnly(c, chain, net[0], net[1..], hit) && UpTo(net, c.network, all)
    ensures Going(c, net, chain, head, all, hit, found, work, pos)
  {
  }

  /** Goes on with the search in another chain. */
  method SearchOn(c: Client, ghost net: seq<seq<seq<Byte>>>, head: Packet, found: nat, work: Packet?, pos: nat,
      ghost chain: seq<Packet>, ghost all: seq<Byte>)
    returns (status: Status, hit: bool, found': nat, work': Packet?, pos': nat, ghost chain': seq<Packet>,
      ghost all': seq<Byte>)
    requires Going(c, net, chain, head, all, false, found, work, pos)
    modifies c`network, c`arrived, c`released, Nodes(chain)
    ensures forall p :: p in chain' ==> p in chain || fresh(p)
    ensures status == NX_SUCCESS || status == NX_NOT_CONNECTED
    ensures status == NX_SUCCESS ==>
      |c.network| < |old(c.network)| && Going(c, net, chain', head, all', hit, found', work', pos')
    ensures status != NX_SUCCESS ==> Connected(c, {}) && c.network == [] && ScanFrom(NetBytes(net), 0).Searching?
  {
    GoingParts(c, net, chain, head, all, found, work, pos);
    ghost var was := c.network;
    hide *;
    status, hit, found', work', pos', chain', all' :=
      ContinueResponse(c, head, found, work, pos, chain, all, NetBytes(net), c.network);
    if status == NX_SUCCESS {
      UpToNext(net, was, all);
      NothingInFirst(c, chain', net[0], net[1..], hit);
      GoingFrom(c, net, chain', head, all', hit, found', work', pos');
    }
  }

  /** A search that goes on has not found the blank line in the first chain. */
  lemma {:induction false} GoingParts(c: Client, net: seq<seq<seq<Byte>>>, chain: seq<Packet>, head: Packet,
      all: seq<Byte>, found: nat, work: Packet?, pos: nat)
    requires Going(c, net, chain, head, all, false, found, work, pos)
    ensures net != [] && Collected(c, chain, head, all, NetBytes(net))
    ensures Searched(chain, all, false, found, work, pos) && !ScanFrom(Flatten(net[0]), 0).Found?
    ensures UpTo(net, c.network, all)
  {
  }

  /** The end of a search. */
  lemma {:induction false} FoundIn(c: Client, net: seq<seq<seq<Byte>>>, chain: seq<Packet>, head: Packet,
      all: seq<Byte>, found: nat, work: Packet?, pos: nat)
    requires Going(c, net, chain, head, all, true, found, work, pos)
    ensures Collected(c, chain, head, all, NetBytes(net)) && net != [] && FirstOnly(c, chain, net[0], net[1..], true)
    ensures UpTo(net, c.network, all)
    ensures ScanFrom(all, 0) == ScanFrom(NetBytes(net), 0) && ScanFrom(NetBytes(net), 0).Found?
  {
    ScanSplit(all, NetBytes(c.network), 0);
  }
}
