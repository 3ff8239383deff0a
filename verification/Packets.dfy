/** NetX packets: nodes with a window into a block of memory, linked into chains. */
module Packets {
  import opened Bytes

  class Packet {
    var memory: seq<Byte>
    var prependPtr: nat   // first byte of the window
    var appendPtr: nat    // just past the last byte of the window
    var length: nat       // on the head of a chain: the bytes of the whole chain
    var next: Packet?
    var last: Packet?

    ghost predicate Valid()
      reads `memory, `prependPtr, `appendPtr
    {
      prependPtr <= appendPtr <= |memory|
    }

    /** The bytes of memory from `from` to the end of the window. */
    ghost function BytesFrom(from: nat): (b: seq<Byte>)
      reads `memory, `appendPtr
    {
      if from <= appendPtr <= |memory| then memory[from..appendPtr] else []
    }

    ghost function Bytes(): seq<Byte>
      reads `memory, `prependPtr, `appendPtr
    {
      BytesFrom(prependPtr)
    }

    /** A packet straight from the pool, holding `bytes`. */
    constructor (bytes: seq<Byte>)
      ensures Valid() && next == null && last == null
      ensures memory == bytes && prependPtr == 0 && appendPtr == |bytes| && length == |bytes|
    {
      memory, prependPtr, appendPtr, length := bytes, 0, |bytes|, |bytes|;
      next, last := null, null;
    }
  }

  lemma BytesStep(p: Packet, pos: nat)
    requires p.Valid() && pos < p.appendPtr
    ensures p.BytesFrom(pos) == [p.memory[pos]] + p.BytesFrom(pos + 1)
  {
  }

  ghost function Nodes(c: seq<Packet>): (s: set<Packet>) {
    set p | p in c
  }

  lemma NodesAppend(c: seq<Packet>, d: seq<Packet>)
    ensures Nodes(c + d) == Nodes(c) + Nodes(d)
  {
  }

  ghost predicate Distinct(c: seq<Packet>) {
    c == [] || (c[0] !in c[1..] && Distinct(c[1..]))
  }

  lemma {:induction false} DistinctSplit(c: seq<Packet>, k: nat)
    requires Distinct(c) && k <= |c|
    ensures Distinct(c[..k]) && Distinct(c[k..]) && Nodes(c[..k]) !! Nodes(c[k..])
  {
    if k > 0 {
      DistinctSplit(c[1..], k - 1);
      assert c[..k][1..] == c[1..][..k - 1] && c[k..] == c[1..][k - 1..];
    }
  }

  lemma {:induction false} NodesSplit(c: seq<Packet>, k: nat)
    requires Distinct(c) && k <= |c|
    ensures Nodes(c) == Nodes(c[..k]) + Nodes(c[k..]) && Nodes(c[..k]) !! Nodes(c[k..])
  {
    DistinctSplit(c, k);
    assert c == c[..k] + c[k..];
    NodesAppend(c[..k], c[k..]);
  }

  lemma {:induction false} DistinctAt(c: seq<Packet>, k: nat)
    requires Distinct(c) && k < |c|
    ensures forall i :: 0 <= i < |c| && i != k ==> c[i] != c[k]
  {
    DistinctSplit(c, k);
    DistinctSplit(c, k + 1);
    forall i | 0 <= i < |c| && i != k
      ensures c[i] != c[k]
    {
      if i < k {
        assert c[..k][i] in Nodes(c[..k]) && c[k..][0] in Nodes(c[k..]);
      } else {
        assert c[k + 1..][i - k - 1] in Nodes(c[k + 1..]) && c[..k + 1][k] in Nodes(c[..k + 1]);
      }
    }
  }

  ghost predicate AllValid(c: seq<Packet>)
    reads c`memory, c`prependPtr, c`appendPtr
  {
    forall i :: 0 <= i < |c| ==> c[i].Valid()
  }

  /** Each packet points to the one behind it, and the last one ends the chain. */
  ghost predicate Links(c: seq<Packet>)
    reads c`next
  {
    forall i {:trigger c[i].next} :: 0 <= i < |c| ==> c[i].next == if i + 1 < |c| then c[i + 1] else null
  }

  /** The packets of `c` are distinct and linked in this order. */
  ghost predicate Linked(c: seq<Packet>)
    reads c`memory, c`prependPtr, c`appendPtr, c`next
  {
    AllValid(c) && Links(c) && Distinct(c)
  }

  /** No packet of the chain is empty. */
  ghost predicate Full(c: seq<Packet>)
    reads c`prependPtr, c`appendPtr
  {
    forall i :: 0 <= i < |c| ==> c[i].prependPtr < c[i].appendPtr
  }

  ghost function ChainBytes(c: seq<Packet>): seq<Byte>
    reads c`memory, c`prependPtr, c`appendPtr
  {
    if c == [] then [] else c[0].Bytes() + ChainBytes(c[1..])
  }

  lemma {:induction false} EmptyChain(c: seq<Packet>)
    requires c == []
    ensures Linked(c) && Full(c) && ChainBytes(c) == []
  {
  }

  lemma {:induction false} ChainBytesAppend(c: seq<Packet>, d: seq<Packet>)
    ensures ChainBytes(c + d) == ChainBytes(c) + ChainBytes(d)
  {
    if c == [] {
      assert c + d == d;
    } else {
      assert (c + d)[1..] == c[1..] + d;
      ChainBytesAppend(c[1..], d);
    }
  }

  lemma {:induction false} ChainBytesSplit(c: seq<Packet>, k: nat)
    requires k <= |c|
    ensures ChainBytes(c) == ChainBytes(c[..k]) + ChainBytes(c[k..])
  {
    assert c == c[..k] + c[k..];
    ChainBytesAppend(c[..k], c[k..]);
  }

  lemma {:induction false} FullChainHasBytes(c: seq<Packet>)
    requires Linked(c) && Full(c)
    ensures |ChainBytes(c)| >= |c|
  {
    if c != [] {
      assert c[0].Valid();
      assert Linked(c[1..]) && Full(c[1..]) by { LinkedSuffix(c, 1); }
      FullChainHasBytes(c[1..]);
    }
  }

  lemma LinkedSuffix(c: seq<Packet>, k: nat)
    requires Linked(c) && k <= |c|
    ensures Linked(c[k..])
    ensures Full(c) ==> Full(c[k..])
  {
    var d := c[k..];
    DistinctSplit(c, k);
    forall i | 0 <= i < |d|
      ensures d[i].next == if i + 1 < |d| then d[i + 1] else null
    {
      assert d[i] == c[k + i];
    }
  }

  lemma {:induction false} LinkedCons(p: Packet, rest: seq<Packet>)
    requires Linked(rest) && p !in rest && p.Valid()
    requires p.next == if rest == [] then null else rest[0]
    ensures Linked([p] + rest) && ChainBytes([p] + rest) == p.Bytes() + ChainBytes(rest)
  {
    var c := [p] + rest;
    assert c[1..] == rest;
    forall i | 0 <= i < |c|
      ensures c[i].next == if i + 1 < |c| then c[i + 1] else null
    {
      assert i > 0 ==> c[i] == rest[i - 1];
    }
  }

  /** The chain holds the given contents, one packet for each part. */
  ghost predicate HoldsParts(chain: seq<Packet>, parts: seq<seq<Byte>>)
    reads chain
  {
    |chain| == |parts| && forall i :: 0 <= i < |parts| ==> chain[i].Bytes() == parts[i]
  }

  lemma {:induction false} PartsBytes(chain: seq<Packet>, parts: seq<seq<Byte>>)
    requires HoldsParts(chain, parts)
    ensures ChainBytes(chain) == Flatten(parts)
  {
    if parts != [] {
      PartsBytes(chain[1..], parts[1..]);
    }
  }

  lemma PartsFull(chain: seq<Packet>, parts: seq<seq<Byte>>)
    requires HoldsParts(chain, parts) && forall i :: 1 <= i < |parts| ==> parts[i] != []
    ensures parts != [] ==> Full(chain[1..])
  {
    if parts != [] {
      forall i | 0 <= i < |chain[1..]|
        ensures chain[1..][i].prependPtr < chain[1..][i].appendPtr
      {
        assert chain[1..][i].Bytes() == parts[i + 1];
      }
    }
  }

  lemma PartsCons(chain: seq<Packet>, head: Packet, parts: seq<seq<Byte>>, k: nat)
    requires k < |parts| && head.Bytes() == parts[k] && HoldsParts(chain, parts[k + 1..])
    ensures HoldsParts([head] + chain, parts[k..])
  {
  }

  /** Puts a fresh packet in front of a chain. */
  method NewHead(bytes: seq<Byte>, tail: Packet, ghost rest: seq<Packet>) returns (head: Packet)
    requires rest != [] && rest[0] == tail && Linked(rest) && tail.length == |ChainBytes(rest)|
    ensures fresh(head) && Linked([head] + rest)
    ensures head.Bytes() == bytes && head.length == |ChainBytes([head] + rest)|
  {
    head := new Packet(bytes);
    head.next, head.length := tail, head.length + tail.length;
    LinkedCons(head, rest);
  }

  /** A fresh chain with the given contents, and the byte count on its head. */
  method NewChain(parts: seq<seq<Byte>>) returns (head: Packet, ghost chain: seq<Packet>)
    requires parts != []
    ensures fresh(chain)
    ensures Linked(chain) && chain != [] && chain[0] == head
    ensures HoldsParts(chain, parts)
    ensures head.length == |ChainBytes(chain)|
  {
    var k := |parts| - 1;
    head := new Packet(parts[k]);
    chain := [head];
    while k > 0
      invariant 0 <= k < |parts| && fresh(chain)
      invariant Linked(chain) && chain != [] && chain[0] == head
      invariant HoldsParts(chain, parts[k..])
      invariant head.length == |ChainBytes(chain)|
    {
      k := k - 1;
      ghost var rest := chain;
      head := NewHead(parts[k], head, rest);
      PartsCons(rest, head, parts, k);
      chain := [head] + rest;
    }
  }
}
