/** Any calls that get a response, one after the other: what the packets they return make up. */
module Transfers {
  import opened Bytes
  import opened HttpClient
  import opened HeaderScan
  import opened ChunkCoding
  import opened ResponseBody

  /** A call: how it found the header, if it did, its status, the bytes of the packet it returned, and what is left. */
  datatype Get = Get(opening: Opening, status: Status, bytes: seq<Byte>, after: View)

  /** Calls that get what is left, up to the first one that does not say that there is more. */
  ghost predicate Transfer(v: View, codes: map<seq<Byte>, nat>, head: bool, gets: seq<Get>)
    decreases |gets|
  {
    gets != [] ==>
      var g := gets[0];
      && Gets(v, codes, head, g.opening, g.status, g.bytes, g.after)
      && (|gets| > 1 ==> g.status == NX_SUCCESS && Transfer(g.after, codes, head, gets[1..]))
  }

  /** The bytes of the packets that calls returned. */
  function Received(gets: seq<Get>): seq<Byte> {
    if gets == [] then []
    else
      var g := gets[0];
      (if g.status == NX_SUCCESS || g.status == NX_WEB_HTTP_GET_DONE then g.bytes else []) + Received(gets[1..])
  }

  function Last(gets: seq<Get>): Get
    requires gets != []
  {
    gets[|gets| - 1]
  }

  /** How calls for a body of which `left` bytes are missing, and which arrives in `net`, may end. */
  ghost predicate FixedSoFar(left: nat, net: seq<seq<seq<Byte>>>, got: seq<Byte>, n: nat, last: Get) {
    && got <= NetBytes(net) && |got| <= left
    && match last.status
       case NX_SUCCESS => |got| < left && n <= |net| && last.after == Fixed(left - |got|, net[n..])
       case NX_WEB_HTTP_GET_DONE => |got| == left
       case NX_NOT_CONNECTED => got == NetBytes(net)
       case NX_WEB_HTTP_BAD_PACKET_LENGTH => |NetBytes(net)| > left
       case _ => false
  }

  lemma FixedFirst(left: nat, net: seq<seq<seq<Byte>>>, g: Get)
    requires GetsFixed(left, net, g.status, g.bytes, g.after) && left < UINT_RANGE
    ensures FixedSoFar(left, net, Received([g]), 1, g)
  {
    assert left % UINT_RANGE == left;
    assert [g][1..] == [] && g.bytes + [] == g.bytes;
  }

  lemma FixedNext(left: nat, net: seq<seq<seq<Byte>>>, g: Get, got: seq<Byte>, n: nat, last: Get)
    requires FixedSoFar(left, net, g.bytes, 1, g) && g.status == NX_SUCCESS && g.bytes == Flatten(net[0])
    requires FixedSoFar(left - |g.bytes|, net[1..], got, n, last)
    ensures FixedSoFar(left, net, g.bytes + got, n + 1, last)
  {
    var part, rest := g.bytes, net[1..];
    assert NetBytes(net) == part + NetBytes(rest);
    assert NetBytes(rest) == got + NetBytes(rest)[|got|..];
    assert part + NetBytes(rest) == part + got + NetBytes(rest)[|got|..];
    if last.status == NX_SUCCESS {
      assert rest[n..] == net[n + 1..];
    }
  }

  /**
   A body of announced length: the packets returned are its beginning and never more than what is announced. Only the
   call that makes them all of it says so; every call before leaves exactly what is missing.
   */
  lemma {:induction false} FixedTransfer(left: nat, net: seq<seq<seq<Byte>>>, codes: map<seq<Byte>, nat>, head: bool,
      gets: seq<Get>)
    requires Transfer(Fixed(left, net), codes, head, gets) && gets != [] && left < UINT_RANGE
    ensures FixedSoFar(left, net, Received(gets), |gets|, Last(gets))
    decreases |gets|
  {
    var g := gets[0];
    FixedFirst(left, net, g);
    if |gets| == 1 {
      assert gets == [g];
    } else {
      assert Received([g]) == g.bytes + [];
      assert g.bytes == Flatten(net[0]);
      hide FixedSoFar, GetsFixed;
      FixedRest(left, net, g);
      FixedTransfer(left - |g.bytes|, net[1..], codes, head, gets[1..]);
      FixedNext(left, net, g, Received(gets[1..]), |gets| - 1, Last(gets));
    }
  }

  lemma FixedRest(left: nat, net: seq<seq<seq<Byte>>>, g: Get)
    requires FixedSoFar(left, net, g.bytes, 1, g) && g.status == NX_SUCCESS
    ensures net != [] && |g.bytes| < left && g.after == Fixed(left - |g.bytes|, net[1..])
  {
  }

  /** How calls for a chunked body may end. */
  ghost predicate ChunksSoFar(owed: nat, s: seq<Byte>, got: seq<Byte>, last: Get) {
    match last.status
    case NX_SUCCESS => last.after.Chunks? && Decode(owed, s) == Prepend(got, Decode(last.after.owed, last.after.s))
    case NX_WEB_HTTP_GET_DONE => Decode(owed, s).Done? && Decode(owed, s).content == got
    case NX_NOT_FOUND => Decode(owed, s) == Malformed
    case NX_NOT_CONNECTED => Decode(owed, s) == Truncated
    case _ => false
  }

  lemma ChunksFirst(owed: nat, s: seq<Byte>, net: seq<seq<seq<Byte>>>, g: Get)
    requires GetsChunks(owed, s, net, g.status, g.bytes, g.after)
    ensures ChunksSoFar(owed, s, Received([g]), g)
  {
    assert [g][1..] == [] && g.bytes + [] == g.bytes;
    if g.status == NX_SUCCESS {
      DeliveryDecodes(owed, s, g.bytes, g.after.owed, g.after.s);
    }
    hide Decode, Delivers;
  }

  lemma ChunksNext(owed: nat, s: seq<Byte>, g: Get, got: seq<Byte>, last: Get)
    requires ChunksSoFar(owed, s, g.bytes, g) && g.status == NX_SUCCESS
    requires ChunksSoFar(g.after.owed, g.after.s, got, last)
    ensures ChunksSoFar(owed, s, g.bytes + got, last)
  {
    hide Decode;
    if last.status == NX_SUCCESS {
      var d := Decode(last.after.owed, last.after.s);
      if d.Done? {
        Assoc(g.bytes, got, d.content);
      }
    }
  }

  /**
   A chunked body: the packets returned are what the decoder makes of it so far, whatever is still to come; the call
   that says that all is there has all of it behind it, and an error is that of the decoder.
   */
  lemma {:induction false} ChunkedTransfer(owed: nat, s: seq<Byte>, net: seq<seq<seq<Byte>>>,
      codes: map<seq<Byte>, nat>, head: bool, gets: seq<Get>)
    requires Transfer(Chunks(owed, s, net), codes, head, gets) && gets != []
    ensures ChunksSoFar(owed, s, Received(gets), Last(gets))
    decreases |gets|
  {
    var g := gets[0];
    hide ChunksSoFar, GetsChunks;
    ChunksFirst(owed, s, net, g);
    if |gets| == 1 {
      assert gets == [g];
    } else {
      assert [g][1..] == [] && Received([g]) == g.bytes + [] == g.bytes;
      ChunksLeft(owed, s, g);
      ChunkedTransfer(g.after.owed, g.after.s, g.after.net, codes, head, gets[1..]);
      ChunksNext(owed, s, g, Received(gets[1..]), Last(gets));
    }
  }

  lemma ChunksLeft(owed: nat, s: seq<Byte>, g: Get)
    requires ChunksSoFar(owed, s, g.bytes, g) && g.status == NX_SUCCESS
    ensures g.after.Chunks?
  {
  }

  /** Counters that have gone below zero never say that a body is done. */
  lemma {:induction false} OverdrawnTransfer(left: int, net: seq<seq<seq<Byte>>>, codes: map<seq<Byte>, nat>,
      head: bool, gets: seq<Get>)
    requires Transfer(Fixed(left, net), codes, head, gets) && gets != [] && left < 0
    ensures Received(gets) <= NetBytes(net) && Last(gets).status != NX_WEB_HTTP_GET_DONE
    decreases |gets|
  {
    var g := gets[0];
    OverdrawnFirst(left, net, g);
    assert g.status != NX_SUCCESS || |gets| == 1 ==> gets[1..] == [];
    hide GetsFixed, NetBytes, Flatten, Gets;
    if g.status == NX_SUCCESS {
      if |gets| > 1 {
        OverdrawnTransfer(left - |g.bytes|, net[1..], codes, head, gets[1..]);
      } else {
        assert Received(gets[1..]) == [];
      }
      PrefixBehind(g.bytes, Received(gets[1..]), NetBytes(net[1..]));
    } else {
      assert Received(gets) == [] + Received(gets[1..]) == [];
    }
  }

  lemma {:induction false} OverdrawnFirst(left: int, net: seq<seq<seq<Byte>>>, g: Get)
    requires GetsFixed(left, net, g.status, g.bytes, g.after) && left < 0
    ensures g.status != NX_WEB_HTTP_GET_DONE
    ensures g.status == NX_SUCCESS ==>
      net != [] && NetBytes(net) == g.bytes + NetBytes(net[1..]) && g.after == Fixed(left - |g.bytes|, net[1..])
  {
  }

  // ---------------------------------------------------------------- whole responses

  /** How calls for a response may end whose header was accepted; `o` is what the first one found. */
  ghost predicate BodySoFar(o: Opening, offset: nat, length: nat, chunked: bool, got: seq<Byte>, last: Get)
    requires offset <= |o.all|
  {
    var body := o.all[offset..] + NetBytes(o.rest);
    if chunked then ChunksSoFar(length, body, got, last)
    else if |o.all[offset..]| > length then got <= body && last.status != NX_WEB_HTTP_GET_DONE // a body behind HEAD
    else
      && got <= body && |got| <= length
      && match last.status
         case NX_SUCCESS => |got| < length && last.after.Fixed? && last.after.left == length - |got|
         case NX_WEB_HTTP_GET_DONE => |got| == length
         case NX_NOT_CONNECTED => got == body
         case NX_WEB_HTTP_BAD_PACKET_LENGTH => |body| > length
         case _ => false
  }

  lemma FixedOpened(o: Opening, offset: nat, length: nat, g: Get)
    requires offset <= |o.all| && |o.all[offset..]| <= length < UINT_RANGE
    requires GetsPart(length, o.all[offset..], o.rest, g.status, g.bytes, g.after)
    ensures BodySoFar(o, offset, length, false, Received([g]), g) && Received([g]) == g.bytes == o.all[offset..]
    ensures g.status == NX_SUCCESS ==> g.after == Fixed(length - |g.bytes|, o.rest) && |g.bytes| < length
  {
    assert [g][1..] == [] && g.bytes + [] == g.bytes;
  }

  lemma FixedBehind(o: Opening, offset: nat, length: nat, got: seq<Byte>, n: nat, last: Get)
    requires offset <= |o.all| && |o.all[offset..]| < length < UINT_RANGE
    requires FixedSoFar(length - |o.all[offset..]|, o.rest, got, n, last)
    ensures BodySoFar(o, offset, length, false, o.all[offset..] + got, last)
  {
    var part, more := o.all[offset..], NetBytes(o.rest);
    assert more == got + more[|got|..];
    assert part + more == part + got + more[|got|..];
  }

  lemma {:induction false} OpenedFirst(net: seq<seq<seq<Byte>>>, codes: map<seq<Byte>, nat>, head: bool, g: Get)
    requires Gets(Header(net), codes, head, g.opening, g.status, g.bytes, g.after)
    ensures var o := g.opening;
      var j := Judge(o.first, |o.all|, codes);
      if ScanFrom(NetBytes(net), 0).Searching? then g.status == NX_NOT_CONNECTED
      else
        && Opens(net, o)
        && match j
           case Refused(st) => g.status == st
           case Accepted(offset, length, chunked) =>
             offset <= |o.all| && GetsOpened(offset, if head then 0 else length, chunked, o, g.status, g.bytes, g.after)
  {
    hide Judge, NetBytes, ScanFrom, Opens, GetsOpened;
  }

  /** Whether the first call found a header and accepted it. */
  ghost predicate Opened(net: seq<seq<seq<Byte>>>, codes: map<seq<Byte>, nat>, o: Opening) {
    ScanFrom(NetBytes(net), 0).Found? && Judge(o.first, |o.all|, codes).Accepted?
  }

  /**
   A whole response, in any number of calls. Where the header is accepted, the packets returned are the beginning of
   the body, of its content if it is chunked, and the last call says exactly whether that is all; the response to a HEAD
   request has none. Where it is not, the first call is the last, and says why.
   */
  lemma {:induction false} ResponseTransfer(net: seq<seq<seq<Byte>>>, codes: map<seq<Byte>, nat>, head: bool,
      gets: seq<Get>)
    requires Transfer(Header(net), codes, head, gets) && gets != []
    ensures var o := gets[0].opening;
      var j := Judge(o.first, |o.all|, codes);
      if Opened(net, codes, o) then
        && Opens(net, o) && j.offset <= |o.all| && (!head && !j.chunked ==> |o.all| - j.offset <= j.length)
        && BodySoFar(o, j.offset, if head then 0 else j.length, j.chunked, Received(gets), Last(gets))
      else
        && |gets| == 1
        && gets[0].status == if ScanFrom(NetBytes(net), 0).Searching? then NX_NOT_CONNECTED else j.status
  {
    var g, o := gets[0], gets[0].opening;
    assert |gets| > 1 ==> g.status == NX_SUCCESS && Transfer(g.after, codes, head, gets[1..]);
    assert Received(gets) == (if g.status == NX_SUCCESS || g.status == NX_WEB_HTTP_GET_DONE then g.bytes else [])
      + Received(gets[1..]);
    OpenedFirst(net, codes, head, g);
    Refusals(o.first, |o.all|, codes);
    var j := Judge(o.first, |o.all|, codes);
    hide Judge, NetBytes, ScanFrom, Opens, GetsChunks, GetsPart, Transfer, BodySoFar, Received, Gets;
    if Opened(net, codes, o) {
      if !j.chunked {
        AcceptedFits(o.first, |o.all|, codes);
      }
      if j.chunked {
        ChunkedResponseTransfer(o, j.offset, if head then 0 else j.length, codes, head, gets);
      } else {
        FixedResponseTransfer(o, j.offset, if head then 0 else j.length, codes, head, gets);
      }
    }
  }

  lemma {:induction false} ChunkedResponseTransfer(o: Opening, offset: nat, length: nat, codes: map<seq<Byte>, nat>,
      head: bool, gets: seq<Get>)
    requires gets != [] && offset <= |o.all|
    requires var g := gets[0];
      && GetsOpened(offset, length, true, o, g.status, g.bytes, g.after)
      && (|gets| > 1 ==> g.status == NX_SUCCESS && Transfer(g.after, codes, head, gets[1..]))
    ensures BodySoFar(o, offset, length, true, Received(gets), Last(gets))
  {
    var body := o.all[offset..] + NetBytes(o.rest);
    assert Transfer(Chunks(length, body, o.rest), codes, head, gets);
    hide GetsChunks, ChunksSoFar, NetBytes, Transfer;
    ChunkedTransfer(length, body, o.rest, codes, head, gets);
  }

  lemma {:induction false} FixedResponseTransfer(o: Opening, offset: nat, length: nat, codes: map<seq<Byte>, nat>,
      head: bool, gets: seq<Get>)
    requires gets != [] && offset <= |o.all|
    requires length < UINT_RANGE
    requires var g := gets[0];
      && GetsOpened(offset, length, false, o, g.status, g.bytes, g.after)
      && (|gets| > 1 ==> g.status == NX_SUCCESS && Transfer(g.after, codes, head, gets[1..]))
    ensures BodySoFar(o, offset, length, false, Received(gets), Last(gets))
  {
    var g := gets[0];
    assert GetsPart(length, o.all[offset..], o.rest, g.status, g.bytes, g.after);
    if |o.all[offset..]| > length {
      OverdrawnResponse(o, offset, length, codes, head, gets);
      return;
    }
    FixedOpened(o, offset, length, g);
    if |gets| == 1 {
      assert gets == [g];
    } else {
      assert Received(gets) == g.bytes + Received(gets[1..]) && Last(gets) == Last(gets[1..]);
      hide *;
      FixedTransfer(length - |g.bytes|, o.rest, codes, head, gets[1..]);
      FixedBehind(o, offset, length, Received(gets[1..]), |gets| - 1, Last(gets));
    }
  }

  lemma {:induction false} OverdrawnResponse(o: Opening, offset: nat, length: nat, codes: map<seq<Byte>, nat>,
      head: bool, gets: seq<Get>)
    requires gets != [] && offset <= |o.all| && |o.all[offset..]| > length
    requires var g := gets[0];
      && GetsPart(length, o.all[offset..], o.rest, g.status, g.bytes, g.after)
      && (|gets| > 1 ==> g.status == NX_SUCCESS && Transfer(g.after, codes, head, gets[1..]))
    ensures Received(gets) <= o.all[offset..] + NetBytes(o.rest) && Last(gets).status != NX_WEB_HTTP_GET_DONE
  {
    var part, more := o.all[offset..], NetBytes(o.rest);
    if |gets| > 1 {
      OverdrawnTransfer(length - |part|, o.rest, codes, head, gets[1..]);
      var got := Received(gets[1..]);
      assert more == got + more[|got|..];
      Assoc(part, got, more[|got|..]);
    } else {
      assert gets[1..] == [] && part + [] == part;
    }
  }
}
