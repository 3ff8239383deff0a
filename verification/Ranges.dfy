/** Requests one after another on one connection: what each of them gets depends on what the one before it has left. */
module Ranges {
  import opened Bytes
  import opened HttpClient
  import opened HeaderScan
  import opened HeaderFields
  import opened Numbers
  import opened ResponseBody
  import opened Fetch
  import opened Responses

  // ---------------------------------------------------------------- what a fetch leaves

  /**
   What was got of `s` and what is left are all of it. The body of which `left` bytes were missing is still open if and
   only if not all of them were got, and its counter says how many are missing then.
   */
  ghost predicate Splits(left: nat, s: seq<Byte>, got: seq<Byte>, v: View) {
    && !v.Chunks? && got + NetBytes(v.net) == s && |got| <= left
    && (if |got| == left then v.Header? else v.Fixed? && v.left == left - |got|)
  }

  /** Fetching a body of announced length loses nothing and gets nothing twice. */
  lemma {:induction false} FixedLeaves(left: nat, net: seq<seq<seq<Byte>>>)
    requires left < UINT_RANGE && FetchFixed(left, net).status == NX_SUCCESS
    ensures Splits(left, NetBytes(net), FetchFixed(left, net).content, RemainsFixed(left, net))
    decreases |net|, 0
  {
    PartLeaves(left, Flatten(net[0]), net[1..]);
  }

  lemma {:induction false} PartLeaves(left: nat, part: seq<Byte>, net: seq<seq<seq<Byte>>>)
    requires |part| <= left < UINT_RANGE && FetchPart(left, part, net).status == NX_SUCCESS
    ensures Splits(left, part + NetBytes(net), FetchPart(left, part, net).content, RemainsPart(left, part, net))
    decreases |net|, 1
  {
    if left != |part| && part != [] {
      var f, v := FetchFixed(left - |part|, net), RemainsFixed(left - |part|, net);
      FixedLeaves(left - |part|, net);
      Assoc(part, f.content, NetBytes(v.net));
    }
  }

  /** No chain is empty. */
  ghost predicate AllFull(net: seq<seq<seq<Byte>>>) {
    forall i :: 0 <= i < |net| ==> Flatten(net[i]) != []
  }

  /** Chains that have the rest of a body, none of them empty, end it, and what is behind them stays. */
  lemma {:induction false} RestFetched(left: nat, net: seq<seq<seq<Byte>>>, more: seq<seq<seq<Byte>>>)
    requires 0 < left == |NetBytes(net)| && left < UINT_RANGE && AllFull(net)
    ensures FetchFixed(left, net + more) == Fetched(NX_SUCCESS, NetBytes(net))
    ensures RemainsFixed(left, net + more) == Header(more)
    decreases |net|
  {
    var part, rest := Flatten(net[0]), net[1..];
    assert (net + more)[0] == net[0] && (net + more)[1..] == rest + more;
    assert part != [] && NetBytes(net) == part + NetBytes(rest);
    assert forall i :: 0 <= i < |rest| ==> rest[i] == net[i + 1];
    assert left % UINT_RANGE == left;
    if left == |part| {
      assert NetBytes(rest) == [];
      NothingBehind(rest);
      assert rest + more == more && part + [] == part;
    } else {
      RestFetched(left - |part|, rest, more);
    }
  }

  lemma {:induction false} NothingBehind(net: seq<seq<seq<Byte>>>)
    requires AllFull(net)
    ensures NetBytes(net) == [] ==> net == []
  {
    if net != [] {
      assert NetBytes(net) == Flatten(net[0]) + NetBytes(net[1..]);
    }
  }

  /**
   While some of an earlier body is missing that is on its way, whatever a fetch gets is from that body, in any packets,
   and no byte of what comes behind.
   */
  lemma {:induction false} OnlyTheRest(left: nat, net: seq<seq<seq<Byte>>>, more: seq<seq<seq<Byte>>>)
    requires left == |NetBytes(net)| < UINT_RANGE
    ensures FetchFixed(left, net + more).content <= NetBytes(net)
  {
    var got := FetchFixed(left, net + more).content;
    FixedFetched(left, net + more);
    NetBytesJoin(net, more);
    hide *;
    assert got == (NetBytes(net) + NetBytes(more))[..|got|] == NetBytes(net)[..|got|];
  }

  // ---------------------------------------------------------------- replies that announce their length

  /** A reply whose header is in its first packet and announces the length of its body. */
  ghost predicate Replies(net: seq<seq<seq<Byte>>>, start: seq<Byte>, ls: seq<HeaderLine>, body: seq<Byte>,
      codes: map<seq<Byte>, nat>) {
    && Arrives(net, start, ls, body, codes) && !Chunked(FieldsRead(ls))
    && ContentLength(net[0][0]) == |body| && |WriteHeader(start, ls)| + |body| < UINT_RANGE
  }

  /** What there is of the body in the first chain, and in the chains behind it. */
  function FirstPart(net: seq<seq<seq<Byte>>>, h: seq<Byte>): seq<Byte>
    requires net != [] && |h| <= |Flatten(net[0])|
  {
    Flatten(net[0])[|h|..]
  }

  lemma {:induction false} ReplyParts(net: seq<seq<seq<Byte>>>, start: seq<Byte>, ls: seq<HeaderLine>, body: seq<Byte>,
      codes: map<seq<Byte>, nat>, o: Opening)
    requires Replies(net, start, ls, body, codes) && Fetch.Found(Header(net), o)
    ensures var h := WriteHeader(start, ls);
      && net != [] && |h| <= |Flatten(net[0])| && |FirstPart(net, h)| <= |body| < UINT_RANGE
      && FirstPart(net, h) + NetBytes(net[1..]) == body
      && FetchAll(Header(net), codes, false, o) == FetchPart(|body|, FirstPart(net, h), net[1..])
      && Remains(Header(net), codes, false, o) == RemainsPart(|body|, FirstPart(net, h), net[1..])
  {
    ReplyShape(net, start, ls, body, codes);
    Layers(net, start, ls, body, codes);
    assert net + [] == net && net[1..] + [] == net[1..] && NetOk([]);
    hide *;
    ReplyJoined(net, start, ls, body, codes, [], o);
    FirstInBody(net, WriteHeader(start, ls), body);
  }

  lemma FirstInBody(net: seq<seq<seq<Byte>>>, h: seq<Byte>, body: seq<Byte>)
    requires net != [] && |h| <= |Flatten(net[0])|
    requires Flatten(net[0])[|h|..] + NetBytes(net[1..]) == body
    ensures |FirstPart(net, h)| <= |body| && FirstPart(net, h) + NetBytes(net[1..]) == body
  {
    hide Flatten, NetBytes;
  }

  lemma {:induction false} RemainsJudged(net: seq<seq<seq<Byte>>>, codes: map<seq<Byte>, nat>, h: nat, n: nat)
    requires net != [] && net[0] != [] && h <= |Flatten(net[0])| <= h + n < UINT_RANGE
    requires Judge(net[0][0], |Flatten(net[0])|, codes) == VerdictOf(h, n, |Flatten(net[0])|, false)
    ensures Remains(Header(net), codes, false, OpeningOf(net)) ==
      RemainsPart(n, Flatten(net[0])[h..], net[1..])
  {
    hide Judge, RemainsPart, NetBytes, Flatten;
  }

  /**
   What is fetched of such a reply is the beginning of its body, and all of it under the condition on the packets. Of a
   success without all of it the rest is left, in order, and the body stays open.
   */
  lemma {:induction false} ReplyFetched(net: seq<seq<seq<Byte>>>, start: seq<Byte>, ls: seq<HeaderLine>,
      body: seq<Byte>, codes: map<seq<Byte>, nat>, o: Opening)
    requires Replies(net, start, ls, body, codes) && Fetch.Found(Header(net), o)
    ensures var f, h := FetchAll(Header(net), codes, false, o), WriteHeader(start, ls);
      && net != [] && |h| <= |Flatten(net[0])| && f.content <= body
      && (f.status == NX_SUCCESS && f.content == body <==> Completes(net[1..], FirstPart(net, h), |body|))
      && (f.status == NX_SUCCESS ==> Splits(|body|, body, f.content, Remains(Header(net), codes, false, o)))
  {
    ReplyParts(net, start, ls, body, codes, o);
    var h := WriteHeader(start, ls);
    var part, rest := FirstPart(net, h), net[1..];
    PartsFetched(rest, part, |body|);
    var f := FetchPart(|body|, part, rest);
    hide *;
    PrefixWhole(f.content, body);
    if f.status == NX_SUCCESS {
      PartLeaves(|body|, part, rest);
      assert Splits(|body|, body, f.content, RemainsPart(|body|, part, rest));
    }
  }

  lemma PrefixWhole(a: seq<Byte>, b: seq<Byte>)
    requires a <= b
    ensures a == b <==> |a| == |b|
  {
  }

  /** The response to a HEAD request, in a chain of its own. */
  ghost predicate HeadReply(net: seq<seq<seq<Byte>>>, start: seq<Byte>, ls: seq<HeaderLine>,
      codes: map<seq<Byte>, nat>) {
    Arrives(net, start, ls, [], codes) && !Chunked(FieldsRead(ls)) && |net| == 1
  }

  /**
   Such a response is a success if and only if its header and the body that it announces have less than 4 GiB together;
   it then leaves nothing, whatever length it announces.
   */
  lemma {:induction false} HeadLeaves(net: seq<seq<seq<Byte>>>, start: seq<Byte>, ls: seq<HeaderLine>,
      codes: map<seq<Byte>, nat>, o: Opening)
    requires HeadReply(net, start, ls, codes) && Fetch.Found(Header(net), o)
    ensures net != [] && net[0] != []
    ensures var f := FetchAll(Header(net), codes, true, o);
      && (f.status == NX_SUCCESS <==> |WriteHeader(start, ls)| + ContentLength(net[0][0]) < 0x1_0000_0000)
      && (f.status == NX_SUCCESS ==> f.content == [] && Remains(Header(net), codes, true, o) == Header([]))
  {
    Layers(net, start, ls, [], codes);
    var h := WriteHeader(start, ls);
    assert Flatten(net[0])[|h|..] == [] && net[1..] == [];
    HeaderAccepted(net, start, ls, [], codes, o);
    ArrivesParts(net, start, ls, [], codes);
    hide *;
    ContentLengthRange(net[0][0]);
    HeadJudged(net, codes, |h|, ContentLength(net[0][0]));
  }

  lemma {:induction false} HeadJudged(net: seq<seq<seq<Byte>>>, codes: map<seq<Byte>, nat>, h: nat, n: nat)
    requires |net| == 1 && net[0] != [] && h <= |Flatten(net[0])| && Flatten(net[0])[h..] == [] && n < UINT_RANGE
    requires ScanFrom(NetBytes(net), 0).Found?
    requires Judge(net[0][0], |Flatten(net[0])|, codes) == VerdictOf(h, n, |Flatten(net[0])|, false)
    ensures var f := FetchAll(Header(net), codes, true, OpeningOf(net));
      && (f.status == NX_SUCCESS <==> h + n < 0x1_0000_0000)
      && (f.status == NX_SUCCESS ==>
            f.content == [] && Remains(Header(net), codes, true, OpeningOf(net)) == Header([]))
  {
    assert net[1..] == [] && |Flatten(net[0])| == h;
    Refusals(net[0][0], |Flatten(net[0])|, codes);
    Exceeds(h, n);
    hide Judge, NetBytes, Flatten, ScanFrom;
  }

  lemma Exceeds(h: nat, n: nat)
    requires n < UINT_RANGE
    ensures h > (h + n) % UINT_RANGE <==> h + n >= UINT_RANGE
  {
    if h < UINT_RANGE <= h + n {
      assert (h + n) % UINT_RANGE == h + n - UINT_RANGE;
    }
  }

  /** A header that arrives alone leaves its whole body. */
  lemma {:induction false} AloneLeft(net: seq<seq<seq<Byte>>>, start: seq<Byte>, ls: seq<HeaderLine>,
      body: seq<Byte>, codes: map<seq<Byte>, nat>, o: Opening)
    requires Replies(net, start, ls, body, codes) && Fetch.Found(Header(net), o)
    requires Flatten(net[0]) == WriteHeader(start, ls) && body != []
    ensures FetchAll(Header(net), codes, false, o) == Fetched(NX_SUCCESS, [])
    ensures Remains(Header(net), codes, false, o) == Fixed(|body|, net[1..])
  {
    ReplyParts(net, start, ls, body, codes, o);
    hide Replies, Arrives, WriteHeader, FetchAll, Remains, Fetch.Found, NetBytes, Flatten;
  }

  /** The header arrives with some of the body, if there is any, and no empty chain comes behind. */
  ghost predicate Prompt(net: seq<seq<seq<Byte>>>, start: seq<Byte>, ls: seq<HeaderLine>, body: seq<Byte>,
      codes: map<seq<Byte>, nat>) {
    && Replies(net, start, ls, body, codes) && AllFull(net[1..])
    && (body != [] ==> |Flatten(net[0])| > |WriteHeader(start, ls)|)
  }

  /** Such a reply is fetched completely, and exactly what comes behind it is left. */
  lemma {:induction false} PromptFetched(net: seq<seq<seq<Byte>>>, start: seq<Byte>, ls: seq<HeaderLine>,
      body: seq<Byte>, codes: map<seq<Byte>, nat>, more: seq<seq<seq<Byte>>>, o: Opening)
    requires Prompt(net, start, ls, body, codes) && NetOk(more) && Fetch.Found(Header(net + more), o)
    ensures FetchAll(Header(net + more), codes, false, o) == Fetched(NX_SUCCESS, body)
    ensures Remains(Header(net + more), codes, false, o) == Header(more)
  {
    hide *;
    PromptParts(net, start, ls, body, codes);
    ReplyJoined(net, start, ls, body, codes, more, o);
    PartFetched(|body|, FirstPart(net, WriteHeader(start, ls)), net[1..], more);
  }

  lemma {:induction false} PromptAlone(net: seq<seq<seq<Byte>>>, start: seq<Byte>, ls: seq<HeaderLine>,
      body: seq<Byte>, codes: map<seq<Byte>, nat>, o: Opening)
    requires Prompt(net, start, ls, body, codes) && Fetch.Found(Header(net), o)
    ensures FetchAll(Header(net), codes, false, o) == Fetched(NX_SUCCESS, body)
    ensures Remains(Header(net), codes, false, o) == Header([])
  {
    assert net + [] == net && NetOk([]);
    hide *;
    PromptFetched(net, start, ls, body, codes, [], o);
  }

  lemma {:induction false} PromptParts(net: seq<seq<seq<Byte>>>, start: seq<Byte>, ls: seq<HeaderLine>,
      body: seq<Byte>, codes: map<seq<Byte>, nat>)
    requires Prompt(net, start, ls, body, codes)
    ensures var h := WriteHeader(start, ls);
      && Replies(net, start, ls, body, codes) && AllFull(net[1..]) && |body| < UINT_RANGE
      && net != [] && |h| <= |Flatten(net[0])| && FirstPart(net, h) + NetBytes(net[1..]) == body
      && (body != [] ==> FirstPart(net, h) != [])
  {
    Layers(net, start, ls, body, codes);
    hide Arrives, WriteHeader, NetBytes, Flatten, AllFull;
  }

  lemma {:induction false} PartFetched(left: nat, part: seq<Byte>, rest: seq<seq<seq<Byte>>>, more: seq<seq<seq<Byte>>>)
    requires left == |part + NetBytes(rest)| < UINT_RANGE && AllFull(rest) && (left > 0 ==> part != [])
    ensures FetchPart(left, part, rest + more) == Fetched(NX_SUCCESS, part + NetBytes(rest))
    ensures RemainsPart(left, part, rest + more) == Header(more)
  {
    if |part| == left {
      assert NetBytes(rest) == [] && part + [] == part;
      NothingBehind(rest);
      assert [] + more == more;
    } else {
      RestFetched(left - |part|, rest, more);
    }
  }

  /** A reply with more behind it, as the client finds it. */
  lemma {:induction false} ReplyJoined(net: seq<seq<seq<Byte>>>, start: seq<Byte>, ls: seq<HeaderLine>, body: seq<Byte>,
      codes: map<seq<Byte>, nat>, more: seq<seq<seq<Byte>>>, o: Opening)
    requires Replies(net, start, ls, body, codes) && NetOk(more) && Fetch.Found(Header(net + more), o)
    ensures var h := WriteHeader(start, ls);
      && net != [] && |h| <= |Flatten(net[0])|
      && FetchAll(Header(net + more), codes, false, o) == FetchPart(|body|, FirstPart(net, h), net[1..] + more)
      && Remains(Header(net + more), codes, false, o) == RemainsPart(|body|, FirstPart(net, h), net[1..] + more)
  {
    hide *;
    ReplyShape(net, start, ls, body, codes);
    JoinedFirst(net, more, WriteHeader(start, ls));
    ArrivesMore(net, start, ls, body, codes, more);
    JoinedFetched(net + more, start, ls, |body|, body + NetBytes(more), codes, o);
  }

  lemma JoinedFirst(net: seq<seq<seq<Byte>>>, more: seq<seq<seq<Byte>>>, h: seq<Byte>)
    requires net != [] && |h| <= |Flatten(net[0])|
    ensures (net + more)[0] == net[0] && (net + more)[1..] == net[1..] + more
    ensures FirstPart(net + more, h) == FirstPart(net, h)
  {
  }

  /** A response that arrives, of which the first packet announces `n` bytes. */
  lemma {:induction false} JoinedFetched(all: seq<seq<seq<Byte>>>, start: seq<Byte>, ls: seq<HeaderLine>, n: nat,
      body: seq<Byte>, codes: map<seq<Byte>, nat>, o: Opening)
    requires Arrives(all, start, ls, body, codes) && !Chunked(FieldsRead(ls)) && Fetch.Found(Header(all), o)
    requires all != [] && all[0] != [] && ContentLength(all[0][0]) == n
    requires var h := |WriteHeader(start, ls)|; h <= |Flatten(all[0])| <= h + n < UINT_RANGE
    ensures var h := WriteHeader(start, ls);
      && FetchAll(Header(all), codes, false, o) == FetchPart(n, FirstPart(all, h), all[1..])
      && Remains(Header(all), codes, false, o) == RemainsPart(n, FirstPart(all, h), all[1..])
  {
    hide *;
    NoWrap(|WriteHeader(start, ls)| + n);
    FirstPartIs(all, WriteHeader(start, ls));
    FixedJudged(all, start, ls, body, codes, o);
    assert FetchAll(Header(all), codes, false, o) == FetchPart(n, FirstPart(all, WriteHeader(start, ls)), all[1..]);
    JoinedRemains(all, start, ls, n, body, codes, o);
  }

  lemma {:induction false} JoinedRemains(all: seq<seq<seq<Byte>>>, start: seq<Byte>, ls: seq<HeaderLine>, n: nat,
      body: seq<Byte>, codes: map<seq<Byte>, nat>, o: Opening)
    requires Arrives(all, start, ls, body, codes) && !Chunked(FieldsRead(ls)) && Fetch.Found(Header(all), o)
    requires all != [] && all[0] != [] && ContentLength(all[0][0]) == n
    requires var h := |WriteHeader(start, ls)|; h <= |Flatten(all[0])| <= h + n < UINT_RANGE
    ensures var h := |WriteHeader(start, ls)|;
      Remains(Header(all), codes, false, o) == RemainsPart(n, Flatten(all[0])[h..], all[1..])
  {
    hide *;
    HeaderAccepted(all, start, ls, body, codes, o);
    RemainsJudged(all, codes, |WriteHeader(start, ls)|, n);
  }

  lemma NoWrap(n: nat)
    requires n < UINT_RANGE
    ensures n % UINT_RANGE == n
  {
  }

  lemma FirstPartIs(net: seq<seq<seq<Byte>>>, h: seq<Byte>)
    requires net != [] && |h| <= |Flatten(net[0])|
    ensures FirstPart(net, h) == Flatten(net[0])[|h|..]
  {
  }

  lemma {:induction false} ReplyShape(net: seq<seq<seq<Byte>>>, start: seq<Byte>, ls: seq<HeaderLine>, body: seq<Byte>,
      codes: map<seq<Byte>, nat>)
    requires Replies(net, start, ls, body, codes)
    ensures Arrives(net, start, ls, body, codes) && !Chunked(FieldsRead(ls)) && net != [] && net[0] != []
    ensures ContentLength(net[0][0]) == |body|
    ensures var h := |WriteHeader(start, ls)|; h <= |Flatten(net[0])| <= h + |body| < UINT_RANGE
  {
    Layers(net, start, ls, body, codes);
    var h, first := WriteHeader(start, ls), Flatten(net[0]);
    hide Arrives, WriteHeader, NetBytes, Flatten;
    assert |first[|h|..] + NetBytes(net[1..])| == |body|;
  }

  lemma {:induction false} ArrivesMore(net: seq<seq<seq<Byte>>>, start: seq<Byte>, ls: seq<HeaderLine>, body: seq<Byte>,
      codes: map<seq<Byte>, nat>, more: seq<seq<seq<Byte>>>)
    requires Arrives(net, start, ls, body, codes) && NetOk(more)
    ensures Arrives(net + more, start, ls, body + NetBytes(more), codes)
  {
    NetOkJoin(net, more);
    NetBytesJoin(net, more);
    Assoc(WriteHeader(start, ls), body, NetBytes(more));
    hide NetOk, NetBytes, WriteHeader, ValidHeader, Success;
  }

  /**
   The request behind a fetch that ended early, on the same connection: whatever the server replies, and in whatever
   packets, it gets nothing of its own reply, but more of the body before, from where that fetch ended.
   */
  lemma {:induction false} BehindEarlyEnd(net: seq<seq<seq<Byte>>>, start: seq<Byte>, ls: seq<HeaderLine>,
      body: seq<Byte>, codes: map<seq<Byte>, nat>, o: Opening, v: View, reply: seq<seq<seq<Byte>>>, o': Opening)
    requires Replies(net, start, ls, body, codes) && Fetch.Found(Header(net), o)
    requires var f := FetchAll(Header(net), codes, false, o); f.status == NX_SUCCESS && f.content != body
    requires v == Remains(Header(net), codes, false, o)
    ensures var got := FetchAll(Header(net), codes, false, o).content;
      && v.Fixed? && got <= body && NetBytes(v.net) == body[|got|..]
      && FetchAll(Await(v, reply), codes, false, o').content <= body[|got|..]
      && (AllFull(v.net) ==>
            && FetchAll(Await(v, reply), codes, false, o') == Fetched(NX_SUCCESS, body[|got|..])
            && Remains(Await(v, reply), codes, false, o') == Header(reply))
  {
    var got := FetchAll(Header(net), codes, false, o).content;
    ReplyFetched(net, start, ls, body, codes, o);
    ReplyParts(net, start, ls, body, codes, o);
    PrefixWhole(got, body);
    assert v.Fixed? && got + NetBytes(v.net) == body && v.left == |body| - |got|;
    hide Replies, Arrives, Splits, Remains, FetchFixed, RemainsFixed, NetBytes, Completes, FetchPart;
    assert (got + NetBytes(v.net))[|got|..] == NetBytes(v.net);
    FixedBehind(v, reply, codes, o');
  }

  lemma FixedBehind(v: View, reply: seq<seq<seq<Byte>>>, codes: map<seq<Byte>, nat>, o: Opening)
    requires v.Fixed? && 0 < v.left == |NetBytes(v.net)| < UINT_RANGE
    ensures FetchAll(Await(v, reply), codes, false, o).content <= NetBytes(v.net)
    ensures AllFull(v.net) ==>
      && FetchAll(Await(v, reply), codes, false, o) == Fetched(NX_SUCCESS, NetBytes(v.net))
      && Remains(Await(v, reply), codes, false, o) == Header(reply)
  {
    OnlyTheRest(v.left, v.net, reply);
    if AllFull(v.net) {
      RestFetched(v.left, v.net, reply);
    }
    hide FetchFixed, RemainsFixed, NetBytes, AllFull;
  }
}
